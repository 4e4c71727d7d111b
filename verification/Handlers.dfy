/** The handler threads and the tarpit as the program has them: objects whose
    methods change shared fields. Every method is one or more steps of the state
    machine in `Service`. */
module Handlers {
  import opened Wrappers
  import opened Exports
  import opened Service

  /** The tarpit's table and its lock, with the entries and exits of `Pit`. Each
      method gives the lock back, so that it is free between any two of them: a
      handler that has to wait for it is one whose turn has not come. */
  class Tar {
    var locked: bool
    var client: set<string>

    constructor ()
      ensures !locked && client == {}
    {
      locked, client := false, {};
    }

    method Acquire()
      requires !locked
      modifies this`locked
      ensures locked
    {
      locked := true;
    }

    method Release()
      requires locked
      modifies this`locked
      ensures !locked
    {
      locked := false;
    }

    method IsStuck(id: string) returns (stuck: bool)
      requires !locked
      modifies this`locked
      ensures !locked && (stuck <==> id in client)
    {
      Acquire();
      stuck := id in client;
      Release();
    }

    /** `Pit.__enter__` */
    method Enter(id: string)
      requires !locked
      modifies this
      ensures !locked && client == old(client) + {id}
    {
      Acquire();
      client := client + {id};
      Release();
    }

    /** `Pit.__exit__`; `missing` is the `KeyError`. */
    method Exit(id: string) returns (missing: bool)
      requires !locked
      modifies this
      ensures !locked && client == old(client) - {id} && (missing <==> id !in old(client))
    {
      Acquire();
      missing := id !in client;
      client := client - {id};
      Release();
    }
  }

  class Server {
    const tar: Tar
    var threads: map<nat, Thread>
    var mutex: Option<nat>
    var shared: State
    ghost var calls: seq<Call>
    ghost var pits: seq<PitEvent>

    ghost function Now(): Global
      reads this, tar
    {
      Global(threads, mutex, tar.client, shared, calls, pits)
    }

    constructor (s: State)
      ensures Now() == Start(s) && !tar.locked && fresh(tar)
    {
      tar := new Tar();
      threads, mutex, shared := map[], None, s;
      calls, pits := [], [];
    }

    method Arrive(t: nat, req: Request)
      requires t !in threads
      modifies this`threads
      ensures Now() == Play(old(Now()), Arrival(t, req))
    {
      threads := threads[t := Thread(req, Arrived)];
    }

    method Goto(t: nat, pc: Pc)
      requires t in threads
      modifies this`threads
      ensures threads == old(threads)[t := old(threads)[t].(pc := pc)]
    {
      threads := threads[t := threads[t].(pc := pc)];
    }

    /** Up to the check of the tarpit. */
    method Admit(t: nat)
      requires t in threads && threads[t].pc == Arrived && !tar.locked
      modifies this, tar
      ensures Now() == Advance(old(Now()), t) && !tar.locked
    {
      var req := threads[t].req;
      if !req.hasAuth { Goto(t, Finished(BadRequest)); return; }
      var stuck := tar.IsStuck(req.client);
      Goto(t, if stuck then Finished(Busy) else Checked);
    }

    /** The check of the password and, if it is right, of the request. */
    method Authenticate(t: nat)
      requires t in threads && threads[t].pc == Checked
      modifies this`threads
      ensures Now() == Advance(old(Now()), t)
    {
      var req := threads[t].req;
      if !req.authorised { Goto(t, Pitting); return; }
      Goto(t, if req.wellFormed then Ready else Finished(Rejected));
    }

    method EnterPit(t: nat)
      requires t in threads && threads[t].pc == Pitting && !tar.locked
      modifies this, tar
      ensures Now() == Advance(old(Now()), t) && !tar.locked
    {
      tar.Enter(threads[t].req.client);
      pits := pits + [PitEvent(true, t, threads[t].req.client)];
      Goto(t, Pitted);
    }

    method LeavePit(t: nat)
      requires t in threads && threads[t].pc == Pitted && !tar.locked
      modifies this, tar
      ensures Now() == Advance(old(Now()), t) && !tar.locked
    {
      var missing := tar.Exit(threads[t].req.client);
      pits := pits + [PitEvent(false, t, threads[t].req.client)];
      Goto(t, Finished(if missing then KeyMissing else Unauthorised));
    }

    method AcquireMutex(t: nat)
      requires t in threads && threads[t].pc == Ready && mutex == None
      modifies this
      ensures Now() == Advance(old(Now()), t)
    {
      mutex := Some(t);
      calls := calls + [Call(t, threads[t].req)];
      Goto(t, Working(0, FRESH));
    }

    /** One step of the dispatched method. */
    method WorkOn(t: nat)
      requires t in threads && threads[t].pc.Working?
      requires !threads[t].pc.local.raised && threads[t].pc.k < |threads[t].req.work|
      modifies this
      ensures Now() == Advance(old(Now()), t)
    {
      var k, local := threads[t].pc.k, threads[t].pc.local;
      var (s, local') := threads[t].req.work[k](shared, local);
      shared := s;
      Goto(t, Working(k + 1, local'));
    }

    /** The `finally` clause: reached by returning and by raising. */
    method ReleaseMutex(t: nat)
      requires t in threads && threads[t].pc.Working?
      requires threads[t].pc.local.raised || threads[t].pc.k >= |threads[t].req.work|
      modifies this
      ensures Now() == Advance(old(Now()), t) && mutex == None
    {
      mutex := None;
      Goto(t, Finished(Replied(threads[t].pc.local)));
    }

    /** The whole mutex section of one handler, when nobody else moves. */
    method Serve(t: nat)
      requires t in threads && threads[t].pc == Ready && mutex == None
      modifies this
      ensures mutex == None && calls == old(calls) + [Call(t, old(threads)[t].req)]
      ensures var (s, local) := Alone(old(threads)[t].req.work, 0, old(shared), FRESH);
              shared == s && threads == old(threads)[t := old(threads)[t].(pc := Finished(Replied(local)))]
    {
      var req := threads[t].req;
      AcquireMutex(t);
      while !threads[t].pc.local.raised && threads[t].pc.k < |req.work|
        invariant t in threads && threads == old(threads)[t := threads[t]]
        invariant threads[t].req == req && threads[t].pc.Working?
        invariant calls == old(calls) + [Call(t, req)]
        invariant Alone(req.work, threads[t].pc.k, shared, threads[t].pc.local)
                  == Alone(req.work, 0, old(shared), FRESH)
        decreases |req.work| - threads[t].pc.k
      {
        WorkOn(t);
      }
      ReleaseMutex(t);
    }

    // ----- All handlers together -----

    /** The turn of one handler. One that waits for the mutex stays where it is, and
        one that is done has nothing left to do. */
    method TakeTurn(t: nat)
      requires t in threads && !tar.locked
      modifies this, tar
      ensures Now() == Advance(old(Now()), t) && !tar.locked
    {
      match threads[t].pc {
        case Arrived => Admit(t);
        case Checked => Authenticate(t);
        case Pitting => EnterPit(t);
        case Pitted => LeavePit(t);
        case Ready => if mutex == None { AcquireMutex(t); }
        case Working(k, local) =>
          if local.raised || k >= |threads[t].req.work| { ReleaseMutex(t); } else { WorkOn(t); }
        case Finished(_) =>
      }
    }

    /** Any schedule. Whatever it is, the object is in a reachable state of the state
        machine, and the tarpit's lock is free whenever a handler's turn begins. */
    method Schedule(turns: seq<Turn>, ghost s: State)
      requires Reachable(Now(), s) && !tar.locked
      modifies this, tar
      ensures Now() == Played(old(Now()), turns) && Reachable(Now(), s) && !tar.locked
    {
      ghost var g := Now();
      for k := 0 to |turns|
        invariant Now() == Played(g, turns[..k]) && !tar.locked
      {
        assert turns[..k + 1][..k] == turns[..k];
        match turns[k] {
          case Arrival(t, req) => if t !in threads { Arrive(t, req); }
          case Go(t) => if t in threads { TakeTurn(t); }
        }
      }
      assert turns[..|turns|] == turns;
      PlayedIsReachable(g, turns, s);
    }
  }
}
