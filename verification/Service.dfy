/** Concurrent request handling: any number of handler threads, one mutex around
    the dispatched work, and the tarpit table. Handlers advance one step at a
    time, in any order. */
module Service {
  import opened Wrappers
  import opened Naming
  import opened Exports
  import opened ExportLaws
  import opened ExportRuns

  /** A handler's private progress inside a dispatched method. */
  datatype Local = Local(reply: string, raised: bool)

  /** One step of a dispatched method on the shared state. */
  type Micro = (State, Local) -> (State, Local)

  datatype Request = Request(
    client: string,
    hasAuth: bool,        // the Authorization header could be parsed
    authorised: bool,     // with the right user and password
    wellFormed: bool,     // path, length, JSON and version are accepted
    op: Op,
    work: seq<Micro>)     // the method that `mapping` holds for it

  datatype Status = BadRequest | Busy | Unauthorised | KeyMissing | Rejected | Replied(local: Local)

  datatype Pc = Arrived | Checked | Pitting | Pitted | Ready | Working(k: nat, local: Local) | Finished(status: Status)

  datatype Thread = Thread(req: Request, pc: Pc)

  /** A thread that got the mutex. */
  datatype Call = Call(thread: nat, req: Request)

  datatype PitEvent = PitEvent(enter: bool, thread: nat, client: string)

  /** The shared state, with the histories `calls` (in the order in which the
      mutex was got) and `pits`. */
  datatype Global = Global(
    threads: map<nat, Thread>,
    mutex: Option<nat>,
    pit: set<string>,
    shared: State,
    calls: seq<Call>,
    pits: seq<PitEvent>)

  const FRESH := Local("", false)

  function Move(g: Global, t: nat, pc: Pc): Global
    requires t in g.threads
  {
    g.(threads := g.threads[t := g.threads[t].(pc := pc)])
  }

  /** One step of handler `t`; a handler that waits for the mutex stays put. */
  function Advance(g: Global, t: nat): Global
    requires t in g.threads
  {
    var req := g.threads[t].req;
    match g.threads[t].pc
    case Arrived =>
      if !req.hasAuth then Move(g, t, Finished(BadRequest))
      else if req.client in g.pit then Move(g, t, Finished(Busy))
      else Move(g, t, Checked)
    case Checked =>
      if !req.authorised then Move(g, t, Pitting)
      else if !req.wellFormed then Move(g, t, Finished(Rejected))
      else Move(g, t, Ready)
    case Pitting =>
      Move(g, t, Pitted).(pit := g.pit + {req.client}, pits := g.pits + [PitEvent(true, t, req.client)])
    case Pitted =>
      Move(g, t, Finished(if req.client in g.pit then Unauthorised else KeyMissing))
        .(pit := g.pit - {req.client}, pits := g.pits + [PitEvent(false, t, req.client)])
    case Ready =>
      if g.mutex.Some? then g
      else Move(g, t, Working(0, FRESH)).(mutex := Some(t), calls := g.calls + [Call(t, req)])
    case Working(k, l) =>
      if l.raised || k >= |req.work| then Move(g, t, Finished(Replied(l))).(mutex := None)
      else
        var (s, l') := req.work[k](g.shared, l);
        Move(g, t, Working(k + 1, l')).(shared := s)
    case Finished(_) => g
  }

  /** The service starts idle. */
  function Start(s: State): Global {
    Global(map[], None, {}, s, [], [])
  }

  /** Either a new request arrives or some handler advances. */
  ghost predicate StepTo(g: Global, g': Global) {
    || (exists t: nat, req :: t !in g.threads && g' == g.(threads := g.threads[t := Thread(req, Arrived)]))
    || (exists t: nat :: t in g.threads && g' == Advance(g, t))
  }

  ghost predicate Interleaving(run: seq<Global>, s: State) {
    && run != [] && run[0] == Start(s)
    && forall i :: 0 <= i < |run| - 1 ==> StepTo(run[i], run[i + 1])
  }

  ghost predicate Reachable(g: Global, s: State) {
    exists run :: Interleaving(run, s) && run[|run| - 1] == g
  }

  lemma StartReachable(s: State)
    ensures Reachable(Start(s), s)
  {
    assert Interleaving([Start(s)], s);
  }

  lemma StepReachable(g: Global, g': Global, s: State)
    requires Reachable(g, s) && StepTo(g, g')
    ensures Reachable(g', s)
  {
    var run :| Interleaving(run, s) && run[|run| - 1] == g;
    var run' := run + [g'];
    forall i | 0 <= i < |run'| - 1 ensures StepTo(run'[i], run'[i + 1]) {
      if i < |run| - 1 { assert StepTo(run[i], run[i + 1]); }
    }
    assert Interleaving(run', s) && run'[|run'| - 1] == g';
  }

  // ----- Schedules -----

  /** A request arrives, or a handler takes its turn. */
  datatype Turn = Arrival(t: nat, req: Request) | Go(t: nat)

  function Play(g: Global, turn: Turn): Global {
    match turn
    case Arrival(t, req) => if t in g.threads then g else g.(threads := g.threads[t := Thread(req, Arrived)])
    case Go(t) => if t in g.threads then Advance(g, t) else g
  }

  function Played(g: Global, turns: seq<Turn>): Global {
    if turns == [] then g else Play(Played(g, turns[..|turns| - 1]), turns[|turns| - 1])
  }

  lemma {:induction false} PlayedIsReachable(g: Global, turns: seq<Turn>, s: State)
    requires Reachable(g, s)
    ensures Reachable(Played(g, turns), s)
  {
    if turns != [] {
      var n := |turns| - 1;
      PlayedIsReachable(g, turns[..n], s);
      var pre := Played(g, turns[..n]);
      if Play(pre, turns[n]) != pre { StepReachable(pre, Play(pre, turns[n]), s); }
    }
  }

  lemma {:induction false} InterleavingIsPlayed(run: seq<Global>, s: State) returns (turns: seq<Turn>)
    requires Interleaving(run, s)
    ensures run[|run| - 1] == Played(Start(s), turns)
  {
    if |run| == 1 {
      turns := [];
    } else {
      var n := |run| - 1;
      var before := InterleavingIsPlayed(run[..n], s);
      var g, g' := run[n - 1], run[n];
      assert StepTo(g, g') by { assert StepTo(run[n - 1], run[n - 1 + 1]); }
      var turn: Turn;
      if t: nat, req :| t !in g.threads && g' == g.(threads := g.threads[t := Thread(req, Arrived)]) {
        turn := Arrival(t, req);
      } else {
        var t: nat :| t in g.threads && g' == Advance(g, t);
        turn := Go(t);
      }
      turns := before + [turn];
      assert turns[..|turns| - 1] == before;
    }
  }

  /** The reachable states are those that schedules lead to. */
  lemma ReachableIsPlayed(g: Global, s: State)
    ensures Reachable(g, s) <==> exists turns :: g == Played(Start(s), turns)
  {
    if Reachable(g, s) {
      var run :| Interleaving(run, s) && run[|run| - 1] == g;
      var turns := InterleavingIsPlayed(run, s);
    }
    if turns :| g == Played(Start(s), turns) {
      StartReachable(s);
      PlayedIsReachable(Start(s), turns, s);
    }
  }

  // ----- The sequential meaning -----

  /** A method run alone from its step `k` on; it ends early when it raises. */
  function Alone(work: seq<Micro>, k: nat, s: State, l: Local): (State, Local)
    decreases |work| - k
  {
    if l.raised || k >= |work| then (s, l)
    else var (s', l') := work[k](s, l); Alone(work, k + 1, s', l')
  }

  function Effect(call: Call, s: State): (State, Local) {
    Alone(call.req.work, 0, s, FRESH)
  }

  /** The methods of `calls` run one after the other. */
  function Serial(calls: seq<Call>, s: State): State {
    if calls == [] then s
    else Effect(calls[|calls| - 1], Serial(calls[..|calls| - 1], s)).0
  }

  /** What the i-th caller is told when the calls run one after the other. */
  function Told(calls: seq<Call>, i: nat, s: State): Local
    requires i < |calls|
  {
    Effect(calls[i], Serial(calls[..i], s)).1
  }

  // ----- Mutual exclusion -----

  ghost predicate HasMutex(g: Global, t: nat) {
    t in g.threads && g.threads[t].pc.Working?
  }

  ghost predicate Called(g: Global, t: nat) {
    t in g.threads && (g.threads[t].pc.Working? || (g.threads[t].pc.Finished? && g.threads[t].pc.status.Replied?))
  }

  /** The check of the password has been passed. */
  ghost predicate PastChecks(pc: Pc) {
    pc.Ready? || pc.Working? || (pc.Finished? && pc.status.Replied?)
  }

  ghost predicate Held(g: Global) {
    && (forall t: nat :: HasMutex(g, t) <==> g.mutex == Some(t))
    && (forall t: nat :: g.mutex == Some(t) ==> g.calls != [] && g.calls[|g.calls| - 1].thread == t)
  }

  ghost predicate Screened(g: Global) {
    forall t :: t in g.threads ==>
      && (g.threads[t].pc.Checked? ==> g.threads[t].req.hasAuth)
      && (PastChecks(g.threads[t].pc) ==>
            g.threads[t].req.hasAuth && g.threads[t].req.authorised && g.threads[t].req.wellFormed)
  }

  ghost predicate Recorded(g: Global) {
    && (forall i :: 0 <= i < |g.calls| ==>
          Called(g, g.calls[i].thread) && g.threads[g.calls[i].thread].req == g.calls[i].req)
    && (forall i, j :: 0 <= i < j < |g.calls| ==> g.calls[i].thread != g.calls[j].thread)
    && (forall t :: Called(g, t) ==> exists i :: 0 <= i < |g.calls| && g.calls[i].thread == t)
  }

  ghost predicate Exclusive(g: Global) {
    Held(g) && Screened(g) && Recorded(g)
  }

  // ----- Serialisation -----

  /** The shared state is what the calls made so far give when run one after the
      other, up to the unfinished rest of the call that has the mutex; and every
      caller was told what it would have been told then. */
  ghost predicate Serialised(g: Global, s: State) {
    && Exclusive(g)
    && Answered(g, s)
    && (g.mutex == None ==> g.shared == Serial(g.calls, s))
    && (g.mutex.Some? ==> RestIs(g, s))
  }

  ghost predicate Answered(g: Global, s: State)
    requires Recorded(g)
  {
    forall i :: 0 <= i < |g.calls| && g.threads[g.calls[i].thread].pc.Finished? ==>
      g.threads[g.calls[i].thread].pc == Finished(Replied(Told(g.calls, i, s)))
  }

  ghost predicate RestIs(g: Global, s: State) {
    && g.calls != [] && HasMutex(g, g.calls[|g.calls| - 1].thread)
    && var last := g.calls[|g.calls| - 1];
       var pc := g.threads[last.thread].pc;
       Alone(last.req.work, pc.k, g.shared, pc.local) == Effect(last, Serial(g.calls[..|g.calls| - 1], s))
  }

  /** A step outside the mutex, or an arrival. */
  ghost predicate OutsideStep(g: Global, g': Global, t: nat) {
    && !Called(g, t) && !Called(g', t) && t in g'.threads && g'.threads == g.threads[t := g'.threads[t]]
    && g'.mutex == g.mutex && g'.shared == g.shared && g'.calls == g.calls
    && (g'.threads[t].pc.Checked? || PastChecks(g'.threads[t].pc) ==> g'.threads[t].req.hasAuth)
    && (PastChecks(g'.threads[t].pc) ==> g'.threads[t].req.authorised && g'.threads[t].req.wellFormed)
  }

  lemma OutsideKeepsCalled(g: Global, g': Global, t: nat)
    requires OutsideStep(g, g', t)
    ensures forall u :: Called(g', u) <==> Called(g, u)
    ensures forall u :: HasMutex(g', u) <==> HasMutex(g, u)
    ensures forall u :: u in g.threads && u != t ==> u in g'.threads && g'.threads[u] == g.threads[u]
  {
    assert forall u :: u != t ==> (u in g'.threads <==> u in g.threads);
    assert forall u :: u in g.threads && u != t ==> g'.threads[u] == g.threads[u];
  }

  lemma OutsideKeepsExclusive(g: Global, g': Global, t: nat)
    requires Exclusive(g) && OutsideStep(g, g', t)
    ensures Held(g') && Screened(g') && Recorded(g')
  {
    OutsideKeepsCalled(g, g', t);
    forall i | 0 <= i < |g.calls| ensures Called(g', g.calls[i].thread) && g.calls[i].thread != t {
      assert Called(g, g.calls[i].thread);
    }
  }

  lemma OutsideKeepsSerialised(g: Global, g': Global, t: nat, s: State)
    requires Serialised(g, s) && OutsideStep(g, g', t)
    ensures Serialised(g', s)
  {
    OutsideKeepsCalled(g, g', t);
    OutsideKeepsExclusive(g, g', t);
    forall i | 0 <= i < |g.calls| ensures g'.threads[g.calls[i].thread] == g.threads[g.calls[i].thread] {
      assert Called(g, g.calls[i].thread);
    }
    if g.mutex.Some? { assert RestIs(g', s); }
  }

  lemma AcquireCalls(g: Global, t: nat)
    requires Recorded(g) && t in g.threads && g.threads[t].pc.Ready? && g.mutex == None
    ensures Advance(g, t).calls == g.calls + [Call(t, g.threads[t].req)]
    ensures forall u :: Called(Advance(g, t), u) <==> Called(g, u) || u == t
    ensures forall i :: 0 <= i < |g.calls| ==>
      g.calls[i].thread != t && Advance(g, t).threads[g.calls[i].thread] == g.threads[g.calls[i].thread]
  {
    var g' := Advance(g, t);
    assert forall u :: u in g.threads && u != t ==> g'.threads[u] == g.threads[u];
    assert forall i :: 0 <= i < |g.calls| ==> Called(g, g.calls[i].thread);
  }

  lemma AcquireKeepsRecorded(g: Global, t: nat)
    requires Recorded(g) && t in g.threads && g.threads[t].pc.Ready? && g.mutex == None
    ensures Recorded(Advance(g, t))
    ensures forall i :: 0 <= i < |g.calls| ==> Advance(g, t).threads[g.calls[i].thread] == g.threads[g.calls[i].thread]
  {
    AcquireCalls(g, t);
    var g', n := Advance(g, t), |g.calls|;
    assert g'.calls[n] == Call(t, g.threads[t].req);
    assert forall i :: 0 <= i < n ==> g'.calls[i] == g.calls[i] && Called(g, g.calls[i].thread);
    forall u | Called(g', u) ensures exists i :: 0 <= i < |g'.calls| && g'.calls[i].thread == u {
      MoreCalls(g.calls, Call(t, g.threads[t].req), u);
    }
  }

  lemma MoreCalls(calls: seq<Call>, call: Call, u: nat)
    requires u == call.thread || exists i :: 0 <= i < |calls| && calls[i].thread == u
    ensures var all := calls + [call]; exists i :: 0 <= i < |all| && all[i].thread == u
  {
    var all := calls + [call];
    if u == call.thread {
      assert all[|calls|].thread == u;
    } else {
      var i :| 0 <= i < |calls| && calls[i].thread == u;
      assert all[i].thread == u;
    }
  }

  lemma AcquireKeepsExclusive(g: Global, t: nat)
    requires Exclusive(g) && t in g.threads && g.threads[t].pc.Ready? && g.mutex == None
    ensures Exclusive(Advance(g, t))
  {
    AcquireKeepsRecorded(g, t);
    var g' := Advance(g, t);
    assert forall u :: u in g.threads && u != t ==> g'.threads[u] == g.threads[u];
    assert forall u: nat :: !HasMutex(g, u);
  }

  lemma AcquireKeepsAnswers(g: Global, t: nat, s: State)
    requires Recorded(g) && Answered(g, s) && t in g.threads && g.threads[t].pc.Ready? && g.mutex == None
    ensures Recorded(Advance(g, t)) && Answered(Advance(g, t), s)
  {
    AcquireKeepsRecorded(g, t);
    AnswersAppend(g.calls, Call(t, g.threads[t].req), s);
  }

  lemma AcquireStartsRest(g: Global, t: nat, s: State)
    requires t in g.threads && g.threads[t].pc.Ready? && g.mutex == None && g.shared == Serial(g.calls, s)
    ensures RestIs(Advance(g, t), s)
  {
    AnswersAppend(g.calls, Call(t, g.threads[t].req), s);
  }

  lemma AcquireKeepsSerialised(g: Global, t: nat, s: State)
    requires Serialised(g, s) && t in g.threads && g.threads[t].pc.Ready? && g.mutex == None
    ensures Serialised(Advance(g, t), s)
  {
    AcquireKeepsExclusive(g, t);
    AcquireKeepsAnswers(g, t, s);
    AcquireStartsRest(g, t, s);
  }

  lemma AnswersAppend(calls: seq<Call>, call: Call, s: State)
    ensures (calls + [call])[..|calls|] == calls && (calls + [call])[|calls|] == call
    ensures forall i :: 0 <= i < |calls| ==>
              (calls + [call])[i] == calls[i] && Told(calls + [call], i, s) == Told(calls, i, s)
  {
    forall i | 0 <= i < |calls| ensures Told(calls + [call], i, s) == Told(calls, i, s) {
      assert (calls + [call])[..i] == calls[..i];
    }
  }

  lemma WorkKeepsRecorded(g: Global, t: nat)
    requires Recorded(g) && HasMutex(g, t)
    ensures Recorded(Advance(g, t))
  {
    var g' := Advance(g, t);
    assert forall u :: u in g.threads && u != t ==> g'.threads[u] == g.threads[u];
    assert forall u :: Called(g', u) <==> Called(g, u);
  }

  lemma WorkKeepsExclusive(g: Global, t: nat)
    requires Exclusive(g) && HasMutex(g, t)
    ensures Exclusive(Advance(g, t))
  {
    WorkKeepsRecorded(g, t);
    var g' := Advance(g, t);
    assert forall u :: u in g.threads && u != t ==> g'.threads[u] == g.threads[u];
    assert HasMutex(g, t) && g.mutex == Some(t);
    forall u: nat | u != t ensures !HasMutex(g, u) && !HasMutex(g', u) {
      assert g.mutex != Some(u);
    }
  }

  lemma OthersAnswersKept(g: Global, t: nat)
    requires Exclusive(g) && HasMutex(g, t)
    ensures var n := |g.calls| - 1;
            && n >= 0 && g.calls[n].thread == t && g.calls[n].req == g.threads[t].req
            && forall i :: 0 <= i < n ==> g.calls[i].thread != t && g.calls[i].thread in g.threads
                                          && Advance(g, t).threads[g.calls[i].thread] == g.threads[g.calls[i].thread]
  {
    assert g.mutex == Some(t);
    assert forall i :: 0 <= i < |g.calls| ==> Called(g, g.calls[i].thread);
  }

  lemma WorkKeepsRest(g: Global, t: nat, s: State)
    requires Serialised(g, s) && HasMutex(g, t)
    ensures var g' := Advance(g, t);
      && (g'.mutex == None ==> g'.shared == Serial(g'.calls, s))
      && (g'.mutex.Some? ==> RestIs(g', s))
  {
    OthersAnswersKept(g, t);
  }

  /** The holder, when it is done, has the answer of its call run alone. */
  lemma LastAnswer(g: Global, t: nat, s: State)
    requires RestIs(g, s) && HasMutex(g, t) && g.calls[|g.calls| - 1].thread == t
    requires g.calls[|g.calls| - 1].req == g.threads[t].req && Advance(g, t).threads[t].pc.Finished?
    ensures Advance(g, t).threads[t].pc == Finished(Replied(Told(g.calls, |g.calls| - 1, s)))
  {
  }

  lemma WorkKeepsAnswers(g: Global, t: nat, s: State)
    requires Serialised(g, s) && HasMutex(g, t)
    ensures Recorded(Advance(g, t)) && Answered(Advance(g, t), s)
  {
    WorkKeepsRecorded(g, t);
    OthersAnswersKept(g, t);
    var g', n := Advance(g, t), |g.calls| - 1;
    assert g'.calls == g.calls && g.mutex == Some(t);
    forall i | 0 <= i < |g.calls| && g'.threads[g.calls[i].thread].pc.Finished?
      ensures g'.threads[g.calls[i].thread].pc == Finished(Replied(Told(g.calls, i, s)))
    {
      if i < n {
        assert g'.threads[g.calls[i].thread] == g.threads[g.calls[i].thread];
      } else {
        LastAnswer(g, t, s);
      }
    }
  }

  /** A step of the thread that has the mutex. */
  lemma WorkKeepsSerialised(g: Global, t: nat, s: State)
    requires Serialised(g, s) && HasMutex(g, t)
    ensures Serialised(Advance(g, t), s)
  {
    WorkKeepsExclusive(g, t);
    WorkKeepsAnswers(g, t, s);
    WorkKeepsRest(g, t, s);
  }

  lemma EarlyKeepsSerialised(g: Global, t: nat, s: State)
    requires Serialised(g, s) && t in g.threads
    requires g.threads[t].pc.Arrived? || g.threads[t].pc.Checked? || g.threads[t].pc.Pitting? || g.threads[t].pc.Pitted?
    ensures Serialised(Advance(g, t), s)
  {
    EarlyIsOutside(g, t);
    OutsideKeepsSerialised(g, Advance(g, t), t, s);
  }

  lemma EarlyIsOutside(g: Global, t: nat)
    requires Screened(g) && t in g.threads
    requires g.threads[t].pc.Arrived? || g.threads[t].pc.Checked? || g.threads[t].pc.Pitting? || g.threads[t].pc.Pitted?
    ensures OutsideStep(g, Advance(g, t), t)
  {
  }

  lemma AdvanceKeepsSerialised(g: Global, t: nat, s: State)
    requires Serialised(g, s) && t in g.threads
    ensures Serialised(Advance(g, t), s)
  {
    match g.threads[t].pc
    case Ready => if g.mutex == None { AcquireKeepsSerialised(g, t, s); }
    case Working(_, _) => WorkKeepsSerialised(g, t, s);
    case Finished(_) =>
    case _ => EarlyKeepsSerialised(g, t, s);
  }

  lemma {:induction false} InterleavingIsSerial(run: seq<Global>, s: State)
    requires Interleaving(run, s)
    ensures Serialised(run[|run| - 1], s)
  {
    if |run| > 1 {
      var n := |run| - 1;
      InterleavingIsSerial(run[..n], s);
      var g, g' := run[n - 1], run[n];
      assert StepTo(g, g') by { assert StepTo(run[n - 1], run[n - 1 + 1]); }
      if t: nat, req :| t !in g.threads && g' == g.(threads := g.threads[t := Thread(req, Arrived)]) {
        OutsideKeepsSerialised(g, g', t, s);
      } else {
        var t: nat :| t in g.threads && g' == Advance(g, t);
        AdvanceKeepsSerialised(g, t, s);
      }
    }
  }

  /** Serialisation: after any interleaving of any number of handlers, the calls
      have the effects and the answers of one call at a time, in the order in
      which the mutex was got. */
  lemma ReachableIsSerial(g: Global, s: State)
    requires Reachable(g, s)
    ensures Serialised(g, s)
  {
    var run :| Interleaving(run, s) && run[|run| - 1] == g;
    InterleavingIsSerial(run, s);
  }

  // ----- Admission and answers -----

  /** A handler changes in its own turns only. */
  lemma OwnTurns(g: Global, g': Global, t: nat)
    requires StepTo(g, g') && t in g.threads
    ensures t in g'.threads && (g'.threads[t] == g.threads[t] || g' == Advance(g, t))
  {
    if u: nat :| u in g.threads && g' == Advance(g, u) { TurnsCount(g, u, t); }
  }

  /** Whoever moves, a new handler leaves its first state only for one of these: without
      credentials it is a bad request, and a client in the tarpit is sent away before
      they are looked at. */
  lemma AdmissionExact(g: Global, g': Global, t: nat)
    requires StepTo(g, g') && t in g.threads && g.threads[t].pc == Arrived
    ensures t in g'.threads && g'.threads[t].req == g.threads[t].req
    ensures var (req, pc) := (g.threads[t].req, g'.threads[t].pc);
      pc != Arrived ==>
        && (pc == Finished(BadRequest) <==> !req.hasAuth)
        && (pc == Finished(Busy) <==> req.hasAuth && req.client in g.pit)
        && (pc == Checked <==> req.hasAuth && req.client !in g.pit)
  {
    OwnTurns(g, g', t);
  }

  /** A wrong password leads to the tarpit, and to nothing else; a right one to the mutex
      exactly if the request is acceptable. */
  lemma CheckExact(g: Global, g': Global, t: nat)
    requires StepTo(g, g') && t in g.threads && g.threads[t].pc == Checked
    ensures t in g'.threads && g'.threads[t].req == g.threads[t].req
    ensures var (req, pc) := (g.threads[t].req, g'.threads[t].pc);
      pc != Checked ==>
        && (pc == Pitting <==> !req.authorised)
        && (pc == Ready <==> req.authorised && req.wellFormed)
        && (pc == Finished(Rejected) <==> req.authorised && !req.wellFormed)
  {
    OwnTurns(g, g', t);
  }

  /** A handler gets the mutex when nobody has it, and starts its method then. */
  lemma GrantExact(g: Global, g': Global, t: nat)
    requires StepTo(g, g') && t in g.threads && g.threads[t].pc == Ready
    ensures t in g'.threads && g'.threads[t].req == g.threads[t].req
    ensures g'.threads[t].pc != Ready ==>
      && g.mutex == None && g'.mutex == Some(t)
      && g'.threads[t].pc == Working(0, FRESH) && g'.calls == g.calls + [Call(t, g.threads[t].req)]
  {
    OwnTurns(g, g', t);
  }

  /** What the state of a handler says of its request. */
  predicate Deserved(req: Request, pc: Pc) {
    match pc
    case Arrived => true
    case Checked => req.hasAuth
    case Pitting => req.hasAuth && !req.authorised
    case Pitted => req.hasAuth && !req.authorised
    case Ready => req.hasAuth && req.authorised && req.wellFormed
    case Working(_, _) => req.hasAuth && req.authorised && req.wellFormed
    case Finished(status) =>
      match status
      case BadRequest => !req.hasAuth
      case Busy => req.hasAuth
      case Unauthorised => req.hasAuth && !req.authorised
      case KeyMissing => req.hasAuth && !req.authorised
      case Rejected => req.hasAuth && req.authorised && !req.wellFormed
      case Replied(_) => req.hasAuth && req.authorised && req.wellFormed
  }

  ghost predicate AllDeserved(g: Global) {
    forall t :: t in g.threads ==> Deserved(g.threads[t].req, g.threads[t].pc)
  }

  lemma AdvanceDeserved(g: Global, t: nat)
    requires AllDeserved(g) && t in g.threads
    ensures AllDeserved(Advance(g, t))
  {
    var g' := Advance(g, t);
    assert Deserved(g.threads[t].req, g.threads[t].pc);
    forall u | u in g'.threads && u != t ensures g'.threads[u] == g.threads[u] {}
  }

  lemma {:induction false} InterleavingDeserved(run: seq<Global>, s: State)
    requires Interleaving(run, s)
    ensures AllDeserved(run[|run| - 1])
  {
    if |run| > 1 {
      var n := |run| - 1;
      InterleavingDeserved(run[..n], s);
      var g, g' := run[n - 1], run[n];
      assert StepTo(g, g') by { assert StepTo(run[n - 1], run[n - 1 + 1]); }
      if t: nat :| t in g.threads && g' == Advance(g, t) { AdvanceDeserved(g, t); }
    }
  }

  /** In every reachable state, each handler got where its request deserves: only a
      request with the right password that is acceptable waits for the mutex or gets a
      method's answer, and only a wrong password meets the tarpit. */
  lemma ReachableDeserved(g: Global, s: State, t: nat)
    requires Reachable(g, s) && t in g.threads
    ensures Deserved(g.threads[t].req, g.threads[t].pc)
  {
    var run :| Interleaving(run, s) && run[|run| - 1] == g;
    InterleavingDeserved(run, s);
  }

  /** How many turns a handler has left at most, not counting those in which it waits. */
  function TurnsLeft(thread: Thread): nat {
    match thread.pc
    case Finished(_) => 0
    case Working(k, local) => 1 + if k < |thread.req.work| then |thread.req.work| - k else 0
    case Ready => 2 + |thread.req.work|
    case Pitted => 1
    case Pitting => 2
    case Checked => 3 + |thread.req.work|
    case Arrived => 4 + |thread.req.work|
  }

  /** Each turn of a handler brings it nearer to its end, unless it waits for the mutex
      or is done; nobody else's turn changes it. */
  lemma TurnsCount(g: Global, t: nat, u: nat)
    requires t in g.threads && u in g.threads
    ensures var (pc, g') := (g.threads[t].pc, Advance(g, t));
      && u in g'.threads && (u != t ==> g'.threads[u] == g.threads[u])
      && if pc.Finished? || (pc.Ready? && g.mutex.Some?) then g' == g
         else TurnsLeft(g'.threads[t]) < TurnsLeft(g.threads[t])
  {
  }

  // ----- Composition with the export machine -----

  /** The call may lead from `s` to `s'`, with some answer. */
  ghost predicate MayLead(c: Config, s: State, op: Op, s': State) {
    exists out :: Next(c, s, op, s', out)
  }

  /** Run alone, the method of a request is one call of the export machine. This
      is what the contract of `Block.Exporter.Call` says of every method. */
  ghost predicate Sound(c: Config, req: Request) {
    forall s :: Inv(s) ==> MayLead(c, s, req.op, Alone(req.work, 0, s, FRESH).0)
  }

  ghost function SomeAnswer(c: Config, s: State, op: Op): (s': State)
    ensures MayLead(c, s, op, s')
  {
    assert exists s' :: MayLead(c, s, op, s') by {
      var s', out := NextEnabled(c, s, op);
      assert MayLead(c, s, op, s');
    }
    var s' :| MayLead(c, s, op, s');
    s'
  }

  /** Every call has sound requests. */
  lemma SoundExists(c: Config, op: Op) returns (req: Request)
    ensures req.op == op && Sound(c, req)
  {
    req := Request("", true, true, true, op, [(s: State, l: Local) => (SomeAnswer(c, s, op), l)]);
    forall s ensures MayLead(c, s, op, Alone(req.work, 0, s, FRESH).0) {
      assert Alone(req.work, 0, s, FRESH) == Alone(req.work, 1, SomeAnswer(c, s, op), FRESH);
    }
  }

  lemma {:induction false} SerialIsRun(c: Config, calls: seq<Call>, s: State) returns (run: seq<Event>)
    requires Inv(s) && forall i :: 0 <= i < |calls| ==> Sound(c, calls[i].req)
    ensures IsRun(c, s, run) && |run| == |calls|
    ensures forall i :: 0 <= i < |calls| ==> run[i].op == calls[i].req.op
    ensures Before(s, run, |run|) == Serial(calls, s) && Inv(Serial(calls, s))
    decreases |calls|
  {
    if calls == [] {
      run := [];
    } else {
      var n := |calls| - 1;
      run := SerialIsRun(c, calls[..n], s);
      var pre := Serial(calls[..n], s);
      assert Sound(c, calls[n].req);
      var e := EffectIsStep(c, calls[n], pre);
      NextKeepsInv(c, pre, e.op, e.post, e.out);
      RunSnoc(c, s, run, e);
      run := run + [e];
    }
  }

  lemma EffectIsStep(c: Config, call: Call, s: State) returns (e: Event)
    requires Inv(s) && Sound(c, call.req)
    ensures Next(c, s, e.op, e.post, e.out) && e.op == call.req.op && e.post == Effect(call, s).0
  {
    var op, post := call.req.op, Effect(call, s).0;
    assert MayLead(c, s, op, post);
    var out :| Next(c, s, op, post, out);
    e := Event(op, out, post);
  }

  /** Whenever nobody has the mutex, the shared state is the end of a run of the
      export machine over the requests in the order in which they got the mutex;
      so it satisfies the export invariant. */
  lemma ConcurrentExports(c: Config, g: Global, s: State) returns (run: seq<Event>)
    requires Reachable(g, s) && Inv(s) && g.mutex == None
    requires forall t :: t in g.threads ==> Sound(c, g.threads[t].req)
    ensures IsRun(c, s, run) && |run| == |g.calls|
    ensures forall i :: 0 <= i < |run| ==> run[i].op == g.calls[i].req.op
    ensures Before(s, run, |run|) == g.shared && Inv(g.shared)
  {
    ReachableIsSerial(g, s);
    forall i | 0 <= i < |g.calls| ensures Sound(c, g.calls[i].req) {
      assert Called(g, g.calls[i].thread);
    }
    run := SerialIsRun(c, g.calls, s);
  }

  // ----- The mutex is always released -----

  function Repeat(g: Global, t: nat, n: nat): Global
    requires t in g.threads
    decreases n
  {
    if n == 0 then g else Repeat(Advance(g, t), t, n - 1)
  }

  /** On every path, raising or not, the holder gives the mutex back within one
      step more than its method has left. */
  lemma {:induction false} HolderReleases(g: Global, t: nat) returns (n: nat)
    requires Exclusive(g) && HasMutex(g, t)
    ensures Repeat(g, t, n).mutex == None
    ensures var k, all := g.threads[t].pc.k, |g.threads[t].req.work|; n <= 1 + if k < all then all - k else 0
    decreases |g.threads[t].req.work| - g.threads[t].pc.k
  {
    var pc, work := g.threads[t].pc, g.threads[t].req.work;
    if pc.local.raised || pc.k >= |work| {
      n := 1;
      assert Repeat(g, t, 1) == Repeat(Advance(g, t), t, 0);
    } else {
      WorkKeepsExclusive(g, t);
      n := HolderReleases(Advance(g, t), t);
      n := n + 1;
    }
  }

  // ----- The tarpit -----

  /** The last event of a client, or -1. */
  function LastPit(pits: seq<PitEvent>, client: string): (i: int)
    ensures -1 <= i < |pits|
    ensures i >= 0 ==> pits[i].client == client
    ensures forall j :: i < j < |pits| ==> pits[j].client != client
  {
    if pits == [] then -1
    else if pits[|pits| - 1].client == client then |pits| - 1
    else LastPit(pits[..|pits| - 1], client)
  }

  predicate LeftPit(pc: Pc) {
    pc == Finished(Unauthorised) || pc == Finished(KeyMissing)
  }

  /** The table holds the clients whose last event is an entry. */
  ghost predicate TableInv(g: Global) {
    forall client :: client in g.pit <==>
      LastPit(g.pits, client) >= 0 && g.pits[LastPit(g.pits, client)].enter
  }

  /** An event belongs to a handler that is pitted or has left, and who has left
      did so after entering. */
  ghost predicate EventFits(g: Global, i: nat) {
    && i < |g.pits| && g.pits[i].thread in g.threads
    && var e := g.pits[i]; var th := g.threads[e.thread];
    (&& th.req.client == e.client
     && (LeftPit(th.pc) || (e.enter && th.pc == Pitted))
     && (e.enter && LeftPit(th.pc) ==> Left(g.pits, e.thread, i))
     && (!e.enter ==> Entered(g.pits, e.thread, i)))
  }

  ghost predicate TarpitInv(g: Global) {
    && TableInv(g)
    && (forall i :: 0 <= i < |g.pits| ==> EventFits(g, i))
    && (forall t :: t in g.threads && g.threads[t].pc == Pitted ==> Entered(g.pits, t, |g.pits|))
  }

  /** Thread `t` entered before event `i`. */
  ghost predicate Entered(pits: seq<PitEvent>, t: nat, i: nat) {
    exists j :: 0 <= j < i && j < |pits| && pits[j].enter && pits[j].thread == t
  }

  /** Thread `t` left after event `i`. */
  ghost predicate Left(pits: seq<PitEvent>, t: nat, i: nat) {
    exists j :: i < j < |pits| && !pits[j].enter && pits[j].thread == t
  }

  lemma LastPitSnoc(pits: seq<PitEvent>, e: PitEvent, client: string)
    ensures LastPit(pits + [e], client) == if e.client == client then |pits| else LastPit(pits, client)
  {
    assert (pits + [e])[..|pits|] == pits;
  }

  ghost predicate PitStep(g: Global, g': Global, e: PitEvent) {
    && e.thread in g.threads && g.threads[e.thread].req.client == e.client && e.thread in g'.threads
    && g.threads[e.thread].pc == (if e.enter then Pitting else Pitted)
    && (if e.enter then g'.threads[e.thread].pc == Pitted else LeftPit(g'.threads[e.thread].pc))
    && g'.threads == g.threads[e.thread := g.threads[e.thread].(pc := g'.threads[e.thread].pc)]
    && g'.pits == g.pits + [e] && g'.pit == if e.enter then g.pit + {e.client} else g.pit - {e.client}
  }

  lemma HistoryGrows(pits: seq<PitEvent>, e: PitEvent, t: nat, i: nat)
    requires i <= |pits|
    ensures Entered(pits + [e], t, i) <==> Entered(pits, t, i)
    ensures Entered(pits, t, |pits|) ==> Entered(pits + [e], t, |pits| + 1)
    ensures Left(pits, t, i) ==> Left(pits + [e], t, i)
    ensures !e.enter && e.thread == t && i < |pits| ==> Left(pits + [e], t, i)
    ensures e.enter && e.thread == t ==> Entered(pits + [e], t, |pits| + 1)
  {
    var pits' := pits + [e];
    assert pits'[|pits|] == e && forall j :: 0 <= j < |pits| ==> pits'[j] == pits[j];
    if j :| 0 <= j < |pits| && pits[j].enter && pits[j].thread == t { assert pits'[j].enter && pits'[j].thread == t; }
    if j :| i < j < |pits| && !pits[j].enter && pits[j].thread == t { assert !pits'[j].enter && pits'[j].thread == t; }
  }

  lemma PitStepKeepsEvents(g: Global, g': Global, e: PitEvent, i: nat)
    requires TarpitInv(g) && PitStep(g, g', e) && i <= |g.pits|
    ensures EventFits(g', i)
  {
    var n := |g.pits|;
    if i < n {
      assert EventFits(g, i) && g'.pits[i] == g.pits[i];
      HistoryGrows(g.pits, e, g.pits[i].thread, i);
    } else {
      assert g'.pits[n] == e;
      HistoryGrows(g.pits, e, e.thread, n);
    }
  }

  lemma PitStepKeepsInv(g: Global, g': Global, e: PitEvent)
    requires TarpitInv(g) && PitStep(g, g', e)
    ensures TarpitInv(g')
  {
    forall client
      ensures client in g'.pit <==> LastPit(g'.pits, client) >= 0 && g'.pits[LastPit(g'.pits, client)].enter
    {
      LastPitSnoc(g.pits, e, client);
    }
    forall i | 0 <= i < |g'.pits| ensures EventFits(g', i) { PitStepKeepsEvents(g, g', e, i); }
    forall t | t in g'.threads && g'.threads[t].pc == Pitted ensures Entered(g'.pits, t, |g'.pits|) {
      HistoryGrows(g.pits, e, t, |g.pits|);
    }
  }

  lemma AdvanceKeepsTarpit(g: Global, t: nat)
    requires TarpitInv(g) && t in g.threads
    ensures TarpitInv(Advance(g, t))
  {
    var g', client := Advance(g, t), g.threads[t].req.client;
    match g.threads[t].pc
    case Pitting => PitStepKeepsInv(g, g', PitEvent(true, t, client));
    case Pitted => PitStepKeepsInv(g, g', PitEvent(false, t, client));
    case _ => OtherStepKeepsTarpit(g, g', t);
  }

  lemma OtherStepKeepsTarpit(g: Global, g': Global, t: nat)
    requires TarpitInv(g) && t in g'.threads && g'.threads == g.threads[t := g'.threads[t]]
    requires t in g.threads ==> g'.threads[t].req == g.threads[t].req
    requires t in g.threads ==> g.threads[t].pc != Pitted
    requires t in g.threads && LeftPit(g.threads[t].pc) ==> g'.threads[t] == g.threads[t]
    requires g'.threads[t].pc != Pitted && g'.pits == g.pits && g'.pit == g.pit
    ensures TarpitInv(g')
  {
    forall i | 0 <= i < |g.pits| ensures EventFits(g', i) {
      assert EventFits(g, i);
    }
  }

  lemma {:induction false} InterleavingKeepsTarpit(run: seq<Global>, s: State)
    requires Interleaving(run, s)
    ensures TarpitInv(run[|run| - 1])
  {
    if |run| > 1 {
      var n := |run| - 1;
      InterleavingKeepsTarpit(run[..n], s);
      var g, g' := run[n - 1], run[n];
      assert StepTo(g, g') by { assert StepTo(run[n - 1], run[n - 1 + 1]); }
      if t: nat, req :| t !in g.threads && g' == g.(threads := g.threads[t := Thread(req, Arrived)]) {
        OtherStepKeepsTarpit(g, g', t);
      } else {
        var t: nat :| t in g.threads && g' == Advance(g, t);
        AdvanceKeepsTarpit(g, t);
      }
    }
  }

  lemma ReachableTarpit(g: Global, s: State)
    requires Reachable(g, s)
    ensures TarpitInv(g)
  {
    var run :| Interleaving(run, s) && run[|run| - 1] == g;
    InterleavingKeepsTarpit(run, s);
  }

  lemma OtherClientOtherThread(g: Global, i: nat, j: nat)
    requires TarpitInv(g) && i < |g.pits| && j < |g.pits| && g.pits[i].client != g.pits[j].client
    ensures g.pits[i].thread != g.pits[j].thread
  {
    assert EventFits(g, i) && EventFits(g, j);
  }

  /** A client is in the table only while one of its handlers is pitted; so the
      table is empty when nobody is. */
  lemma PittedClients(g: Global, s: State, client: string)
    requires Reachable(g, s) && client in g.pit
    ensures exists t :: t in g.threads && g.threads[t].pc == Pitted && g.threads[t].req.client == client
  {
    ReachableTarpit(g, s);
    var i := LastPit(g.pits, client);
    var t := g.pits[i].thread;
    assert EventFits(g, i);
    forall j | i < j < |g.pits| ensures g.pits[j].thread != t { OtherClientOtherThread(g, i, j); }
    assert !Left(g.pits, t, i);
    assert g.threads[t].pc == Pitted;
  }

  /** Another handler of the client left after event `e`, overlapping the handler
      that entered there, and nobody of that client entered since. */
  ghost predicate RobbedBy(g: Global, t: nat, e: nat, j: nat) {
    && t in g.threads && e < j < |g.pits| && g.pits[j].client == g.threads[t].req.client && !g.pits[j].enter
    && g.pits[j].thread != t && Entered(g.pits, g.pits[j].thread, j)
    && forall k :: j < k < |g.pits| ==> !(g.pits[k].enter && g.pits[k].client == g.pits[j].client)
  }

  /** A pitted handler will miss its key on the way out exactly when another
      handler of the same client, overlapping it, took the key away. */
  lemma KeyMissingIffRobbed(g: Global, s: State, t: nat, e: nat)
    requires Reachable(g, s) && t in g.threads && g.threads[t].pc == Pitted
    requires e < |g.pits| && g.pits[e].enter && g.pits[e].thread == t
    ensures Advance(g, t).threads[t].pc == Finished(KeyMissing) <==> exists j :: RobbedBy(g, t, e, j)
  {
    ReachableTarpit(g, s);
    var client := g.threads[t].req.client;
    var last := LastPit(g.pits, client);
    assert EventFits(g, e);
    if client !in g.pit {
      assert last > e && EventFits(g, last);
      assert RobbedBy(g, t, e, last);
    }
  }

  /** Two handlers of the same request, nobody at the mutex. */
  function Two(s: State, req: Request, pc0: Pc, pc1: Pc, pit: set<string>, pits: seq<PitEvent>): Global {
    Global(map[0 := Thread(req, pc0), 1 := Thread(req, pc1)], None, pit, s, [], pits)
  }

  lemma MoveTwo(s: State, req: Request, pc0: Pc, pc1: Pc, pit: set<string>, pits: seq<PitEvent>, pc: Pc)
    ensures Move(Two(s, req, pc0, pc1, pit, pits), 0, pc) == Two(s, req, pc, pc1, pit, pits)
    ensures Move(Two(s, req, pc0, pc1, pit, pits), 1, pc) == Two(s, req, pc0, pc, pit, pits)
  {
    assert map[0 := Thread(req, pc0), 1 := Thread(req, pc1)][0 := Thread(req, pc)]
        == map[0 := Thread(req, pc), 1 := Thread(req, pc1)];
    assert map[0 := Thread(req, pc0), 1 := Thread(req, pc1)][1 := Thread(req, pc)]
        == map[0 := Thread(req, pc0), 1 := Thread(req, pc)];
  }

  lemma AdvanceTwo(s: State, req: Request, pc0: Pc, pc1: Pc)
    requires req.hasAuth && !req.authorised
    ensures pc0 == Arrived ==> StepTo(Two(s, req, pc0, pc1, {}, []), Two(s, req, Checked, pc1, {}, []))
    ensures pc1 == Arrived ==> StepTo(Two(s, req, pc0, pc1, {}, []), Two(s, req, pc0, Checked, {}, []))
    ensures pc0 == Checked ==> StepTo(Two(s, req, pc0, pc1, {}, []), Two(s, req, Pitting, pc1, {}, []))
    ensures pc1 == Checked ==> StepTo(Two(s, req, pc0, pc1, {}, []), Two(s, req, pc0, Pitting, {}, []))
  {
    var g := Two(s, req, pc0, pc1, {}, []);
    assert 0 in g.threads && 1 in g.threads;
    MoveTwo(s, req, pc0, pc1, {}, [], Checked);
    MoveTwo(s, req, pc0, pc1, {}, [], Pitting);
    assert pc0 == Arrived ==> Advance(g, 0) == Two(s, req, Checked, pc1, {}, []);
    assert pc1 == Arrived ==> Advance(g, 1) == Two(s, req, pc0, Checked, {}, []);
    assert pc0 == Checked ==> Advance(g, 0) == Two(s, req, Pitting, pc1, {}, []);
    assert pc1 == Checked ==> Advance(g, 1) == Two(s, req, pc0, Pitting, {}, []);
  }

  lemma PitTwo(s: State, req: Request) returns (g7: Global, g8: Global, g9: Global, g10: Global)
    requires req.hasAuth && !req.authorised
    ensures StepTo(Two(s, req, Pitting, Pitting, {}, []), g7) && StepTo(g7, g8) && StepTo(g8, g9) && StepTo(g9, g10)
    ensures 1 in g10.threads && g10.threads[1].pc == Finished(KeyMissing)
  {
    var c, e0, e1 := {req.client}, PitEvent(true, 0, req.client), PitEvent(true, 1, req.client);
    var x0 := PitEvent(false, 0, req.client);
    g7 := Two(s, req, Pitted, Pitting, c, [e0]);
    MoveTwo(s, req, Pitting, Pitting, {}, [], Pitted);
    assert Advance(Two(s, req, Pitting, Pitting, {}, []), 0) == g7;
    g8 := Two(s, req, Pitted, Pitted, c, [e0, e1]);
    MoveTwo(s, req, Pitted, Pitting, c, [e0], Pitted);
    assert Advance(g7, 1) == g8;
    g9 := Two(s, req, Finished(Unauthorised), Pitted, {}, [e0, e1, x0]);
    MoveTwo(s, req, Pitted, Pitted, c, [e0, e1], Finished(Unauthorised));
    assert Advance(g8, 0) == g9;
    g10 := Advance(g9, 1);
  }

  /** It happens: the check and the entry are two steps, so two handlers of one
      client can both pass the check. */
  lemma KeyMissingHappens(s: State, req: Request) returns (g: Global)
    requires req.hasAuth && !req.authorised
    ensures Reachable(g, s) && 1 in g.threads && g.threads[1].pc == Finished(KeyMissing)
  {
    BothPitting(s, req);
    var g7, g8, g9, g10 := PitTwo(s, req);
    StepReachable(Two(s, req, Pitting, Pitting, {}, []), g7, s);
    StepReachable(g7, g8, s);
    StepReachable(g8, g9, s);
    StepReachable(g9, g10, s);
    g := g10;
  }

  lemma BothPitting(s: State, req: Request)
    requires req.hasAuth && !req.authorised
    ensures Reachable(Two(s, req, Pitting, Pitting, {}, []), s)
  {
    var g0 := Start(s);
    var g1 := g0.(threads := map[0 := Thread(req, Arrived)]);
    var g2 := Two(s, req, Arrived, Arrived, {}, []);
    StartReachable(s);
    Arrives(g0, 0, req, g1);
    StepReachable(g0, g1, s);
    assert g1.threads[1 := Thread(req, Arrived)] == g2.threads;
    Arrives(g1, 1, req, g2);
    StepReachable(g1, g2, s);
    AdvanceTwo(s, req, Arrived, Arrived);
    StepReachable(g2, Two(s, req, Checked, Arrived, {}, []), s);
    AdvanceTwo(s, req, Checked, Arrived);
    StepReachable(Two(s, req, Checked, Arrived, {}, []), Two(s, req, Checked, Checked, {}, []), s);
    AdvanceTwo(s, req, Checked, Checked);
    StepReachable(Two(s, req, Checked, Checked, {}, []), Two(s, req, Pitting, Checked, {}, []), s);
    AdvanceTwo(s, req, Pitting, Checked);
    StepReachable(Two(s, req, Pitting, Checked, {}, []), Two(s, req, Pitting, Pitting, {}, []), s);
  }

  lemma Arrives(g: Global, t: nat, req: Request, g': Global)
    requires t !in g.threads && g' == g.(threads := g.threads[t := Thread(req, Arrived)])
    ensures StepTo(g, g')
  {
  }
}
