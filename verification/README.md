# targetd: exports, options and request handling

targetd is a JSON-RPC service that makes block volumes (LVM or ZFS) available over
iSCSI and directories over NFS. This project models three parts of it and proves what
they keep.

**iSCSI exports.** The service finds its volumes only through names that are encoded
into strings (`vg:vol`, `a%b:vol`, `/dev/pool/vol`), and it keeps no state of its own:
everything is in the kernel's configuration tree of storage objects, LUNs, NodeACLs and
mapped LUNs, which its calls grow lazily and prune in cascades.

- `Naming` has the encodings of both back ends, the search for the back end that owns a
  name, and the rules that a configuration must meet.
- `Exports` is an abstract machine. Its state is the volume tables, the set of exported
  volumes, and for every initiator a map from host LUNs to volumes; `Next` says what each
  call may do to it and what it may answer.
- `ExportLaws` proves what every call of that machine keeps, does and undoes.
- `ExportRuns` carries this over to runs, and has runs in which promises of the interface
  fail.
- `ExportAnswers` says for every call when it may give which answer, and what it leaves in
  each part of the state.
- `Lio` is the tree as the code sees it, made of names and numbers. Its functions are the
  assumed behaviour of the library underneath (rtslib); its lemmas say what each of them
  does to the abstract state that a tree stands for.
- `Block` has the calls as methods of a class that changes the tree step by step. Each
  is proved to be one step of the abstract machine.

**NFS exports.** The option language, the lines of an exports file, and the file that
makes exports survive a restart.

- `NfsOptions` has the option masks with their conflicting pairs, the parser, the printer
  and the merge of global and specific options.
- `NfsExports` has the scan of a line's tokens.
- `NfsEscapes` has the decoder for octal escapes.
- `NfsFiles` has the tokeniser, the reading of a file, and the printed form of an export.
- `NfsRoundTrip` proves that what is printed is read back.
- `NfsPaths` proves for which paths, and for no others.
- `NfsStore` has the calls that add and remove exports, with the kernel's table and the
  written file.

**Request handling.** Any number of handler threads, one mutex around the dispatched
work, and the tarpit for clients with a wrong password.

- `Service` is a state machine over all interleavings, and composes with `ExportLaws`.
- `Handlers` has the same steps as methods of objects with shared fields, and runs them
  in any order.

`Strings` has the string operations they share, `Wrappers` the option and result types.

## Main results

- No run of calls, whatever they are and whether they succeed, leaves a LUN on a volume
  that no longer exists; so `export_list` never looks up a missing volume, and it lists
  exactly the relation of initiators, host LUNs, pools and volumes, each entry once.
- Over every run in which the members of each access group share one mapping, every
  successful call changes that relation as the interface says, and every failed one leaves
  it alone, although it may leave nodes in the tree. Destroying an export takes exactly one
  mapping and exactly the nodes that nothing else needs.
- The interface document says that the members of an access group share one mapping
  (`API.md:134`). The code keeps this exactly as long as no successful per-initiator call
  is for a member that has fellow members, except a creation that adds nothing and a
  removal of its last mapping. Three ordinary calls lead a fresh service to a group that
  does not share, and from there a refused group mapping is left half done.
- For every call and every state, exactly the listed answers are possible, each under its own
  condition on names, volumes and mappings; and each part of the state is what the call
  says it is afterwards, whether it succeeded or left something behind.
- Volume names survive the encodings exactly when a pool is the last configured one of its
  volume group and no ZFS pool has the group's name. The code checks neither, and the
  lemmas give the accepted configurations where each fails. With two thin pools of one
  group, mapping a volume under both pool names makes the group see it twice.
- Any interleaving of handlers is equivalent to the dispatched methods run one at a time
  in the order in which they got the mutex; the export invariant holds whenever nobody has
  it. A handler leaving the tarpit misses its key exactly if an overlapping handler of the
  same client took it away, and this happens. Whatever the others do, a client in the
  tarpit is sent away before its password is looked at.
- Printing an option set and parsing it gives it back exactly if its dictionary has no comma
  or equals sign. Merging options is associative with the empty mask as identity.
- Writing an export, with a host and values that have no interpreted characters, and
  reading the file gives it back exactly if its path is not empty and has, without a space,
  only characters that neither the tokeniser nor the decoder interprets, and with one, no
  double quote, line end or octal escape, and no backslash at its end or before a backslash
  or double quote.
- After every successful NFS call the written file holds exactly the kernel's exports that
  the administrator's file does not have. If the administrator's file cannot be parsed,
  the call changes the kernel's table, answers that the arguments are invalid, and the
  written file is gone.
- A line of an exports file is read exactly if every token can be, and each export has the
  options that apply to it and the global ones that those do not override.
- A host without options takes over those of the host before it on the same line, for all
  hosts and options; a path with a tab but no space is written without quotes and read back
  as a path and a host.
- Replacing octal escapes one code at a time equals decoding from left to right exactly if
  no replacement makes an escape that a later one meets. This holds if no escape stands for
  a backslash or an octal digit; for either exclusion there is a family of texts where the
  two differ.

## Model

| member | source | states |
|---|---|---|
| Naming.SplitZfsPath | targetd/backends/zfs.py:69-73 | The search loop gives the first pool whose name and a slash start the data set, and the rest of the name; otherwise one of the exceptions that the caller catches |
| Naming.InitializeLvm | targetd/backends/lvm.py:120-168 | Accepts a pool list if and only if every pool exists, has at most one slash, and is not a group of the list, a slash and a thin pool; otherwise the first pool that does not fit raises the error of the rule it breaks first; the dictionary maps each group to its last pool |
| Naming.Initialize | targetd/block.py:84-103 | The whole configuration is accepted if and only if no name is in both lists, the ZFS pools exist, have no colon and are not inside each other, and every LVM pool fits |
| Naming.PoolFitsExact | targetd/backends/lvm.py:129-166 | The rules for one pool, on its characters and the names in the list |
| Naming.MixedGroupRefused | targetd/backends/lvm.py:158-166 | A group and a thin pool of it are never accepted together |
| Naming.LastPoolExact | targetd/backends/lvm.py:120-126 | A group is listed under the last configured pool of it |
| Naming.GroupIsHead | targetd/backends/lvm.py:120-126 | The group of a pool is what stands before its first slash |
| Naming.NamesLookLike | targetd/backends/lvm.py:98-112 | What storage object names and device paths look like |
| Naming.ZfsOwnerUnique | targetd/backends/zfs.py:194-199 | If no pool is the parent of another, at most one pool owns a data set, and the search finds it |
| Naming.ZfsSplitOrderFree | targetd/backends/zfs.py:69-73 | Splitting a device path does not depend on the order of the pools |
| Naming.PoolResolves | targetd/block.py:56-60 | A pool that resolves, under any alias, resolves to a device of the answering back end, and both name schemes agree on its storage objects |
| Naming.ListedPoolResolves | targetd/backends/lvm.py:90-95 | The pool name that listings give a device leads back to that device and back end |
| Naming.SoNameRoundTrip | targetd/block.py:72-78 | The module search finds the back end of a storage object name's volume, and decoding gives the volume, for both back ends together |
| Naming.SoNamesInjective | targetd/backends/zfs.py:90-107 | Over both back ends, two volumes get one storage object name if and only if device and name are the same |
| Naming.PathRoundTrip | targetd/block.py:63-69 | Exactly the owning back end recognises a device path, and its splitting inverts the encoding |
| Naming.ConfiguredRoundTrip | targetd/backends/lvm.py:98-126 | For a configured LVM pool the name round trip closes if and only if it is the last pool of its group and no ZFS pool has the group's name |
| Naming.ConfiguredRoundTripZfs | targetd/backends/zfs.py:90-107 | For a configured ZFS pool it always closes |
| Naming.SharedNameCollides | targetd/block.py:95-99 | For every group and thin pool, a ZFS pool with the group's name gives an accepted configuration in which two volumes of two back ends get one storage object name |
| Naming.SharedGroupCollapses | targetd/backends/lvm.py:124-126 | For every two thin pools of one group, the accepted configuration in which the first one's volumes are listed under the second |
| ExportLaws.NextKeepsInv | targetd/block.py:151-172 | Every call, in any state, keeps: each LUN has a storage object and a volume that exists, each mapping a live LUN, and without a target there is nothing |
| ExportRuns.RunKeepsInv | targetd/block.py:520-550 | The same over every run: since a LUN is only made for a volume that exists, no LUN ever serves a missing one |
| ExportLaws.DroppedIsCascade | targetd/block.py:275-303 | Deleting one mapping removes it alone, with exactly the LUN, storage object, NodeACL and target that nothing else needs |
| ExportLaws.CascadeExact | targetd/block.py:266-305 | A successful export_destroy is such a cascade for one mapping of that initiator to that volume |
| ExportLaws.MappedAllOrNone | targetd/block.py:598 | In a uniform group a host LUN is mapped on all members, or refused with nothing changed, and it is mapped if and only if no member uses it |
| ExportLaws.RefusalHarmless | targetd/block.py:598 | A refusal leaves nothing half mapped, whatever the order of members, if and only if every member already uses the host LUN |
| ExportLaws.MapCreateExact | targetd/block.py:553-599 | In a uniform group access_group_map_create changes nothing if the mapping is there, and otherwise adds one host LUN on all members; a failure changes no mapping |
| ExportLaws.MapDestroyExact | targetd/block.py:602-617 | In a uniform group exactly the members' mappings of the volume go, and the LUN and storage object stay if and only if somebody still maps the volume |
| ExportLaws.NextKeepsUniform | targetd/block.py:243-617 | From groups whose members share one mapping each, a call leads to such groups if and only if it fails, or it is no per-initiator export call, or the initiator is in no group or alone in one, or creating adds nothing, or destroying takes the last mapping |
| ExportLaws.NextKeepsSingle | targetd/block.py:243-617 | No call makes a member of a group see a volume twice, except, and always, an export_create that gives a member another mapping of a volume it sees, and an access_group_map_create of a volume that the group sees under a pool name that listings do not use |
| ExportLaws.ExportCreateSharing | targetd/block.py:243-263 | Creating an export keeps all groups on one mapping if and only if it fails, adds nothing, or is for an initiator without fellow members |
| ExportLaws.CascadeSharing | targetd/block.py:275-303 | Taking a mapping from one initiator keeps them so if and only if it was its last, or it has no fellow members |
| ExportRuns.RunKeepsGroups | API.md:133-135 | Over every run, the members of every access group share one mapping up to a step if and only if each step before it fails or meets that condition |
| ExportRuns.RunKeepsSingle | targetd/block.py:243-617 | Over every run in which they do, no member sees a volume twice up to a step if and only if each step before it fails or keeps that |
| ExportRuns.SharingBreaks | targetd/block.py:243-263 | For all names, a fresh service comes to a group whose members do not share one mapping by access_group_create, access_group_init_add and export_create, all successful |
| ExportRuns.RefusalHalfMaps | targetd/block.py:598 | In the state so reached a refused group mapping can map the volume on one member more and leave it there |
| ExportRuns.SeenTwice | targetd/block.py:562-599 | A fresh service maps a volume under two names of its pool, and the group sees it twice |
| ExportRuns.AliasExists | targetd/backends/lvm.py:120-126 | Any two thin pools of one group make an accepted configuration in which a pool resolves but is not the one that listings name |
| ExportRuns.AliasOfThinPools | targetd/backends/lvm.py:120-126 | One such configuration |
| ExportRuns.RunMeans | targetd/block.py:138-617 | Over every run that keeps sharing, every call does to the relation what its answer says: nothing if it fails, and otherwise what the interface promises |
| ExportRuns.NextEnabled | targetd/block.py:105-124 | Every call has an answer in every state |
| ExportLaws.MappingSucceeds | targetd/block.py:243-617 | What each successful export and group mapping call does to the relation, for all initiators |
| ExportLaws.GroupSucceeds | targetd/block.py:410-482 | What each successful group call does to the members and the relation, with an initiator added to an empty group seeing nothing and one added again changing nothing; all other successful calls leave the relation alone |
| ExportLaws.FailureKeepsRelation | targetd/block.py:243-617 | Every failed call leaves every initiator's mappings as they were, whatever nodes it left behind |
| ExportLaws.RepeatedMapCreate | targetd/block.py:562-573 | Asking again for a mapping under another free host LUN changes nothing if and only if the pool is named as listings name it |
| ExportLaws.CreateThenDestroy | targetd/block.py:243-305 | For a new initiator and an unexported volume, creating and destroying an export restores the whole state if and only if there was no target or there was another initiator |
| ExportLaws.CreateThenDestroyVolume | targetd/block.py:138-172 | Creating and destroying a volume restores the state; it is not found if and only if a thin pool without room gave a linear volume |
| ExportLaws.SomeIdFree | targetd/block.py:587-596 | Fewer used ids than candidates leave one free |
| ExportLaws.FreeHostLunFound | targetd/block.py:584-596 | With at most MAX_LUN ids used for the volume an automatic host LUN is found |
| ExportAnswers.AnswersExact | targetd/block.py:105-617 | For every call and every state, exactly the answers listed failure by failure are possible: success and each failure under its own condition on names, volumes, NodeACLs and mappings |
| ExportAnswers.ExportCreateSucceeds | targetd/block.py:243-263 | export_create succeeds if and only if the pool resolves, the volume exists, it has a storage object or no slash in its name, and the host LUN is free for the initiator or serves that volume |
| ExportAnswers.GroupNamed | targetd/backends/lvm.py:120-126 | The groups are what the configured pools have before their first slash |
| ExportAnswers.ResolveExact | targetd/block.py:56-60 | A pool resolves to a device if and only if it is that ZFS pool, that group, or the group, a slash and a name without one |
| ExportAnswers.ResolveFails | targetd/block.py:56-60 | Otherwise it is invalid if no group has its name, and unpacking fails if there are two slashes |
| ExportAnswers.ListedExact | targetd/block.py:127-135 | A pool lists the volumes of its kind: ZFS volumes, linear ones, or those of its own thin pool |
| ExportAnswers.NameCheckExact | targetd/utils.py:35-41 | A group name is made of letters, digits, hyphens and underscores, with or without a final line feed |
| ExportAnswers.DatasetCheckExact | targetd/backends/zfs.py:29-136 | A ZFS volume name starts with a letter or digit, goes on with those and underscores, dots and hyphens, and may end in a line feed |
| ExportAnswers.TablesAfter | targetd/block.py:138-192 | Every call leaves the volume tables alone, or adds or takes the one volume it is about, of a kind that fits the pool |
| ExportAnswers.TargetAfter | targetd/block.py:243-482 | Which calls make the target even if they fail, and that only removing the last export takes it away |
| ExportAnswers.InitiatorsAfter | targetd/block.py:243-482 | Which initiators have a NodeACL after any call, and that an initiator keeps its group as long as it is known |
| ExportAnswers.UnitsAfter | targetd/block.py:243-617 | Which volumes have a LUN and a storage object after any call: made before a later failure, and collected when the last mapping goes |
| ExportAnswers.UnmapHarmless | targetd/block.py:602-617 | In any group, removing a volume's mappings takes those and no others, whichever member they are read off, if and only if all members agree on the volume at the host LUNs they have |
| Lio.AbsHas | targetd/block.py:529-550 | Looking for a storage object or a LUN by name is looking for the volume |
| Lio.AbsDropLun | targetd/block.py:286-289 | Deleting a LUN that nobody maps, and its storage object, removes the volume from both sets and no mapping |
| Lio.AbsTidy | targetd/block.py:297-303 | Pruning an empty NodeACL, TPG and Target is the abstract pruning |
| Lio.AbsDropHosts | targetd/block.py:606-608 | Deleting the host LUNs of a volume, read off one member, on all members is the abstract removal |
| Block.FindLun | targetd/block.py:543-550 | The search finds a LUN of that storage object, or there is none |
| Block.FindMapped | targetd/block.py:256-261 | The search finds the mapping if and only if it is there |
| Block.ExportOf | targetd/block.py:275-295 | Comparing device paths finds a host LUN that serves the volume, or none does |
| Block.ChooseHostLun | targetd/block.py:584-596 | The requested id, or one in 0..MAX_LUN that no mapping of the LUN uses; none if and only if all are used |
| Block.NamedVolume | targetd/block.py:499-503 | Reading a LUN's pool and volume from its storage object's name cannot fail and gives the volume it serves |
| Block.PathVolume | targetd/block.py:224-229 | Reading them from the device path and looking the volume up cannot fail either |
| Block.GroupEntries | targetd/block.py:499-515 | One entry for each host LUN of the group, with its pool and volume |
| Block.CanonInjective | targetd/block.py:499-503 | The pool names in listings tell the devices apart |
| Block.ListedOnce | targetd/block.py:485-517 | If no member sees a volume twice, no group, pool and volume are listed twice |
| Block.ExportListLeadsBack | targetd/block.py:214-240 | The pool and volume of a listed export lead back to what it serves, and destroying it cannot be refused |
| Block.MapListLeadsBack | targetd/block.py:485-517 | The same for a group's listed mapping |
| Block.InitiatorEntries | targetd/block.py:223-239 | One entry for each host LUN of an initiator |
| Block.FindEntry | targetd/block.py:564-573 | True if and only if the list has an entry with that group, pool and volume |
| Block.FoundEntry | targetd/block.py:564-573 | Finding it by names is finding the volume, under the listed pool name only |
| Block.UnmapVolume | targetd/block.py:606-608 | The loop deletes exactly the host LUNs of the volume, on every member |
| Block.Exporter.TpgLunOf | targetd/block.py:520-550 | Fails without a trace if pool or volume is missing; otherwise gives a LUN that serves the volume, made if missing |
| Block.Exporter.ExportCreate | targetd/block.py:243-263 | Refines the abstract call: one mapping more, none if it was there, and a refusal if the host LUN serves another volume |
| Block.Exporter.ExportDestroy | targetd/block.py:266-305 | Refines the abstract call: the search by device path takes a mapping of exactly that volume, with the whole cascade, or reports that there is none |
| Block.Exporter.GroupCreate | targetd/block.py:410-433 | Refines the abstract call: a new group with one new initiator, refused if either name is in use |
| Block.Exporter.GroupDestroy | targetd/block.py:436-438 | Exactly the members go, with their mappings |
| Block.Exporter.GroupAdd | targetd/block.py:441-467 | Refines the abstract call: a new initiator takes over the mappings of a member, and a used one is refused |
| Block.Exporter.GroupDel | targetd/block.py:470-482 | Refines the abstract call: a member goes with its mappings, and anybody else is left alone |
| Block.Exporter.MapEach | targetd/block.py:598 | Maps one member after the other up to the first that refuses, and no further |
| Block.Exporter.MappedLunGroup | targetd/block.py:598 | All members get the host LUN if it is free on all; otherwise a refusal, with at most some of them mapped |
| Block.Exporter.GroupMapList | targetd/block.py:485-517 | Exactly the mappings of each group as one of its members has them, no host LUN twice, no volume twice if no member sees one twice, and no look-up fails |
| Block.Exporter.AlreadyMapped | targetd/block.py:562-573 | True if and only if the group has a member that sees the volume and the pool is named as listings name it |
| Block.Exporter.MapCreate | targetd/block.py:553-599 | Refines the abstract call: the LUN is made before the group is looked for, and searching the listing by names decides whether the mapping is there |
| Block.Exporter.MapDestroy | targetd/block.py:602-617 | Refines the abstract call: the volume's host LUNs go from every member, and the LUN and storage object if nobody maps it |
| Block.Exporter.ExportList | targetd/block.py:214-240 | Exactly the relation, each entry once, and no look-up fails |
| Block.Exporter.VolCreate | targetd/block.py:138-144 | Succeeds if and only if the back end's command does and the pool resolves, the name is free and legal; one volume more, linear for a group or a thin pool without room |
| Block.Exporter.VolDestroy | targetd/block.py:151-172 | Succeeds if and only if the command does and the volume is listed, has no LUN and a legal name; then exactly that volume goes |
| Block.Exporter.VolCopy | targetd/block.py:175-192 | Succeeds if and only if the original is listed, the size is larger, the copy's name is free and legal, copying is enabled or growing works, and the command succeeds; a copy that cannot be grown stays |
| Block.Exporter.Call | targetd/block.py:105-124 | Whatever is called, the tree makes one step of the abstract machine and the invariant holds again |
| NfsOptions.NamesResolve | targetd/nfs.py:55-73 | Each option's name is looked up as that option |
| NfsOptions.OnlyNamesResolve | targetd/nfs.py:55-73 | Nothing else is |
| NfsOptions.ConflictsAreRivals | targetd/nfs.py:43-53 | A mask has no conflict if and only if no option stands beside its rival |
| NfsOptions.MergeMeans | targetd/nfs.py:138-167 | Option by option: a specific choice wins, and a global one stays if and only if its rival is not chosen |
| NfsOptions.MergeConflictFree | targetd/nfs.py:155-167 | The merge has no conflict, has every specific option, and invents none |
| NfsOptions.MergeIdentity | targetd/nfs.py:155-167 | The empty mask is an identity on both sides |
| NfsOptions.MergeAssociative | targetd/nfs.py:155-167 | Merging is associative |
| NfsOptions.UpdateMeans | targetd/nfs.py:169-170 | Updating a dictionary is the union in which the later one wins |
| NfsOptions.UpdateAssociative | targetd/nfs.py:169-170 | Updating is associative |
| NfsOptions.FoldPieces | targetd/fs.py:235-240 | The accumulating loop is the left fold of the pieces, or an exception |
| NfsOptions.ParseOpt | targetd/nfs.py:121-135 | The parser is that fold over the comma-separated pieces, and nothing for an empty text |
| NfsOptions.ParseBoth | targetd/nfs.py:147-170 | The step-by-step override computes the combination, or an exception for unreadable or conflicting texts |
| NfsOptions.CombineMeans | targetd/nfs.py:147-170 | Two readable texts combine if and only if neither conflicts in itself, into the conflict-free mask of specific choices and surviving global ones and the union of the dictionaries |
| NfsOptions.CombineDistinct | targetd/nfs.py:121-170 | What is parsed and combined has each key once |
| NfsOptions.OptionsList | targetd/nfs.py:235-244 | The two loops give the names of the mask's options in dictionary order and then the pairs in order |
| NfsOptions.FoldPlain | targetd/nfs.py:121-135 | Parsing gives each key once, and no comma or equals sign in keys or values |
| NfsOptions.OptionsRoundTrip | targetd/nfs.py:246-247 | Parsing the printed options gives the mask and the pairs back if and only if keys are distinct and no key or value has a comma or an equals sign, for every mask, the empty case included |
| NfsExports.ReadHost | targetd/nfs.py:192-200 | The host and the options of a token, or an exception |
| NfsExports.ParseExport | targetd/nfs.py:173-212 | The scan gives the meaning of the token list: one export per host in order, or nothing for the whole line if any token is bad |
| NfsExports.HostsComplete | targetd/nfs.py:184-190 | Every token that is a host is counted |
| NfsExports.GlobalEnd | targetd/nfs.py:187-189 | The first dash token that says anything is the global options, and no later one is |
| NfsExports.OwnOptions | targetd/nfs.py:192-200 | A host gets its own options if and only if it states some or the last group before it states none |
| NfsExports.LineMeaning | targetd/nfs.py:173-212 | Each export of a line has its token's host, the line's path, every option that applies to it, every global option so far whose rival is not among those, and the union of both dictionaries, its own winning; what applies is what the host states, or what the last group before it states |
| NfsExports.LineRead | targetd/nfs.py:173-212 | A line is read if and only if no token is empty and every host can be read: its token splits, global and applying options parse, and neither has rivals together or an unknown key |
| NfsExports.ConstructExact | targetd/nfs.py:138-170 | An export comes about under exactly those conditions, with the specific options over the global ones |
| NfsExports.HostExact | targetd/nfs.py:184-190 | Which tokens are hosts: all but those that start with a dash while none before them said what the global options are |
| NfsExports.GlobalExact | targetd/nfs.py:187-189 | The global options are those of the first dash token that says something |
| NfsExports.GroupExact | targetd/nfs.py:192-198 | Which host and options text a group token has: everybody for one that starts with a parenthesis, and nothing for more than one |
| NfsExports.LonePath | targetd/nfs.py:207-208 | A path alone is exported to everybody without options |
| NfsExports.OptionsLeak | targetd/nfs.py:192-206 | A host without options takes over those of the host before it, for all hosts and options |
| NfsExports.BareFirst | targetd/nfs.py:192-206 | A host without options in front of the others takes over nothing |
| NfsExports.OneHost | targetd/nfs.py:192-206 | A path and one host with options give exactly that export |
| NfsExports.ParsedProper | targetd/nfs.py:110-118 | Every export of a line has no conflict, known keys, each key once, and the line's path |
| NfsEscapes.ChrEncode | targetd/nfs.py:270-278 | The loop replaces the codes found in the original text, one after the other |
| NfsEscapes.InertMakesNone | targetd/nfs.py:275-276 | Decoding codes that stand for no backslash and no octal digit makes no new escape |
| NfsEscapes.ReplaceOne | targetd/nfs.py:275-276 | Replacing one more code everywhere decodes exactly that code more, unless it meets a new escape |
| NfsEscapes.SteadySteps | targetd/nfs.py:275-276 | As long as no new escape is met, the loop has decoded exactly the set of its codes so far; repeated codes are harmless |
| NfsEscapes.EscapesKept | targetd/nfs.py:275-276 | Decoding some codes keeps every escape with another code, and there are more of them if it makes a new one |
| NfsEscapes.LoopShortens | targetd/nfs.py:275-276 | The loop takes out at least as many escapes as the text has |
| NfsEscapes.NewEscapeShortens | targetd/nfs.py:275-276 | Meeting a new escape makes the result shorter than the decoded text, whatever comes later |
| NfsEscapes.EncodedIsShorter | targetd/nfs.py:270-278 | Decoding makes a text strictly shorter, unless there is no escape in it |
| NfsEscapes.LoopIsDecoder | targetd/nfs.py:270-278 | The loop equals one reading from left to right if and only if no code, when its turn comes, meets an escape that decoding the earlier codes has made, for every text |
| NfsEscapes.InertIsSteady | targetd/nfs.py:270-278 | In particular it does for every text without an escape for a backslash or an octal digit |
| NfsEscapes.PlainIsFixed | targetd/nfs.py:270-278 | A text without backslashes is left alone |
| NfsEscapes.LoopMeetsNewBackslash | targetd/nfs.py:270-278 | For every other code, an escape for a backslash makes the loop decode twice |
| NfsEscapes.LoopMeetsNewDigit | targetd/nfs.py:270-278 | For every code, an escape for its first digit makes the loop decode twice |
| NfsEscapes.EscapeRoundTrip | targetd/nfs.py:270-278 | One reading undoes writing every character as an escape, for every text of characters that escapes stand for |
| NfsEscapes.LoopUndoesEscapes | targetd/nfs.py:270-278 | So does the loop for texts without backslashes and octal digits |
| NfsFiles.ParseExportsFile | targetd/nfs.py:215-224 | The loop gives the exports of all lines in order, nothing for a line that does not parse, and an exception for one that cannot be tokenised |
| NfsFiles.LinesRead | targetd/nfs.py:215-224 | A file is read if and only if each line can be cut into tokens; lines whose tokens make no exports are left out and the others are not affected |
| NfsFiles.LineEnds | targetd/nfs.py:218-219 | Each of the three line ends of a text file ends a line once |
| NfsRoundTrip.LineTokens | targetd/nfs.py:250-267 | A printed line has exactly two tokens, the path and the host with its options |
| NfsRoundTrip.LexBackslashed | targetd/nfs.py:220 | Any string in double quotes, with backslashes before double quotes and backslashes, is one token |
| NfsRoundTrip.LexSingle | targetd/nfs.py:220 | Any string without a single quote stands for itself in single quotes |
| NfsRoundTrip.LexComment | targetd/nfs.py:220 | A comment ends with its line |
| NfsRoundTrip.LineRoundTrip | targetd/nfs.py:262-267 | Reading the printed line of an export whose path reads back, and whose host and values avoid the characters that are interpreted, gives exactly that export |
| NfsPaths.PathsThatSurvive | targetd/nfs.py:215-267 | Writing an export and reading the file gives exactly the export back if and only if its path reads back: without a space it has only characters that are not interpreted; with one it has no double quote, no line end, no octal escape, and after each backslash a character that is no backslash and no double quote |
| NfsPaths.HeadBound | targetd/nfs.py:220 | A token is no longer than the text it comes from, and shorter if it ends in the text |
| NfsPaths.HeadStrict | targetd/nfs.py:220 | Outside quotes, any interpreted character makes the token shorter |
| NfsPaths.StayingDouble | targetd/nfs.py:220 | Inside double quotes, a double quote, or a backslash before one or before a backslash, makes the token shorter |
| NfsPaths.UnquotedSurvivor | targetd/nfs.py:250-267 | A path without a space that comes back from the file has only characters that are not interpreted |
| NfsPaths.QuotedSurvivor | targetd/nfs.py:250-267 | A path with a space that comes back from the file meets the condition for such paths |
| NfsRoundTrip.TabSplitsPath | targetd/nfs.py:250-253 | A path with a tab and no space is read back as a shorter path and an additional host, for all such paths |
| NfsRoundTrip.FileRoundTrip | targetd/nfs.py:311-314 | Reading a written file gives exactly the exports written, in order |
| NfsStore.Nfs.SaveExports | targetd/nfs.py:299-314 | The file is the kernel's exports that the administrator's file does not have; it is gone if that file is missing or unreadable |
| NfsStore.Nfs.ExportAdd | targetd/nfs.py:326-350 | Table, file and answer are those of the specified step, for every exit code |
| NfsStore.Nfs.ExportRemove | targetd/fs.py:266-278 | Table, file and answer of the loop are those of the specified step |
| NfsStore.AddedExact | targetd/nfs.py:332-341 | After adding, the table has the new export and exactly those others whose path or host differs from its own |
| NfsStore.RemovalExact | targetd/fs.py:266-278 | A successful removal takes every export of that path to that host, at least one, and no other |
| NfsStore.KeptIsKernel | targetd/nfs.py:311-314 | Kept are exactly the kernel's exports whose path the administrator's file does not export to the same host |
| NfsStore.KeptInOrder | targetd/nfs.py:311-314 | They are kept in the kernel's order, each place once |
| NfsStore.AddAnswers | targetd/nfs.py:326-350 | When an add gives which answer, and that it changes nothing, or only what is exported of that path to that host |
| NfsStore.RemoveAnswers | targetd/fs.py:266-279 | The same for a removal |
| NfsStore.StepPersists | targetd/nfs.py:326-357 | A call leaves everything alone, or afterwards the file read back is right if and only if the administrator's file can be read; after a success it is right |
| NfsStore.RunPersists | targetd/nfs.py:299-357 | Over every run, the file read back is exactly the kernel's table without the administrator's exports |
| NfsStore.UnreadableMain | targetd/fs.py:259-262 | With an unreadable administrator's file an add is answered as invalid although the export is there, and the written file is gone |
| NfsStore.QuoteIsUnreadable | targetd/nfs.py:215-224 | A file with nothing but a double quote is unreadable |
| Service.InterleavingIsSerial | targetd/main.py:152-175 | After any interleaving the shared state and all answers are those of the calls one at a time, up to the unfinished rest of the one that has the mutex |
| Service.ReachableIsSerial | targetd/main.py:152-175 | The same for every reachable state, with one mutex holder at a time and only after all checks |
| Service.ConcurrentExports | targetd/main.py:152-175 | Whenever nobody has the mutex, the shared state is the end of a run of the export machine and satisfies its invariant, for requests whose methods run alone are calls of that machine |
| Service.SoundExists | targetd/main.py:152-160 | Such requests exist for every call |
| Service.ReachableIsPlayed | targetd/main.py:152-175 | A state is reachable if and only if some list of turns leads to it |
| Service.HolderReleases | targetd/main.py:153-175 | On every path, raising or not, the holder gives the mutex back in one step more than its method has left |
| Service.AdmissionExact | targetd/main.py:84-101 | Whatever handlers do, a new one goes on to the password if and only if it has credentials and its client is not in the tarpit; with credentials and in the tarpit it is sent away |
| Service.CheckExact | targetd/main.py:103-150 | A wrong password leads to the tarpit and to nothing else; a right one to the mutex if and only if the request is acceptable |
| Service.GrantExact | targetd/main.py:153 | A handler gets the mutex only when nobody has it, and starts its method then |
| Service.ReachableDeserved | targetd/main.py:80-178 | In every reachable state each handler is where its request may get, and was answered accordingly |
| Service.TurnsCount | targetd/main.py:80-178 | Every turn brings its own handler nearer to its end, unless it waits for the mutex, and changes no other |
| Service.ReachableTarpit | targetd/utils.py:94-129 | The table holds exactly the clients whose last event is an entry, and events match the handlers' progress |
| Service.PittedClients | targetd/utils.py:94-129 | A client is in the table only while one of its handlers is between entering and leaving |
| Service.KeyMissingIffRobbed | targetd/utils.py:106-111 | A handler misses its key on the way out if and only if an overlapping handler of the same client took it away |
| Service.KeyMissingHappens | targetd/main.py:94-108 | Two handlers of one client can both pass the check, and then one misses its key |
| Handlers.Tar.IsStuck | targetd/utils.py:119-126 | Looks the client up and gives the lock back |
| Handlers.Tar.Enter | targetd/utils.py:99-104 | Adds exactly that client and gives the lock back |
| Handlers.Tar.Exit | targetd/utils.py:106-111 | Removes exactly that client, reports a missing one, and gives the lock back in both cases |
| Handlers.Server.Admit | targetd/main.py:84-101 | One step: without credentials a bad request, in the tarpit refused unseen, otherwise on to the password; nothing shared changes |
| Handlers.Server.Authenticate | targetd/main.py:103-113 | One step: only a handler with the right password and an acceptable request may wait for the mutex |
| Handlers.Server.EnterPit | targetd/main.py:105 | One step: the client is in the table, whoever else put it there before |
| Handlers.Server.LeavePit | targetd/main.py:105-108 | One step: the client is out of the table, even if another handler of it is still pitted |
| Handlers.Server.AcquireMutex | targetd/main.py:153 | One step: the handler has the mutex and is next in the order of calls |
| Handlers.Server.WorkOn | targetd/main.py:154-158 | One step: the method's next step on the shared state, and nothing else |
| Handlers.Server.ReleaseMutex | targetd/main.py:174-175 | One step: the mutex is free, whether the method returned or raised |
| Handlers.Server.Serve | targetd/main.py:152-175 | The mutex section of one handler does what its method does alone, and the mutex is free again |
| Handlers.Server.TakeTurn | targetd/main.py:80-178 | Whatever a handler has to do next is the step of the state machine; one that waits for the mutex stays where it is |
| Handlers.Server.Schedule | targetd/main.py:80-178 | Any list of arrivals and turns leads the object through that run of the state machine to a reachable state, with the tarpit's lock free between the turns |

## Left out

Assumptions about what lies outside the repository:

- rtslib: constructors look up or create; a NodeACL holds each host LUN once and refuses a
  second; deleting a LUN deletes its mapped LUNs, deleting a TPG its LUNs and NodeACLs but
  no storage objects; a group's mappings are read off one of its members; LUN numbers do
  not run out; a storage object's name must not contain a slash; listings come in any
  order. Its checks of initiator names, group tags and host LUN ranges are not modelled.
- LVM and ZFS names: volume group names have no `%` or `:`, ZFS pools no `%`, volumes no
  `:`. The code relies on this; `ConfiguredRoundTrip` needs it too.
- Volume groups are named differently from ZFS pools throughout `Block`. The code compares
  whole pool names only; `SharedNameCollides` shows what happens otherwise.
- `exportfs` is an exact replacement or removal in a table, and its listing is read back
  exactly; the regular expression for its output (`targetd/nfs.py:227-232`) is not part of
  this model. Its exit code and the options it lists for a new export are arbitrary.
- Python's text files: every line end is read as `\n`, and what is written is stored as it
  is.

Not modelled:

- Volume sizes, unique ids and resizing: easy members. Whether a command succeeds, and
  whether a copy's size is large enough, is the environment's choice.
- CHAP credentials, portals, TPG attributes and saving the configuration.
- ZFS snapshots behind a copy, and their clean-up after a failed one.
- ZFS and btrfs file systems, mounts, pool listings and free space.
- `chown`, a separate export path and a single option outside a list in NFS calls.
- HTTP, TLS, JSON and the mapping from exceptions to error codes. A handler's answer
  stands for whatever its method returned or raised.
- Host LUNs chosen automatically are free on the volume's LUN only, not on the group; the
  code looks no further, and a clash is refused. `MAX_LUN` is the fallback 256, one more
  than the interface document allows.

Stated in a particular form:

- NfsOptions.MergeMeans: a mask is the set of its bits rather than an integer; bits without a name are not modelled.
- NfsRoundTrip.LineRoundTrip: hosts and dictionary values avoid the characters that the tokeniser and the parser interpret, which is sufficient; the condition on the path is exact.
- NfsStore.RunPersists: the administrator's file does not change during the run, and what `exportfs` lists for added exports meets the conditions of `NfsRoundTrip.LineRoundTrip`.
- Service.ConcurrentExports: the dispatched methods are assumed to be calls of the export machine when run alone, which is what `Block.Exporter.Call` states of them. The methods of `Block` are not cut into the steps between which threads switch.
