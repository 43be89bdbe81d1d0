# Verified models of the modelling kernel

This project models six parts of the system and proves what they are relied on for.

* **The history engine** (`History*.dfy`). An event-sourced history of CAD features: a dependency graph, the closure of
  what an edit makes dirty, re-evaluation in dependency order with failure blocking, geometry fingerprints made of the
  fingerprints of the dependencies, named revisions, and undo and redo as events whose cursor is recomputed from the log
  each time. Operations are functions from a state (and, for undo and redo, a log) to an event or an error;
  `HistoryEngine` holds the mutable object and the loops of the program, proved equal to those functions; a session is
  any list of commands from the empty history (`HistoryOperations.Run`). `HistoryRecords` says field by field what each
  built event holds and which error is answered otherwise, `HistoryValidation` which events are accepted, whoever wrote
  them.
* **The STL mesh verifier** (`Mesh*.dfy`, `Cycles.dfy`, `Sums.dfy`). Vertex numbering, the edge-use table, the edge check,
  the vertex links, the shells found breadth first, and the verdict, with what an accepted mesh then is: a closed oriented
  surface whose volume no translation changes and whose vertices are each surrounded by one cycle of facets.
  `MeshSolids` says in coordinates what a volume and a degenerate facet are.
* **The MCP session loop** (`Session*.dfy`). A reader thread, the main loop and at most one worker, joined by two bounded
  queues, a set of queued request ids and the Host lock. A state and one move of one thread (`SessionModel.Perform`);
  the theorems hold after every list of moves, that is in every interleaving; from every state not shut down the session
  can still finish. `SessionCancellation` tells, over every interleaving, exactly which calls are cancelled;
  `SessionReports`, `SessionReplies` and `SessionQueues` which progress is written, why a request is answered, and that
  nothing is dropped before a shutdown.
* **Tolerance matching** (`Matching.dfy`). Sorted comparison of intersections against the existence of a pairing.
* **References and components** (`Sweep.dfy`, `Edge*.dfy`, `Component*.dfy`). The interval sweep over the fragments of a
  split edge, the reattachment of edges, semantic lookups, and the graph of component definitions and instances as an
  object with one mutating method. `EdgeGeometry` and `EdgeFragments` say in coordinates which candidates match and
  which fragments count, `ComponentEffects` what each command needs and changes.
* **Framing** (`Lines.dfy`, `FrameParsing.dfy`, `BoundedReading.dfy`). The incremental frame parser and the bounded line
  reader, and why the sizes in which bytes arrive do not matter.

`Wrappers.dfy`, `Ordering.dfy` and `Text.dfy` hold options and results, iteration in key order, and generated names.
Decimal renderings of ordinals are modelled exactly, because the freshness of generated names depends on them.

## What is uninterpreted

Statements hold for every value of these parameters: the digest of a feature (`Digest`), the decoding of one line into an
envelope (`Decoder`), the square root (`Root`), the two floating-point tests between shells (`Geometry`), what a buffered
source makes available on each look (`Source.sizes`), and, in a session, whether a write succeeds, what a worker reports
and when each thread moves. `EdgeGeometry` and `EdgeFragments` alone ask that `Root` be the square root: not negative, and
its square the argument, on arguments that are not negative.

## Where the code falls short of a property

* *Undo and redo are one step each.* True in every run of initializations, edits, undos and redos
  (`RunMovesAreExact`). In general a move steps over equal snapshots while the replayed cursor moves one position, so the
  log reproduces the state after a move exactly when the neighbouring position differs (`MoveReproducesIff`);
  naming a revision and then undoing leaves every further undo and redo refused (`NameThenUndoLosesCursor`), until some
  other event puts the cursor back on the newest position (`NewWorkReproduces`).
* *Undoing new work brings back what was active before it.* In runs of initializations, edits, undos and redos this is so
  exactly when there was nothing to redo before the work (`NewWorkThenUndo`): after an undo, undoing new work brings back
  the newest snapshot of the timeline, the undone one.
* *Every event that is built is accepted.* True except for a feature edit that breaks something which held no current
  fingerprint (`EditFeatureAcceptedIff`). In every run these can be told from the state and the arguments alone: what the
  target depends on is current, and either the new value is not positive and the target not current, or the value is
  positive and some dependent without a positive value is not held up from outside (`RunRefusesExactly`). Breaking a
  feature twice in a row is such an edit (`BreakingTwiceIsRefused`).
* *Stored fingerprints equal full recomputation.* True in every run whose bracket ids do not collide
  (`RunFingerprintsAreFull`). Two ids collide when one is the other plus `-independent`. In every run, whatever the ids,
  all snapshots are consistent exactly when each accepted initialization and bracket edit kept its snapshot so
  (`RunConsistentIff`): an initialization does exactly when every current feature outside the bracket that rests on one of
  its parts would get its stored fingerprint again from the new parts (`InitializeKeepsIff`), a bracket edit when besides
  everything its parts rest on outside the bracket is current (`EditBracketKeepsIff`). Initializing `x-independent` and
  then `x` is consistent exactly when the digest cannot tell two bends apart (`CollidingBracketsIff`); in the other order
  nothing is lost (`OtherOrderConsistent`).
* *The order of fragments does not matter.* It matters exactly when the sweep is reached, its order-free condition holds,
  and of the fragments that start first one ends more than the tolerance before its start and another does not
  (`CandidateOrderMattersIff`), so never when no length is negative (`CandidateOrderNeverMatters`). The sort is stable and
  the sweep does not check lengths, and a candidate that fails validation leads to the sweep, so the code can be given
  such fragments (`OrderMattersForNegativeLengths`).
* *A cancellation of a queued call is remembered until the call starts.* Only when the main loop takes it between events:
  one that it takes while it completes another call is compared with that call alone and forgotten
  (`CancellationLost`). A call is cancelled exactly when it was struck while active or its cancellation was noted, with
  fewer than 128 waiting, and no call with its id started in between (`CancelledIff`, `PendingLaw`).

## Model

| member | source | states |
|---|---|---|
| HistoryGraph.ClosureIsReachability | crates/domain/src/history.rs:912-935 | the dirty closure of a target holds exactly the target and the features with a dependency chain to it |
| HistoryGraph.ReachableFeatures | crates/domain/src/history.rs:912-935 | the pass-until-unchanged loop ends with the least closed set, in sorted order, or reports an unknown target |
| HistoryGraph.OrderDirty | crates/domain/src/history.rs:937-961 | the loop picks the first ready feature each time and fails with the cycle error exactly when none is ready |
| HistoryGraph.OrderSound | crates/domain/src/history.rs:937-961 | an order lists each dirty feature once, after all its dirty dependencies |
| HistoryGraph.OrderIsFirst | crates/domain/src/history.rs:937-961 | at every position of an order stands the least of the features that could stand there |
| HistoryGraph.OrderComplete | crates/domain/src/history.rs:937-961 | ordering fails exactly when some nonempty subset has only members that depend on a member (or are absent) |
| HistoryGraph.AcyclicOrders | crates/domain/src/history.rs:1034-1035 | on a map that passed validation ordering succeeds for every subset of its features |
| HistoryEvaluation.EvaluateAllOutcome | crates/domain/src/history.rs:388-447 | after the loop each dirty feature is evaluated, blocked or broken by the stated rule, with its whole new value, and nothing else changed |
| HistoryEvaluation.FateKeepsShape | crates/domain/src/history.rs:388-447 | no edit changes an id, a dependency, or an input other than the target's |
| HistoryEdits.EditPartition | crates/domain/src/history.rs:363-453 | an edit splits what depends on the target into disjoint evaluated, blocked and at most one broken feature, blocks what has a non-current dependency, and leaves the rest alone |
| HistoryEvents.SnapshotFault | crates/domain/src/history.rs:987-1037 | no fault is reported exactly for well-keyed, finite, closed, status-consistent and acyclic features |
| HistoryEvents.NamedFault | crates/domain/src/history.rs:1039-1051 | no fault is reported exactly when every named revision has its own nonempty name and a valid snapshot |
| HistoryEvents.ValidateSnapshot | crates/domain/src/history.rs:987-1037 | the validation loop reports the first fault in key order, then a cycle |
| HistoryEvents.ValidateEvent | crates/domain/src/history.rs:1053-1153 | the validator reports exactly the first fault of snapshot, named revisions and operation |
| HistoryValidation.AcceptedIff | crates/domain/src/history.rs:1053-1153 | any state accepts an event exactly when schema, ordinal, snapshots and names are right and the stated fields of its kind of operation agree, for all six kinds; the new state is then the event's |
| HistoryValidation.LoggedFacts | crates/domain/src/history.rs:178-197 | every entry of an accepted log has all these facts, whoever wrote it |
| HistoryValidation.ForgedCreationRefused | crates/domain/src/history.rs:1109-1119 | a creation whose named revision holds another snapshot or another provenance is refused |
| HistoryValidation.SnapshotFaultTells | crates/domain/src/history.rs:987-1037 | the fault of an invalid snapshot names something wrong with one of its features, or a cycle of features that are otherwise right |
| HistoryValidation.RefusalTells | crates/domain/src/history.rs:178-197 | a wrong schema is reported before a wrong ordinal, and both before a fault of the snapshot |
| HistoryEvents.AcceptedLog | crates/domain/src/history.rs:178-197 | the states of any accepted log are valid, its ordinals count up, and it ends in its last event |
| HistoryEvents.PrefixAccepted | crates/domain/src/history.rs:178-197 | every prefix of an accepted log is accepted |
| HistoryEngine.HistoryState.constructor | crates/domain/src/history.rs:152-163 | a new history is the genesis snapshot at ordinal 0 with no named revision |
| HistoryEngine.HistoryState.ApplyEvent | crates/domain/src/history.rs:178-197 | an accepted event becomes the whole new state; a refused one changes nothing |
| HistoryEngine.HistoryState.InitializeLBracket | crates/domain/src/history.rs:199-239 | the program's builder returns the specified event or error |
| HistoryEngine.HistoryState.EditLBracket | crates/domain/src/history.rs:241-332 | the checks, displacement and two refresh loops return the specified event or error |
| HistoryEngine.HistoryState.HistoricalEditOf | crates/domain/src/history.rs:334-465 | closure, order and evaluation loop return the specified event or error |
| HistoryEngine.HistoryState.EvaluateDirty | crates/domain/src/history.rs:388-447 | the evaluation loop is the fold whose outcome is proved above |
| HistoryEngine.HistoryState.FindCursorTarget | crates/domain/src/history.rs:618-677 | collecting positions, replaying trailing moves and searching outwards finds the nearest position with another snapshot |
| HistoryEngine.HistoryState.Move | crates/domain/src/history.rs:552-616 | undo and redo return the specified event or error |
| HistoryEngine.ReplayCursor | crates/domain/src/history.rs:640-655 | walking the log backwards computes the shift of the trailing undos and redos |
| HistoryEngine.LBracketSnapshot | crates/domain/src/history.rs:862-910 | the insertion loop yields the five features of a bracket |
| HistoryRecords.InitializeRecords | crates/domain/src/history.rs:199-239 | an initialization is built exactly for a nonempty id and positive dimensions, and its event adds the five features, each with its dependency, its dimension and the digest of what it rests on, and changes nothing else |
| HistoryRecords.EditBracketAnswers | crates/domain/src/history.rs:241-266 | a bracket edit is built exactly for a nonempty id, positive dimensions, a thickness below length and width, all five features present and a free name; each other case has its error |
| HistoryRecords.EditBracketRecords | crates/domain/src/history.rs:268-332 | its event lists the five features as dirty and evaluated and none as blocked, keeps the replaced snapshot under a new name, and rewrites exactly these five |
| HistoryRecords.EditAnswers | crates/domain/src/history.rs:334-364 | a feature edit is built exactly for a finite value, a present feature and a free name; each other case has its error |
| HistoryRecords.EditRecords | crates/domain/src/history.rs:346-465 | its event lists as dirty exactly what depends on the target, ascending, as evaluated exactly the dirty that are current after it, as blocked exactly those blocked, each after what it depends on; its diagnostic names exactly the broken one; each dirty feature is written whole as its list says; the replaced snapshot is kept under a new name |
| HistoryRecords.CreateRecords | crates/domain/src/history.rs:467-491 | a naming is built exactly for a nonempty new name, and its event keeps the active snapshot under it |
| HistoryRecords.RestoreRecords | crates/domain/src/history.rs:493-521 | a restore is built exactly for a known name and a free recovery name, and its event makes exactly the named snapshot active and keeps the replaced one |
| HistoryRecords.RestoreForAnswers | crates/domain/src/history.rs:523-550 | a restore for a feature is that restore where the named snapshot holds the feature, and otherwise tells an unknown name, a feature missing from the revision and an unknown feature apart |
| HistoryRecords.MoveRecords | crates/domain/src/history.rs:552-616 | an undo or redo names the ordinal of the event whose snapshot it brings back and its revision id, and keeps the replaced snapshot under a new name |
| HistoryRecords.MoveRefusals | crates/domain/src/history.rs:552-677 | a log that ends elsewhere, leaves the timeline or does not reproduce the snapshot is refused in this order, and nothing to undo or redo means every position on that side holds the active snapshot |
| HistoryAcceptance.BracketShape | crates/domain/src/history.rs:862-910 | a new bracket holds exactly its five features, each with its dependency, value and a fingerprint over the others |
| HistoryAcceptance.OverwriteValid | crates/domain/src/history.rs:218-232 | writing a valid map over a valid map leaves a valid, acyclic map |
| HistoryAcceptance.EditValidIff | crates/domain/src/history.rs:363-447 | the edited features pass validation exactly when what breaks held a current fingerprint |
| HistoryAcceptance.EditFeatureAcceptedIff | crates/domain/src/history.rs:334-465 | the event of a feature edit is accepted exactly when each feature it breaks held a current fingerprint before |
| HistoryAcceptance.InitializeAccepted | crates/domain/src/history.rs:199-239 | every initialization event is accepted on a valid state |
| HistoryAcceptance.EditBracketAccepted | crates/domain/src/history.rs:241-332 | every bracket edit event is accepted on a valid state |
| HistoryAcceptance.DirtyOrdered | crates/domain/src/history.rs:363-364 | on a valid state the dirty features of an edit can always be ordered |
| HistoryRuns.CreateAccepted | crates/domain/src/history.rs:467-491 | every naming event is accepted on a valid state |
| HistoryRuns.RestoreAccepted | crates/domain/src/history.rs:493-521 | every restore event is accepted on a valid state |
| HistoryRuns.MoveAcceptedIff | crates/domain/src/history.rs:552-616 | on any accepted log a cursor event is accepted exactly when the snapshot it restores has a revision id |
| HistoryRuns.RunAccepts | crates/domain/src/history.rs:178-616 | in every run each built event is accepted, except exactly the feature edits that break what held no current fingerprint |
| HistoryRefusals.RunPositive | crates/domain/src/history.rs:199-465 | in every run a current feature has a positive value, in every snapshot the session holds |
| HistoryRefusals.EditRefusedIff | crates/domain/src/history.rs:334-465 | the event of a feature edit is refused exactly when the state and the arguments say, before the edit, that it breaks what is not current |
| HistoryRefusals.RunRefusesExactly | crates/domain/src/history.rs:178-616 | in every run exactly these feature edits are refused, and no other event |
| HistoryRefusals.BreakingTwiceIsRefused | crates/domain/src/history.rs:334-465 | a run whose second edit to a value that is not positive is built and refused |
| HistoryRuns.NamedGrows | crates/domain/src/history.rs:199-616 | no command removes or changes a named revision; each but initialization keeps the replaced snapshot under a new name |
| HistoryOperations.RunReplays | crates/domain/src/history.rs:178-197 | every state of a run is the one its own log replays to |
| HistoryFingerprints.MerkleIsFull | crates/domain/src/history.rs:963-985 | on a valid map local consistency of fingerprints gives agreement with the computation over the whole dependency tree |
| HistoryFingerprints.EditKeepsMerkle | crates/domain/src/history.rs:388-447 | recomputing only the dirty features keeps every stored fingerprint consistent |
| HistoryFingerprints.NoCollision | crates/domain/src/history.rs:862-910 | two brackets share a feature id only when one bracket id is the other plus `-independent` |
| HistoryFingerprints.RunFingerprintsAreFull | crates/domain/src/history.rs:363-447 | in every run without colliding ids each current feature anywhere in the session has current dependencies and the fingerprint computed from scratch |
| HistoryCollisions.InitializeKeepsIff | crates/domain/src/history.rs:199-239 | on any consistent map an initialization keeps the fingerprints consistent exactly when no current feature resting on the bracket would get another one |
| HistoryCollisions.EditBracketKeepsIff | crates/domain/src/history.rs:241-332 | so does a bracket edit, exactly when besides what the parts rest on outside the bracket is current |
| HistoryCollisions.RunStepConsistentIff | crates/domain/src/history.rs:199-465 | in every run, whatever the ids, a command makes a consistent snapshot from a consistent one exactly under these conditions, and a feature edit always |
| HistoryCollisions.RunConsistentIff | crates/domain/src/history.rs:199-465 | all snapshots a session holds are consistent exactly when every accepted initialization and bracket edit of its run met its condition |
| HistoryCollisions.CollidingBracketsIff | crates/domain/src/history.rs:199-239 | initializing `x-independent` and then `x` keeps the fingerprints consistent exactly when the digest cannot tell the two bends apart |
| HistoryCollisions.OtherOrderConsistent | crates/domain/src/history.rs:199-239 | initializing `x` and then `x-independent` always keeps them consistent |
| HistoryEdits.EditRevisesPart | crates/domain/src/history.rs:334-465 | editing one part of an undisturbed bracket to a positive value settles it and what follows it, and leaves every other feature as it was |
| HistoryEdits.FiveEditsMakeOne | crates/domain/src/history.rs:241-332 | a bracket edit and successive single-feature edits of its five parts, in any order, give the same feature map |
| HistoryCursor.MoveReproducesIff | crates/domain/src/history.rs:618-677 | on any log, after an accepted move the log reproduces the state exactly when the neighbouring position held another snapshot |
| HistoryCursor.NewWorkReproduces | crates/domain/src/history.rs:618-677 | after any other event the cursor is on the newest position and reproduces the state |
| HistoryCursor.NewWorkThenUndo | crates/domain/src/history.rs:552-677 | in every run of initializations, edits, undos and redos undoing new work returns to what was active before it exactly when there was nothing to redo |
| HistoryCursor.RunMovesAreExact | crates/domain/src/history.rs:552-677 | in every run of initializations, edits, undos and redos a move lands on the neighbouring position, or reports nothing to undo or redo exactly at the end |
| HistoryCursor.ManyMoves | crates/domain/src/history.rs:552-677 | k moves walk k positions of an unchanged timeline |
| HistoryCursor.UndoThenRedo | crates/domain/src/history.rs:552-677 | k undos reach the k-th earlier snapshot and k redos restore the exact one |
| HistoryCursor.NameThenUndoLosesCursor | crates/domain/src/history.rs:618-677 | a run in which naming and undoing leave every further move refused |
| HistoryTimeline.ProjectFeatureTimeline | crates/domain/src/history.rs:751-840 | replaying event by event yields the entries and summaries of the log, or its first replay error |
| HistoryTimeline.TimelineTellsStatus | crates/domain/src/history.rs:751-840 | after every event the feature's status and last valid fingerprint are those of the last entry so far, or Absent |
| HistoryTimeline.TimelineRecords | crates/domain/src/history.rs:751-860 | the timeline has an entry for an event exactly when the event changes, targets or newly names the feature, with its ordinal, revision, kind and status and exactly the new names that hold the feature, ascending |
| HistoryTimeline.SeenIff | crates/domain/src/history.rs:751-840 | a feature has a timeline exactly when some state of the log knew it |
| HistoryTimeline.SummariesTell | crates/domain/src/history.rs:818-832 | the summaries are of exactly the named revisions that hold the feature, in the order of their names |
| MeshModel.Intern | crates/host/src/stl_integrity.rs:548-575 | equal positions get equal numbers, different positions different ones |
| MeshModel.NumberTriangles | crates/host/src/stl_integrity.rs:548-597 | accepted facets are numbered, proper and pairwise different; otherwise the first faulty one and why |
| MeshSolids.DegenerateIffCollinear | crates/host/src/stl_integrity.rs:556-586 | a facet is degenerate exactly when its corners lie on one line |
| MeshEdges.BuildEdges | crates/host/src/stl_integrity.rs:599-616 | the table holds exactly the uses of each edge, in facet order |
| MeshEdges.UsesAreExact | crates/host/src/stl_integrity.rs:599-616 | the uses of an edge are exactly the facets running along it, each once, with their direction |
| MeshEdges.CheckEdges | crates/host/src/stl_integrity.rs:618-658 | accepted when every edge is used once each way, with the facets across each edge; otherwise the first unsound edge and why |
| MeshEdges.TableMeaning | crates/host/src/stl_integrity.rs:618-658 | sound tables are exactly the closed oriented meshes |
| MeshEdges.NeighborsShareEdges | crates/host/src/stl_integrity.rs:618-658 | the collected neighbours are exactly the facets sharing an edge |
| MeshEdges.Mate | crates/host/src/stl_integrity.rs:618-658 | across each edge of a closed oriented mesh lies exactly one facet, running the other way |
| MeshVertexLinks.LinksAreExact | crates/host/src/stl_integrity.rs:748-769 | the link table joins two facets at a vertex exactly when they use an edge there together |
| MeshVertexLinks.CheckVertexLinks | crates/host/src/stl_integrity.rs:748-799 | the check passes exactly when every link has as many facets as the vertex, two neighbours each, and is connected; every lookup is defined |
| MeshVertexLinks.TwoAround | crates/host/src/stl_integrity.rs:748-799 | in a closed oriented mesh a facet has exactly two neighbours around each of its vertices |
| MeshVertexLinks.AcceptedIffCycle | crates/host/src/stl_integrity.rs:748-799 | a vertex passes exactly when its facets form one cycle of at least three, neighbours sharing an edge there |
| MeshVertexLinks.VertexCheckMeaning | crates/host/src/stl_integrity.rs:748-799 | the whole check passes exactly when that holds at every vertex, and the link of each vertex is present |
| Cycles.Explore | crates/host/src/stl_integrity.rs:778-793 | the search from one facet sees the whole link exactly when the link is connected |
| MeshShells.ConnectedShells | crates/host/src/stl_integrity.rs:801-823 | the breadth-first loop over a visited array returns disjoint connected closed shells that hold every facet |
| MeshShells.SameShellIffJoined | crates/host/src/stl_integrity.rs:801-823 | two facets are in one shell exactly when a chain of neighbours joins them |
| MeshShells.EveryFacetInOneShell | crates/host/src/stl_integrity.rs:801-823 | every facet is in exactly one shell |
| MeshVolume.VolumeTranslates | crates/host/src/stl_integrity.rs:1043-1045 | translating all vertices by any vector leaves the signed volume of each closed shell unchanged |
| MeshVolume.ShellsMakeTheMesh | crates/host/src/stl_integrity.rs:659-745 | the shell volumes add up to the sum over all facets |
| MeshVolume.FacetsAndEdges | crates/host/src/stl_integrity.rs:599-658 | in a closed oriented mesh three times the facets is twice the edges |
| MeshSolids.TetrahedronVolume | crates/host/src/stl_integrity.rs:1043-1045 | for any four points the four facets of their tetrahedron add up to one sixth of the determinant of the three edge vectors, written in coordinates |
| MeshSolids.ReversingNegates | crates/host/src/stl_integrity.rs:1043-1045 | reversing every facet negates the volume of any shell |
| MeshVerify.JudgeShells | crates/host/src/stl_integrity.rs:659-745 | accepted exactly when one positive exterior strictly holds separate negative cavities and leaves material; each refusal gives a reason that rules this out |
| MeshSolids.MaterialIffBody | crates/host/src/stl_integrity.rs:659-745 | what is accepted is exactly one shell of positive volume, every other of negative volume strictly inside it and none touching or within another, with a positive sum |
| MeshVerify.VerifyMesh | crates/host/src/stl_integrity.rs:542-746 | a mesh is accepted exactly when no facet is faulty, it is closed, oriented, manifold at every vertex and its shells bound one material body; the report holds its counts and exact volumes, a refusal names a fault the mesh has |
| MeshVerify.ReportGuarantees | crates/host/src/stl_integrity.rs:542-746 | what was accepted has translation-invariant volumes, a positive total, an even number of facets, and shells that are the connected parts |
| SessionGuarantees.OkMeansAllAnswered | crates/mcp/src/server.rs:481-889 | when the session returns Ok every response the input calls for was written exactly as often as it calls for it, and no other (section 4.1 of JSON-RPC 2.0) |
| SessionGuarantees.NeverTooMany | crates/mcp/src/server.rs:643-881 | at no moment has a response been written more often than the frames read call for |
| SessionGuarantees.InputConserved | crates/mcp/src/server.rs:495-600 | what was read and what is left is always the input |
| SessionGuarantees.OneCallAtATime | crates/mcp/src/server.rs:687-868 | at most one pattern call runs, it is the active one, and the main loop wants or holds the Host only when none runs |
| SessionGuarantees.ProgressInOrder | crates/mcp/src/server.rs:687-868 | the progress of a call is written only between its start and its single answer, at most 100 times |
| SessionGuarantees.CancelledWasNamed | crates/mcp/src/server.rs:612-640 | a running call is cancelled only if a cancellation naming it was read, and at most 128 cancellations wait |
| SessionCancellation.CancelledIff | crates/mcp/src/server.rs:605-868 | in every interleaving the active call is cancelled exactly when, while it was active, a cancellation naming it was taken, the input failed or a write failed, or when its start found a cancellation noted and not used by an earlier start with its id |
| SessionCancellation.PendingLaw | crates/mcp/src/server.rs:610-631 | a cancellation waits exactly since it was taken between events for an id that was queued, with fewer than 128 waiting, until a call with the id starts |
| SessionCancellation.QueuedLaw | crates/mcp/src/server.rs:575-805 | an id is queued exactly since a tool call with it was read, until one is started, refused as busy, or handled |
| SessionLostCancellation.CancellationLost | crates/mcp/src/server.rs:824-845 | a run in which a cancellation of a queued call is taken while another call completes, none waiting, and the call then starts uncancelled |
| SessionReports.ProgressWasAsked | crates/mcp/src/server.rs:720-752 | in every interleaving progress is written only for calls that carry a token, and no queued stage is longer than 256 |
| SessionReports.ReportsIff | crates/mcp/src/server.rs:720-752 | a report goes out exactly when a token asks for it, fewer than a hundred went before and it differs from the last, with the first 256 characters of its stage |
| SessionReplies.AnswersAreDue | crates/mcp/src/server.rs:649-809 | in every interleaving an answer of the main loop answers a request that needs one, and a call that works in the Host is answered only while the loop holds the Host for it, or as busy |
| SessionQueues.NothingDropped | crates/mcp/src/server.rs:481-889 | in every interleaving each queue holds at most 128 entries, and no response or request is lost unless the session is shut down |
| SessionProgress.CanFinish | crates/mcp/src/server.rs:481-889 | from every reachable state that is not shut down the session can run to its end, and then returns Ok unless its input failed: there is no deadlock |
| Matching.SortedIsPermutation | crates/host/src/bracket_equivalence.rs:380-384 | sorting loses and invents nothing |
| Matching.MatchIffPairing | crates/host/src/bracket_equivalence.rs:370-378 | sorted comparison succeeds exactly when some one-to-one pairing is within the tolerance |
| Matching.CompareProbes | crates/host/src/bracket_equivalence.rs:340-368 | probe lists agree exactly when equally long and, position by position, equal in name and occupancy with pairable intersections |
| Sweep.SweepIntervals | crates/domain/src/lib.rs:1072-1086 | the loop accepts exactly when sorted intervals start and end at the edge's ends with no gap |
| Sweep.SortedIsPermutation | crates/domain/src/lib.rs:1075 | sorting by start loses and invents nothing |
| Sweep.AcceptedIffReconstructs | crates/domain/src/lib.rs:1072-1086 | for any fragments, the sweep accepts exactly when a condition that mentions no order holds and the fragment given first among those that start first reaches its start |
| Sweep.OrderMattersIff | crates/domain/src/lib.rs:1072-1086 | some rearrangement changes the answer exactly when of the fragments that start first one reaches its start and another does not, nothing else missing |
| Sweep.AcceptedCovers | crates/domain/src/lib.rs:1072-1086 | when the sweep accepts, every point of the edge is within the tolerance of a kept fragment |
| Sweep.CoveringAccepted | crates/domain/src/lib.rs:1072-1086 | two or more fragments inside the edge that cover it are accepted exactly when the first of them reaches its start, so always when no length is negative |
| EdgeReferences.CandidateOrderMattersIff | crates/domain/src/lib.rs:919-962 | some rearrangement of the candidates resolves differently exactly when the sweep is reached and its fragments hold such a tie |
| EdgeReferences.CandidateOrderNeverMatters | crates/domain/src/lib.rs:919-962 | when no candidate of the lineage and role has a negative length, rearranging changes no outcome, ids included |
| EdgeReferences.OrderMattersForNegativeLengths | crates/domain/src/lib.rs:919-962 | an edge of length 2 and two candidates, one of length -1, that are a split in one order and nothing found in the other |
| EdgeReferences.ResolvedIff | crates/domain/src/lib.rs:855-912 | an edge is resolved exactly when all is well formed and exactly one candidate of the lineage and role passes the geometric test, whose meaning `EdgeGeometry.MatchIff` gives |
| EdgeGeometry.MatchIff | crates/domain/src/lib.rs:968-998 | the geometric test passes exactly when the squared distance of the midpoints, the difference of the lengths and the squared product of the tangents are within their tolerances, all multiplied out |
| EdgeGeometry.ResolvedExactly | crates/domain/src/lib.rs:853-962 | an edge is resolved to an id exactly when all is well formed and exactly one position holds a candidate of the lineage and role that is so placed, and it has the id |
| EdgeGeometry.WellFormedOutcomes | crates/domain/src/lib.rs:853-917 | when all is well formed: lost exactly without the lineage, ambiguous exactly with several matches, and which ids are listed |
| EdgeGeometry.IllFormedOutcomes | crates/domain/src/lib.rs:853-888 | otherwise incompatible, listing nothing for an ill-formed reference and every candidate for an ill-formed candidate |
| EdgeFragments.KeptIff | crates/domain/src/lib.rs:1004-1070 | a candidate becomes a fragment exactly when it is parallel to the edge and its midpoint lies on the axis within the tolerance, multiplied out, and the fragment is its length around where it lies |
| EdgeFragments.SplitCovers | crates/domain/src/lib.rs:919-962 | where a split is reported every point of the edge is within the tolerance of such a candidate, measured on the axis |
| EdgeFragments.CoveringIsSplit | crates/domain/src/lib.rs:919-962 | two or more such candidates within the edge that cover it are always reported as a split |
| EdgeReferences.SplitCoversEdge | crates/domain/src/lib.rs:919-962 | a split is reported only where fragments of the edge's lineage and role cover it within the tolerance |
| Components.LookupMeaning | crates/domain/src/lib.rs:1091-1107 | on any graph a lookup resolves exactly an id held once by an object of the expected kind, and tells lost, ambiguous and incompatible apart |
| Components.ComponentGraph.constructor | crates/domain/src/lib.rs:755-760 | a new graph is empty |
| Components.ComponentGraph.Apply | crates/domain/src/lib.rs:1110-1246 | a command yields the specified new graph, or its error and an unchanged graph |
| ComponentEffects.DefineAdds | crates/domain/src/lib.rs:1112-1153 | a definition, spelled out or captured, is accepted exactly when its ids are plain, its selection ascends, its dimensions are positive and its ids are new, and it is added as given |
| ComponentEffects.CreateAdds | crates/domain/src/lib.rs:1154-1179 | an instance is accepted exactly when linked, plainly and newly named, finitely placed and of an existing definition, and it is added as given |
| ComponentEffects.TransformMoves | crates/domain/src/lib.rs:1180-1188 | a finite transform of an existing instance replaces its transform and nothing else |
| ComponentEffects.EditSets | crates/domain/src/lib.rs:1224-1243 | a positive value for one of the four parameters of an existing definition replaces that dimension and nothing else |
| ComponentEffects.SeparateAdds | crates/domain/src/lib.rs:1189-1223 | a separation adds a copy of the definition and an instance of it where the source is, and changes nothing else |
| ComponentEffects.SelectionIff | crates/domain/src/lib.rs:1313-1324 | comparing neighbours accepts exactly the plain selections that ascend throughout |
| ComponentGuarantees.RunKeeps | crates/domain/src/lib.rs:1110-1246 | in every run ids are disjoint and plain, definitions exist and are positive, feature ids unique, and every recorded source still has its recorded definition |
| ComponentGuarantees.NeverAmbiguous | crates/domain/src/lib.rs:1248-1300 | in every run no lookup is ambiguous |
| ComponentGuarantees.CommandGrows | crates/domain/src/lib.rs:1110-1246 | no command removes a definition or instance or changes a feature id, an instance's definition or its origin |
| ComponentGuarantees.EveryInstanceDescendsFromLinked | crates/domain/src/lib.rs:1189-1223 | in every run following recorded sources ends at an instance created with linked reuse |
| ComponentGuarantees.EditReachesExactlyItsInstances | crates/domain/src/lib.rs:1224-1243 | an edit changes one dimension of exactly the instances of its definition |
| ComponentGuarantees.SeparatedStaysIndependent | crates/domain/src/lib.rs:1189-1223 | after a separation the copy keeps its source's shape whatever follows, until its own definition is edited |
| ComponentGuarantees.SeparatingAcceptedIff | crates/domain/src/lib.rs:1195-1207 | a separation is accepted exactly when the source exists and the new ids are plain, different and free |
| Lines.LinesRebuild | crates/protocol/src/frame.rs:57-66 | lines and carry rebuild the stream, and no line holds a newline |
| Lines.LinesUnique | crates/protocol/src/frame.rs:57-66 | there is no other way to write a stream as lines and carry |
| Lines.SplitAnywhere | crates/protocol/src/frame.rs:41-66 | the lines of a stream are those of its first part, then those of its carry with the second part |
| FrameParsing.FrameParser.Push | crates/protocol/src/frame.rs:41-106 | a push returns the envelopes of the lines it completes and keeps the carry; a full buffer or a bad line is an error and empties it |
| FrameParsing.PushMeaning | crates/protocol/src/frame.rs:41-106 | a push is refused as too large exactly above 4194304 bytes; otherwise it returns what the nonempty completed lines decode to and keeps the rest, or the first line that does not decode, and nothing |
| FrameParsing.DecodeMeaning | crates/protocol/src/frame.rs:41-106 | decoding gives one envelope for each nonempty line, in order, or the failure of the first that has none |
| FrameParsing.FrameParser.Reset | crates/protocol/src/frame.rs:108-112 | a reset empties the buffer |
| FrameParsing.ChunkingDoesNotMatter | crates/protocol/src/frame.rs:41-106 | all pushes succeed exactly when none overflows and every line decodes, and then return the decoding of the whole stream and hold its carry |
| FrameParsing.SameStreamSameEnvelopes | crates/protocol/src/frame.rs:41-106 | two cuts of one stream within the limit give the same result |
| BoundedReading.ReadBoundedFrame | crates/mcp/src/server.rs:1277-1301 | one frame through its newline is appended, or refused exactly when too long, whatever sizes the source returns |
| BoundedReading.SplitNewlines | crates/mcp/src/server.rs:1303-1316 | the loop returns the lines of the bytes, the last even without a newline |
| BoundedReading.ReadLines | crates/mcp/src/server.rs:495-522 | the reader hands on exactly the nonempty lines before the first frame that is too long, whatever sizes the source returns |
| BoundedReading.ReadableMeaning | crates/mcp/src/server.rs:1277-1301 | what can be read is the whole stream or stops at a frame without a newline in its first 4194304 bytes |
| BoundedReading.SameLinesAsParser | crates/mcp/src/server.rs:1303-1316 | on a stream ending with a newline reader and frame parser decode the same lines |

## Left out

- Message texts of errors and diagnostics, excerpts and line locations: errors are data, their wording is not modelled.
- SHA-256, JSON and serialization: the digest and the decoding of a line are uninterpreted; a digest's rendering of numbers is part of it.
- Floating-point rounding: finite doubles are real numbers. Non-finite values are kept apart where the code looks at them (history and component inputs); comparisons of two NaN snapshots are not.
- 64-bit overflow of event ordinals and counters, and saturation of the parser's size sum: numbers are unbounded.
- Distances, ray parity and triangle intersection between shells: the two tests they add up to are parameters of the mesh check. The check that a facet's area is finite always passes over the reals.
- STL parsing, numbering of signed zeros, and file access: the mesh check starts from parsed triangles, and equal positions are equal vertices.
- Library sorting: modelled as functions, stable where the order of ties can show.
- HistoryCursor.RunMovesAreExact: excludes naming and restoring revisions, for which it is false (`NameThenUndoLosesCursor`); `MoveReproducesIff` covers all logs.
- HistoryCursor.NewWorkThenUndo: the same runs, for the same reason.
- HistoryEdits.FiveEditsMakeOne: asks that nothing outside the bracket depends on it and that the next five generated names are free, without which a single-feature edit is refused or reaches further.
- HistoryCollisions.CollidingBracketsIff: one run of two commands; `RunConsistentIff` covers all runs.
- MeshVerify.VerifyMesh: which shell comes first in the report is not specified; the tests between shells see the facets in the order found.
- Tool handlers, the Host, the worker process and the contents of responses: a session records which response is written to whom, when, and how often.
- SessionProgress.CanFinish: that a run to the end exists, not that every schedule takes it. A shutdown with a full queue can drop the end of the input or a completion, so nothing is claimed after one. Panics and poisoned locks are not modelled. The main loop keeps a sender of its own, so its queue never disconnects.
- Input errors of a buffered source inside a frame: in the session they are a move of the reader; the line reader's source never fails.
- Other commands of the domain crate (sketches, planar faces, fit dimensions), artifacts, command-line tools and schema checks: they would add independent easy conditions.
