/** The per-feature timeline projected from a log. */
module HistoryTimeline {
  import opened Wrappers
  import opened Text
  import opened HistoryModel
  import opened HistoryEvents
  import opened HistoryEngine

  datatype TimelineStatus = IsCurrentValid | IsBroken | IsBlockedByFailure | IsSuppressed | Absent

  datatype Entry = Entry(
    ordinal: nat, revisionId: string, operation: string, status: TimelineStatus,
    staleLastValid: Option<string>, namedRevisions: seq<string>)

  datatype Summary = Summary(name: string, revisionId: string, provenance: string)

  datatype Timeline = Timeline(
    featureId: string, activeRevision: string, revisions: seq<Entry>, namedRevisions: seq<Summary>)

  function OperationName(operation: Operation): string {
    match operation
    case InitializeLBracket(_, _, _, _, _) => "initialize-l-bracket"
    case HistoricalEdit(_, _, _, _, _, _, _, _) => "historical-edit"
    case CreateNamedRevision(_) => "create-named-revision"
    case RestoreNamedRevision(_, _) => "restore-named-revision"
    case Undo(_, _, _) => "undo"
    case Redo(_, _, _) => "redo"
  }

  function TimelineStatusOf(status: Status): TimelineStatus {
    match status
    case CurrentValid => IsCurrentValid
    case Broken => IsBroken
    case BlockedByFailure => IsBlockedByFailure
    case Suppressed => IsSuppressed
  }

  function Lookup(snapshot: Snapshot, id: string): Option<Feature> {
    if id in snapshot.features then Some(snapshot.features[id]) else None
  }

  /** What a reader of the timeline wants to know about a feature in a snapshot. */
  function StatusIn(snapshot: Snapshot, id: string): TimelineStatus {
    match Lookup(snapshot, id)
    case None => Absent
    case Some(f) => TimelineStatusOf(f.status)
  }

  function StaleIn(snapshot: Snapshot, id: string): Option<string> {
    match Lookup(snapshot, id)
    case None => None
    case Some(f) => f.lastValid
  }

  predicate HoldsFeature(named: NamedMap, name: string, id: string) {
    name in named && id in named[name].snapshot.features
  }

  predicate TargetsFeature(before: State, after: State, event: Event, id: string) {
    var changed := Lookup(before.active, id) != Lookup(after.active, id);
    match event.operation
    case InitializeLBracket(_, _, _, _, _) => changed
    case HistoricalEdit(edited, _, _, dirty, _, _, _, _) => edited == id || id in dirty
    case CreateNamedRevision(_) => false
    case RestoreNamedRevision(name, _) =>
      id in before.active.features || id in after.active.features || HoldsFeature(after.named, name, id)
    case Undo(_, _, _) => changed
    case Redo(_, _, _) => changed
  }

  function NewNames(before: State, after: State, id: string): seq<string> {
    Sorted(set n | n in after.named && n !in before.named && HoldsFeature(after.named, n, id))
  }

  function EntryFor(before: State, after: State, event: Event, id: string): seq<Entry> {
    var names := NewNames(before, after, id);
    if Lookup(before.active, id) != Lookup(after.active, id) || TargetsFeature(before, after, event, id) || names != [] then
      [Entry(event.ordinal, event.active.revisionId, OperationName(event.operation), StatusIn(after.active, id),
             StaleIn(after.active, id), names)]
    else []
  }

  predicate SeenIn(before: State, after: State, id: string) {
    || id in after.active.features || id in before.active.features
    || exists n :: n in after.named && HoldsFeature(after.named, n, id)
  }

  /** All entries of an accepted log, in order. */
  function Entries(log: seq<Event>, id: string): seq<Entry>
    requires Replay(log).Ok?
  {
    if log == [] then [] else
    var pre := log[..|log| - 1];
    Entries(pre, id) + EntryFor(Replay(pre).value, Replay(log).value, log[|log| - 1], id)
  }

  predicate Seen(log: seq<Event>, id: string)
    requires Replay(log).Ok?
  {
    log != [] && (Seen(log[..|log| - 1], id) || SeenIn(Replay(log[..|log| - 1]).value, Replay(log).value, id))
  }

  function Summaries(named: NamedMap, names: seq<string>, id: string): seq<Summary>
    requires forall n :: n in names ==> n in named
  {
    if names == [] then [] else
    assert names[0] in names;
    var rest := Summaries(named, names[1..], id);
    if HoldsFeature(named, names[0], id)
    then [Summary(named[names[0]].name, named[names[0]].snapshot.revisionId, named[names[0]].provenance)] + rest
    else rest
  }

  function Project(log: seq<Event>, id: string): Result<Timeline, HistoryError>
    requires Replay(log).Ok?
  {
    var s := Replay(log).value;
    if !Seen(log, id) then Err(FeatureNotFound(id))
    else Ok(Timeline(id, s.active.revisionId, Entries(log, id), Summaries(s.named, Sorted(s.named.Keys), id)))
  }

  lemma {:induction false} ReplayFails(log: seq<Event>, n: nat)
    requires n <= |log| && Replay(log[..n]).Err?
    ensures Replay(log) == Replay(log[..n])
  {
    if n == |log| {
      assert log[..n] == log;
    } else {
      assert log[..|log| - 1][..n] == log[..n];
      ReplayFails(log[..|log| - 1], n);
    }
  }

  /** The projection as the program runs it: replay one event at a time, collecting entries. */
  method ProjectFeatureTimeline(digest: Digest, log: seq<Event>, id: string) returns (r: Result<Timeline, HistoryError>)
    ensures id == "" ==> r == Err(FeatureNotFound(id))
    ensures id != "" ==> r == if Replay(log).Err? then Err(Replay(log).error) else Project(log, id)
  {
    hide Apply, EntryFor, SeenIn, Summaries;
    if id == "" { return Err(FeatureNotFound(id)); }
    var state := new HistoryState(digest);
    var seen := false;
    var revisions := [];
    for n := 0 to |log|
      invariant Replay(log[..n]) == Ok(state.View())
      invariant revisions == Entries(log[..n], id) && seen == Seen(log[..n], id)
    {
      var before := state.View();
      assert log[..n + 1][..n] == log[..n];
      var applied := state.ApplyEvent(log[n]);
      if applied.Err? {
        ReplayFails(log, n + 1);
        return Err(applied.error);
      }
      seen := seen || SeenIn(before, state.View(), id);
      revisions := revisions + EntryFor(before, state.View(), log[n], id);
    }
    assert log[..|log|] == log;
    if !seen { return Err(FeatureNotFound(id)); }
    var s := state.View();
    r := Ok(Timeline(id, s.active.revisionId, revisions, Summaries(s.named, Sorted(s.named.Keys), id)));
  }

  /** The last entry at or before ordinal `n`. */
  function LastEntry(entries: seq<Entry>, n: nat): Option<Entry> {
    if entries == [] then None
    else if entries[|entries| - 1].ordinal <= n then Some(entries[|entries| - 1])
    else LastEntry(entries[..|entries| - 1], n)
  }

  lemma {:induction false} EntriesWithinLog(log: seq<Event>, id: string, i: nat)
    requires Replay(log).Ok? && i < |Entries(log, id)|
    ensures Entries(log, id)[i].ordinal <= |log|
  {
    hide Apply, NewNames, TargetsFeature, ValidFeatures, ValidNamed;
    var pre := log[..|log| - 1];
    LastOrdinal(log);
    if i < |Entries(pre, id)| { EntriesWithinLog(pre, id, i); }
  }

  lemma {:induction false} LastOrdinal(log: seq<Event>)
    requires Replay(log).Ok? && log != []
    ensures log[|log| - 1].ordinal == |log|
  {
    hide Apply, ValidFeatures, ValidNamed;
    AcceptedLog(log);
    assert SoundEntry(log, |log| - 1);
  }

  /** The timeline says what a feature was after every event: its last entry up to then, or Absent if there is none. */
  lemma {:induction false} TimelineTellsStatus(log: seq<Event>, id: string, n: nat)
    requires Replay(log).Ok? && n <= |log|
    ensures Replay(log[..n]).Ok?
    ensures var snapshot, last := Replay(log[..n]).value.active, LastEntry(Entries(log, id), n);
      && StatusIn(snapshot, id) == (if last.Some? then last.value.status else Absent)
      && StaleIn(snapshot, id) == (if last.Some? then last.value.staleLastValid else None)
  {
    hide Apply, NewNames, TargetsFeature, ValidFeatures, ValidNamed;
    PrefixAccepted(log, n);
    if log != [] {
      var pre, last := log[..|log| - 1], log[|log| - 1];
      LastOrdinal(log);
      var added := EntryFor(Replay(pre).value, Replay(log).value, last, id);
      var all := Entries(log, id);
      assert all == Entries(pre, id) + added && |added| <= 1;
      assert all[..|Entries(pre, id)|] == Entries(pre, id);
      assert added == [] ==> all == Entries(pre, id);
      if n < |log| {
        TimelineTellsStatus(pre, id, n);
        assert pre[..n] == log[..n];
      } else {
        assert log[..n] == log;
        if added == [] {
          TimelineTellsStatus(pre, id, n - 1);
          assert pre[..n - 1] == pre;
          SameLast(pre, id, n);
        }
      }
    }
  }

  lemma {:induction false} SameLast(pre: seq<Event>, id: string, n: nat)
    requires Replay(pre).Ok? && n == |pre| + 1
    ensures LastEntry(Entries(pre, id), n) == LastEntry(Entries(pre, id), n - 1)
  {
    var entries := Entries(pre, id);
    if entries != [] { EntriesWithinLog(pre, id, |entries| - 1); }
  }

  // ---------- What the timeline records ----------

  /** The state after the first `m` events of an accepted log. */
  ghost function StateAt(log: seq<Event>, m: nat): State
    requires Replay(log).Ok? && m <= |log|
  {
    PrefixAccepted(log, m);
    Replay(log[..m]).value
  }

  ghost predicate NamedFor(before: State, after: State, id: string, name: string) {
    name in after.named && name !in before.named && id in after.named[name].snapshot.features
  }

  /** The event at ordinal `m` concerns the feature. */
  ghost predicate Concerns(log: seq<Event>, m: nat, id: string)
    requires Replay(log).Ok? && 1 <= m <= |log|
  {
    var before, after, op := StateAt(log, m - 1), StateAt(log, m), log[m - 1].operation;
    var a, b := before.active.features, after.active.features;
    || (id in a) != (id in b) || (id in a && id in b && a[id] != b[id])
    || (op.HistoricalEdit? && (op.featureId == id || id in op.dirty))
    || (op.RestoreNamedRevision? && (id in a || id in b || (op.name in after.named && id in after.named[op.name].snapshot.features)))
    || exists n :: NamedFor(before, after, id, n)
  }

  ghost predicate NamesOperation(name: string, op: Operation) {
    && (op.InitializeLBracket? ==> name == "initialize-l-bracket") && (op.HistoricalEdit? ==> name == "historical-edit")
    && (op.CreateNamedRevision? ==> name == "create-named-revision")
    && (op.RestoreNamedRevision? ==> name == "restore-named-revision")
    && (op.Undo? ==> name == "undo") && (op.Redo? ==> name == "redo")
  }

  /** The entry of an event: its ordinal, revision and kind, what the feature is then, and the new names that hold it. */
  ghost predicate EntryTells(log: seq<Event>, m: nat, id: string, e: Entry)
    requires Replay(log).Ok? && 1 <= m <= |log|
  {
    var before, after := StateAt(log, m - 1), StateAt(log, m);
    && e.ordinal == m && e.revisionId == after.active.revisionId && NamesOperation(e.operation, log[m - 1].operation)
    && (id !in after.active.features ==> e.status == Absent && e.staleLastValid == None)
    && (id in after.active.features ==>
          var f := after.active.features[id];
          && e.staleLastValid == f.lastValid
          && (e.status == IsCurrentValid <==> f.status == CurrentValid) && (e.status == IsBroken <==> f.status == Broken)
          && (e.status == IsBlockedByFailure <==> f.status == BlockedByFailure) && (e.status == IsSuppressed <==> f.status == Suppressed))
    && (forall n :: n in e.namedRevisions <==> NamedFor(before, after, id, n))
    && (forall i, j :: 0 <= i < j < |e.namedRevisions| ==>
          e.namedRevisions[i] != e.namedRevisions[j] && TextLe(e.namedRevisions[i], e.namedRevisions[j]))
  }

  lemma {:induction false} NewNamesTell(before: State, after: State, id: string)
    ensures var names := NewNames(before, after, id);
      && (forall n :: n in names <==> NamedFor(before, after, id, n))
      && (forall i, j :: 0 <= i < j < |names| ==> names[i] != names[j] && TextLe(names[i], names[j]))
      && (names != [] <==> exists n :: NamedFor(before, after, id, n))
  {
    var names := NewNames(before, after, id);
    if names != [] { assert names[0] in names; }
  }

  lemma {:induction false} EntryForTells(log: seq<Event>, m: nat, id: string)
    requires Replay(log).Ok? && 1 <= m <= |log|
    ensures var entries := EntryFor(StateAt(log, m - 1), StateAt(log, m), log[m - 1], id);
      && |entries| <= 1 && (entries != [] <==> Concerns(log, m, id))
      && (entries != [] ==> EntryTells(log, m, id, entries[0]))
  {
    hide Apply, ValidFeatures, ValidNamed, NewNames, Replay;
    LoggedAt(log, m);
    NewNamesTell(StateAt(log, m - 1), StateAt(log, m), id);
  }

  lemma {:induction false} LoggedAt(log: seq<Event>, m: nat)
    requires Replay(log).Ok? && 1 <= m <= |log|
    ensures log[m - 1].ordinal == m && log[m - 1].active == StateAt(log, m).active
  {
    hide Apply, ValidFeatures, ValidNamed;
    PrefixAccepted(log, m);
    AcceptedLog(log);
    assert SoundEntry(log, m - 1);
    AcceptedLog(log[..m]);
    assert log[..m][m - 1] == log[m - 1];
  }

  /** The timeline has an entry for an event exactly when it concerns the feature, and the entry tells what it did. */
  lemma {:induction false} TimelineRecords(log: seq<Event>, id: string, m: nat)
    requires Replay(log).Ok? && 1 <= m <= |log|
    ensures (exists e :: e in Entries(log, id) && e.ordinal == m) <==> Concerns(log, m, id)
    ensures forall e :: e in Entries(log, id) && e.ordinal == m ==> EntryTells(log, m, id, e)
    decreases |log|
  {
    hide Apply, EntryFor, Concerns, EntryTells, ValidFeatures, ValidNamed;
    var n := |log|;
    var pre := log[..n - 1];
    PrefixAccepted(log, n - 1);
    assert log[..n] == log;
    EntryForTells(log, n, id);
    var added := EntryFor(StateAt(log, n - 1), StateAt(log, n), log[n - 1], id);
    assert Entries(log, id) == Entries(pre, id) + added;
    AddedOrdinal(log, n, id);
    if m < n {
      TimelineRecords(pre, id, m);
      SameRecords(log, m, id);
    } else {
      forall e | e in Entries(pre, id) ensures e.ordinal != n {
        var i :| 0 <= i < |Entries(pre, id)| && Entries(pre, id)[i] == e;
        EntriesWithinLog(pre, id, i);
      }
      if added != [] { assert added[0] in Entries(log, id) && added[0].ordinal == n; }
    }
  }

  lemma {:induction false} AddedOrdinal(log: seq<Event>, m: nat, id: string)
    requires Replay(log).Ok? && 1 <= m <= |log|
    ensures forall e :: e in EntryFor(StateAt(log, m - 1), StateAt(log, m), log[m - 1], id) ==> e.ordinal == m
  {
    hide Apply, ValidFeatures, ValidNamed, NewNames, TargetsFeature, Replay;
    LoggedAt(log, m);
  }

  lemma {:induction false} SameRecords(log: seq<Event>, m: nat, id: string)
    requires Replay(log).Ok? && 1 <= m < |log|
    ensures Replay(log[..|log| - 1]).Ok?
    ensures Concerns(log[..|log| - 1], m, id) == Concerns(log, m, id)
    ensures forall e :: EntryTells(log[..|log| - 1], m, id, e) == EntryTells(log, m, id, e)
  {
    hide Apply, Replay;
    var pre := log[..|log| - 1];
    PrefixAccepted(log, |log| - 1);
    assert pre[..m] == log[..m] && pre[..m - 1] == log[..m - 1] && pre[m - 1] == log[m - 1];
  }

  ghost predicate Knows(s: State, id: string) {
    id in s.active.features || exists n :: n in s.named && id in s.named[n].snapshot.features
  }

  /** A feature has a timeline exactly when some state of the log knew it. */
  lemma {:induction false} SeenIff(log: seq<Event>, id: string)
    requires Replay(log).Ok?
    ensures Seen(log, id) <==> exists m: nat :: m <= |log| && Knows(StateAt(log, m), id)
    decreases |log|
  {
    hide Apply, Knows;
    if log == [] {
      assert !Knows(INITIAL, id) by { NothingKnown(id); }
    } else {
      var n := |log|;
      var pre := log[..n - 1];
      PrefixAccepted(log, n - 1);
      assert log[..n] == log;
      SeenIff(pre, id);
      SeenInIff(StateAt(log, n - 1), StateAt(log, n), id);
      forall m: nat | m <= n - 1 ensures StateAt(log, m) == StateAt(pre, m) { assert pre[..m] == log[..m]; }
      SeenBefore(log, id);
    }
  }

  lemma {:induction false} SeenBefore(log: seq<Event>, id: string)
    requires Replay(log).Ok? && log != []
    ensures var n := |log|;
      (exists m: nat :: m <= n && Knows(StateAt(log, m), id)) <==>
        (exists m: nat :: m <= n - 1 && Knows(StateAt(log, m), id)) || Knows(StateAt(log, n), id)
  {
    hide Knows, Replay;
    var n := |log|;
    var last: nat := n;
    if Knows(StateAt(log, n), id) { assert Knows(StateAt(log, last), id); }
  }

  lemma {:induction false} NothingKnown(id: string)
    ensures !Knows(INITIAL, id)
  {
  }

  lemma {:induction false} SeenInIff(before: State, after: State, id: string)
    ensures SeenIn(before, after, id) ==> Knows(before, id) || Knows(after, id)
    ensures Knows(after, id) ==> SeenIn(before, after, id)
  {
  }

  /** The listed names are exactly those of revisions that hold the feature, each once and ascending. */
  ghost predicate Holders(named: NamedMap, names: seq<string>, id: string, held: seq<string>)
    requires forall n :: n in names ==> n in named
  {
    && (forall n :: n in held <==> n in names && id in named[n].snapshot.features)
    && (forall i, j :: 0 <= i < j < |held| ==> held[i] != held[j] && TextLe(held[i], held[j]))
  }

  ghost predicate Tells(named: NamedMap, summary: Summary, n: string) {
    n in named && summary == Summary(named[n].name, named[n].snapshot.revisionId, named[n].provenance)
  }

  /** The summaries are of exactly the named revisions that hold the feature, in the order of their names. */
  lemma {:induction false} SummariesTell(named: NamedMap, names: seq<string>, id: string) returns (held: seq<string>)
    requires forall n :: n in names ==> n in named
    requires forall i, j :: 0 <= i < j < |names| ==> names[i] != names[j] && TextLe(names[i], names[j])
    ensures var summaries := Summaries(named, names, id);
      Holders(named, names, id, held) && |summaries| == |held| && forall i :: 0 <= i < |held| ==> Tells(named, summaries[i], held[i])
  {
    hide TextLe, Holders;
    if names == [] {
      HoldersNone(named, id);
      return [];
    }
    var tail := names[1..];
    var rest := SummariesTell(named, tail, id);
    assert names == [names[0]] + tail;
    HoldersFirst(named, names[0], tail, id, rest);
    held := if id in named[names[0]].snapshot.features then [names[0]] + rest else rest;
  }

  lemma {:induction false} HoldersFirst(named: NamedMap, first: string, tail: seq<string>, id: string, rest: seq<string>)
    requires first in named && forall n :: n in tail ==> n in named
    requires Holders(named, tail, id, rest)
    requires forall i :: 0 <= i < |tail| ==> first != tail[i] && TextLe(first, tail[i])
    ensures Holders(named, [first] + tail, id, if id in named[first].snapshot.features then [first] + rest else rest)
  {
    hide TextLe;
    forall i | 0 <= i < |rest| ensures first != rest[i] && TextLe(first, rest[i]) {
      assert rest[i] in rest;
      var k :| 0 <= k < |tail| && tail[k] == rest[i];
    }
  }

  lemma {:induction false} HoldersNone(named: NamedMap, id: string)
    ensures Holders(named, [], id, [])
  {
  }
}
