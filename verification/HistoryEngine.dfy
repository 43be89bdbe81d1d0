/** The history object: its fields, the one method that assigns them, and the loops behind the event builders. */
module HistoryEngine {
  import opened Wrappers
  import opened HistoryModel
  import opened HistoryGraph
  import opened HistoryEvaluation
  import opened HistoryEvents
  import opened HistoryOperations

  method LBracketSnapshot(h: Digest, bracket: string, dims: Dimensions) returns (features: FeatureMap)
    ensures features == BracketFeatures(h, bracket, dims)
  {
    features := map[];
    for n := 0 to |PARTS|
      invariant features == WithParts(h, bracket, dims, PARTS[..n])
    {
      assert PARTS[..n + 1][..n] == PARTS[..n];
      features := WithPart(h, bracket, dims, features, PARTS[n]);
    }
    assert PARTS[..|PARTS|] == PARTS;
  }

  /** The timeline positions, collected front to back. */
  method CollectPositions(log: seq<Event>) returns (positions: seq<Position>)
    ensures positions == Positions(log)
  {
    positions := [Position(0, GENESIS)];
    for n := 0 to |log|
      invariant positions == Positions(log[..n])
    {
      assert log[..n + 1][..n] == log[..n];
      if !MovesCursor(log[n]) { positions := positions + [Position(log[n].ordinal, log[n].active)]; }
    }
    assert log[..|log|] == log;
  }

  /** The cursor, walking the undos and redos at the end of the log backwards. */
  method ReplayCursor(log: seq<Event>, newest: int) returns (cursor: int)
    ensures cursor == newest + TrailingShift(log)
  {
    cursor := newest;
    var n := |log|;
    assert log[..n] == log;
    while n > 0
      invariant 0 <= n <= |log|
      invariant cursor + TrailingShift(log[..n]) == newest + TrailingShift(log)
    {
      assert log[..n][..n - 1] == log[..n - 1];
      if log[n - 1].operation.Undo? { cursor := cursor - 1; }
      else if log[n - 1].operation.Redo? { cursor := cursor + 1; }
      else { break; }
      n := n - 1;
    }
  }

  class HistoryState {
    const digest: Digest
    var active: Snapshot
    var namedRevisions: NamedMap
    var eventOrdinal: nat

    /** The fields as one value. */
    function View(): State
      reads this
    {
      State(active, namedRevisions, eventOrdinal)
    }

    constructor (digest: Digest)
      ensures View() == INITIAL && this.digest == digest
    {
      this.digest := digest;
      active, namedRevisions, eventOrdinal := GENESIS, map[], 0;
    }

    /** Accepts exactly what `Apply` accepts; a refused event changes nothing. */
    method ApplyEvent(event: Event) returns (r: Result<(), HistoryError>)
      modifies this
      ensures match Apply(old(View()), event)
        case Ok(next) => r.Ok? && View() == next
        case Err(e) => r == Err(e) && View() == old(View())
    {
      if event.schemaVersion != HISTORY_EVENT_SCHEMA { return Err(InvalidEvent(UnsupportedSchema)); }
      if event.ordinal != eventOrdinal + 1 { return Err(InvalidEvent(UnexpectedOrdinal)); }
      var fault := ValidateEvent(event);
      hide EventFault;
      if fault.Some? { return Err(fault.value); }
      active := event.active;
      namedRevisions := event.named;
      eventOrdinal := event.ordinal;
      r := Ok(());
    }

    method InitializeLBracket(bracket: string, dims: Dimensions) returns (r: Result<Event, HistoryError>)
      ensures r == Initialize(digest, View(), bracket, dims)
    {
      hide WithParts;
      if bracket == "" || !dims.Positive() { return Err(InvalidValue); }
      var features := LBracketSnapshot(digest, bracket, dims);
      r := Ok(InitialEvent(View(), bracket, dims, features));
    }

    method EditLBracket(bracket: string, dims: Dimensions) returns (r: Result<Edited, HistoryError>)
      ensures r == EditBracket(digest, View(), bracket, dims)
    {
      hide FeatureId, Displace, RevisionName, WithValues, RecomputedAll;
      if bracket == "" || !dims.Positive()
        || dims.thickness.value >= dims.length.value || dims.thickness.value >= dims.width.value
      {
        return Err(InvalidValue);
      }
      var ids := BracketIds(bracket);
      if exists id :: id in ids && id !in active.features { return Err(FeatureNotFound(bracket)); }
      var displaced := Displace(View(), "historical-edit", "historical-edit:" + bracket);
      if displaced.Err? { return Err(displaced.error); }
      var (name, named) := displaced.value;
      var features := RefreshBracket(bracket, dims);
      var operation := HistoricalEdit(FeatureId(bracket, Base), "dimensions", dims.length, ids, ids, [], [], Some(name));
      r := Ok((NextEvent(View(), operation, Snapshot(RevisionName(eventOrdinal + 1), features), named),
               Evaluation(ids, ids, [], [])));
    }

    /** First all five values, then all five fingerprints, in bracket order. */
    method RefreshBracket(bracket: string, dims: Dimensions) returns (features: FeatureMap)
      ensures features == RecomputedAll(digest, WithValues(active.features, bracket, dims, PARTS), bracket, PARTS)
    {
      hide WithValue, Recomputed;
      features := active.features;
      for n := 0 to |PARTS|
        invariant features == WithValues(active.features, bracket, dims, PARTS[..n])
      {
        assert PARTS[..n + 1][..n] == PARTS[..n];
        features := WithValue(features, bracket, dims, PARTS[n]);
      }
      assert PARTS[..|PARTS|] == PARTS;
      ghost var valued := features;
      for n := 0 to |PARTS|
        invariant features == RecomputedAll(digest, valued, bracket, PARTS[..n])
      {
        assert PARTS[..n + 1][..n] == PARTS[..n];
        features := Recomputed(digest, features, bracket, PARTS[n]);
      }
    }

    method HistoricalEditOf(id: string, parameter: string, value: F64) returns (r: Result<Edited, HistoryError>)
      ensures r == EditFeature(digest, View(), id, parameter, value)
    {
      hide Displace, RevisionName, Reachable, TopologicalOrder;
      if !value.Finite? { return Err(InvalidValue); }
      if id !in active.features { return Err(FeatureNotFound(id)); }
      var displaced := Displace(View(), "historical-edit", "historical-edit:" + id);
      if displaced.Err? { return Err(displaced.error); }
      var (name, named) := displaced.value;
      var dirty := ReachableFeatures(active.features, id);
      if dirty.Err? { return Err(dirty.error); }
      var order := OrderDirty(active.features, dirty.value);
      if order.Err? { return Err(order.error); }
      OrderSound(active.features, set x | x in dirty.value);
      var p := EvaluateDirty(Edit(id, parameter, value, dirty.value), order.value);
      var operation := HistoricalEdit(id, parameter, value, dirty.value, p.evaluated, p.blocked, p.diagnostics, Some(name));
      r := Ok((NextEvent(View(), operation, Snapshot(RevisionName(eventOrdinal + 1), p.features), named),
               Evaluation(dirty.value, p.evaluated, p.blocked, p.diagnostics)));
    }

    /** The evaluation loop of one feature edit. */
    method EvaluateDirty(edit: Edit, order: seq<string>) returns (p: Progress)
      requires forall x :: x in order ==> x in active.features
      ensures p == EvaluateAll(digest, edit, active.features, order)
    {
      hide EvaluateOne;
      p := Start(active.features);
      for n := 0 to |order|
        invariant p == EvaluateAll(digest, edit, active.features, order[..n])
      {
        assert order[..n + 1][..n] == order[..n];
        p := EvaluateOne(digest, edit, p, order[n]);
      }
      assert order[..|order|] == order;
    }

    method FindCursorTarget(log: seq<Event>, direction: Direction) returns (r: Result<Position, HistoryError>)
      ensures r == CursorTarget(View(), log, direction)
    {
      hide Positions, TrailingShift;
      if !LogEndsHere(View(), log) { return Err(InvalidEvent(LogEndsElsewhere)); }
      var positions := CollectPositions(log);
      var cursor := ReplayCursor(log, |positions| - 1);
      if !(0 <= cursor < |positions|) { return Err(InvalidEvent(CursorLeftTimeline)); }
      if positions[cursor].snapshot != active { return Err(InvalidEvent(SnapshotNotReproduced)); }
      if direction == Backward {
        var i := cursor;
        while i > 0
          invariant 0 <= i <= cursor
          invariant NearestBefore(positions, active, cursor) == NearestBefore(positions, active, i)
        {
          i := i - 1;
          if positions[i].snapshot != active { return Ok(positions[i]); }
        }
        r := Err(NothingToUndo);
      } else {
        var i := cursor + 1;
        while i < |positions|
          invariant cursor < i <= |positions|
          invariant NearestFrom(positions, active, cursor + 1) == NearestFrom(positions, active, i)
        {
          if positions[i].snapshot != active { return Ok(positions[i]); }
          i := i + 1;
        }
        r := Err(NothingToRedo);
      }
    }

    method Move(log: seq<Event>, direction: Direction) returns (r: Result<Event, HistoryError>)
      ensures r == MoveCursor(View(), log, direction)
    {
      hide MoveTo, CursorTarget;
      var target := FindCursorTarget(log, direction);
      r := if target.Err? then Err(target.error) else MoveTo(View(), direction, target.value);
    }
  }
}
