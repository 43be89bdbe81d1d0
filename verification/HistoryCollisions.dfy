/** Fingerprints where bracket ids collide: exactly when one initialization or bracket edit keeps them consistent. */
module HistoryCollisions {
  import opened Wrappers
  import opened HistoryModel
  import opened HistoryGraph
  import opened HistoryEvaluation
  import opened HistoryEvents
  import opened HistoryOperations
  import opened HistoryAcceptance
  import opened HistoryRuns
  import opened HistoryFingerprints
  import opened HistoryCursor

  // ---------- One new bracket or bracket edit ----------

  ghost predicate RestsOnBracket(f: Feature, bracket: string) {
    exists d :: d in f.dependencies && IsPart(bracket, d)
  }

  /** No current feature outside the bracket that rests on its parts would get another fingerprint from them now. */
  ghost predicate Unnoticed(h: Digest, before: FeatureMap, after: FeatureMap, bracket: string) {
    forall k :: k in before && !IsPart(bracket, k) && before[k].status == CurrentValid && RestsOnBracket(before[k], bracket) ==>
      before[k].fingerprint == Some(GeometryFingerprint(h, before[k], after))
  }

  /** The parts of the bracket are all current, and nothing else has changed. */
  ghost predicate OnlyBracketChanged(before: FeatureMap, after: FeatureMap, bracket: string) {
    && (forall k :: k in before ==> k in after && (!IsPart(bracket, k) ==> after[k] == before[k]))
    && (forall k :: k in after && !IsPart(bracket, k) ==> k in before)
    && (forall p :: FeatureId(bracket, p) in after && after[FeatureId(bracket, p)].status == CurrentValid)
  }

  lemma {:induction false} OutsiderSettledIff(h: Digest, before: FeatureMap, after: FeatureMap, bracket: string, k: string)
    requires Settled(h, before, k) && OnlyBracketChanged(before, after, bracket) && !IsPart(bracket, k)
    ensures Settled(h, after, k) <==>
      (RestsOnBracket(before[k], bracket) ==> before[k].fingerprint == Some(GeometryFingerprint(h, before[k], after)))
  {
    hide FeatureId, GeometryFingerprint;
    forall d | d in before[k].dependencies ensures d in after && after[d].status == CurrentValid {
      if IsPart(bracket, d) {
        var p :| d == FeatureId(bracket, p);
      }
    }
    if !RestsOnBracket(before[k], bracket) { StaysSettled(h, before, after, k); }
  }

  /** A consistent map in which one bracket is replaced stays consistent exactly when its parts settle and nobody notices. */
  lemma {:induction false} ReplacedConsistentIff(h: Digest, before: FeatureMap, after: FeatureMap, bracket: string)
    requires Merkle(h, before) && OnlyBracketChanged(before, after, bracket)
    ensures Merkle(h, after) <==>
      Unnoticed(h, before, after, bracket) && forall p :: Settled(h, after, FeatureId(bracket, p))
  {
    hide FeatureId, Settled, GeometryFingerprint, RestsOnBracket;
    forall k | k in before && !IsPart(bracket, k) && before[k].status == CurrentValid
      ensures Settled(h, after, k) <==>
        (RestsOnBracket(before[k], bracket) ==> before[k].fingerprint == Some(GeometryFingerprint(h, before[k], after)))
    {
      OutsiderSettledIff(h, before, after, bracket, k);
    }
    if Unnoticed(h, before, after, bracket) && forall p :: Settled(h, after, FeatureId(bracket, p)) {
      forall k | k in after && after[k].status == CurrentValid ensures Settled(h, after, k) {
        if IsPart(bracket, k) {
          var p :| k == FeatureId(bracket, p);
        }
      }
    }
    if Merkle(h, after) {
      forall p ensures Settled(h, after, FeatureId(bracket, p)) {}
    }
  }

  /** A new bracket keeps a consistent map consistent exactly when no feature that rests on its parts notices. */
  lemma {:induction false} InitializeKeepsIff(h: Digest, features: FeatureMap, bracket: string, dims: Dimensions)
    requires Merkle(h, features)
    ensures var r := features + BracketFeatures(h, bracket, dims);
      Merkle(h, r) <==> Unnoticed(h, features, r, bracket)
  {
    hide FeatureId, BracketFeatures, Merkle, Unnoticed, GeometryFingerprint;
    var m := BracketFeatures(h, bracket, dims);
    var r := features + m;
    forall p ensures Settled(h, r, FeatureId(bracket, p)) {
      BracketShape(h, bracket, dims, p);
      BracketSettled(h, bracket, dims, p);
      StaysSettled(h, m, r, FeatureId(bracket, p));
    }
    BracketShape(h, bracket, dims, Base);
    forall k | k in features && !IsPart(bracket, k) ensures k !in m {}
    ReplacedConsistentIff(h, features, r, bracket);
  }

  /** What the parts rest on outside the bracket is current. */
  ghost predicate OutsideCurrent(features: FeatureMap, bracket: string)
    requires HoldsBracket(features, bracket)
  {
    forall p, d :: d in features[FeatureId(bracket, p)].dependencies && !IsPart(bracket, d) ==>
      d in features && features[d].status == CurrentValid
  }

  lemma {:induction false} EditedPartSettledIff(h: Digest, features: FeatureMap, bracket: string, dims: Dimensions, p: Part)
    requires PartsOrdered(features, bracket)
    ensures var r := EditedBracket(h, features, bracket, dims);
      var k := FeatureId(bracket, p);
      Settled(h, r, k) <==> forall d :: d in features[k].dependencies && !IsPart(bracket, d) ==>
        d in features && features[d].status == CurrentValid
  {
    hide FeatureId, GeometryFingerprint, WithValues, RecomputedAll;
    var r := EditedBracket(h, features, bracket, dims);
    EditedBracketShape(h, features, bracket, dims);
    EditedFingerprint(h, features, bracket, dims, p);
    var k := FeatureId(bracket, p);
    assert Refreshed(features[k].(inputValue := dims.Of(p)), r[k]);
    forall d | d in features[k].dependencies && IsPart(bracket, d) ensures d in r && r[d].status == CurrentValid {
      var q :| d == FeatureId(bracket, q);
      assert Refreshed(features[d].(inputValue := dims.Of(q)), r[d]);
    }
  }

  /** A bracket edit keeps a consistent map consistent exactly when what the parts rest on is current and nobody notices. */
  lemma {:induction false} EditBracketKeepsIff(h: Digest, features: FeatureMap, bracket: string, dims: Dimensions)
    requires Merkle(h, features) && PartsOrdered(features, bracket)
    ensures var r := EditedBracket(h, features, bracket, dims);
      Merkle(h, r) <==> Unnoticed(h, features, r, bracket) && OutsideCurrent(features, bracket)
  {
    hide FeatureId, Settled, EditedBracket, Merkle, Unnoticed, PartsOrdered;
    var r := EditedBracket(h, features, bracket, dims);
    assert HoldsBracket(features, bracket) by { OrderedHolds(features, bracket); }
    EditedBracketShape(h, features, bracket, dims);
    forall p ensures FeatureId(bracket, p) in r && r[FeatureId(bracket, p)].status == CurrentValid {
      var k := FeatureId(bracket, p);
      assert Refreshed(features[k].(inputValue := dims.Of(p)), r[k]);
    }
    ReplacedConsistentIff(h, features, r, bracket);
    forall p ensures Settled(h, r, FeatureId(bracket, p)) <==>
      forall d :: d in features[FeatureId(bracket, p)].dependencies && !IsPart(bracket, d) ==>
        d in features && features[d].status == CurrentValid
    {
      EditedPartSettledIff(h, features, bracket, dims, p);
    }
  }

  lemma {:induction false} OrderedHolds(features: FeatureMap, bracket: string)
    requires PartsOrdered(features, bracket)
    ensures HoldsBracket(features, bracket)
  {
  }

  // ---------- In every run ----------

  /** Even where brackets collide, no part of one depends on a part of it that is recomputed later. */
  lemma {:induction false} ShapedOrdered(features: FeatureMap, brackets: set<string>, bracket: string)
    requires Shaped(features, brackets) && HoldsBracket(features, bracket)
    ensures PartsOrdered(features, bracket)
  {
    hide FeatureId;
    forall i, j | 0 <= i <= j < |PARTS|
      ensures FeatureId(bracket, PARTS[j]) !in features[FeatureId(bracket, PARTS[i])].dependencies
    {
      var k := FeatureId(bracket, PARTS[i]);
      var b, q :| IsPartOf(features, brackets, k, b, q);
      PartsInOrder(i, j);
      if DependencyPart(q).Some? { NotTheLater(bracket, PARTS[i], PARTS[j], b, q); }
    }
  }

  lemma {:induction false} NotTheLater(bracket: string, p: Part, r: Part, b: string, q: Part)
    requires FeatureId(bracket, p) == FeatureId(b, q) && DependencyPart(q).Some?
    requires DependencyPart(p) != Some(r)
    requires p == Finish ==> r != Base
    ensures FeatureId(bracket, r) != FeatureId(b, DependencyPart(q).value)
  {
    hide FeatureId;
    var d := DependencyPart(q).value;
    if FeatureId(bracket, r) == FeatureId(b, d) {
      NoCollision(bracket, b, p, q);
      NoCollision(bracket, b, r, d);
      if bracket == b {
        PartIdsDistinct(b, p, q);
        PartIdsDistinct(b, r, d);
        assert false;
      } else if b == bracket + "-independent" {
        IndependentIds(bracket);
      } else {
        IndependentIds(b);
        if p == Base { PartIdsDistinct(b, q, IndependentBase); }
        if p == Finish { PartIdsDistinct(b, q, IndependentFinish); }
        if r == Finish { PartIdsDistinct(b, d, IndependentFinish); }
      }
    }
  }

  lemma {:induction false} InitializeKeepsShape(h: Digest, features: FeatureMap, brackets: set<string>, bracket: string, dims: Dimensions)
    requires Shaped(features, brackets) && bracket in brackets
    ensures Shaped(features + BracketFeatures(h, bracket, dims), brackets)
  {
    hide FeatureId, BracketFeatures;
    var r := features + BracketFeatures(h, bracket, dims);
    BracketShape(h, bracket, dims, Base);
    forall p ensures var k := FeatureId(bracket, p);
      k in r && r[k].id == k && r[k].dependencies == PartDependencies(bracket, p)
    {
      BracketShape(h, bracket, dims, p);
    }
    forall k | k in r && !IsPart(bracket, k) ensures k in features && r[k] == features[k] {}
    BracketReplacedShape(features, r, brackets, bracket);
  }

  lemma {:induction false} EditBracketKeepsShape(h: Digest, features: FeatureMap, brackets: set<string>, bracket: string, dims: Dimensions)
    requires Shaped(features, brackets) && HoldsBracket(features, bracket)
    ensures Shaped(EditedBracket(h, features, bracket, dims), brackets)
  {
    hide FeatureId, EditedBracket;
    var r := EditedBracket(h, features, bracket, dims);
    EditedBracketShape(h, features, bracket, dims);
    forall k | k in r ensures exists c, q :: IsPartOf(r, brackets, k, c, q) {
      var c, q :| IsPartOf(features, brackets, k, c, q);
      if IsPart(bracket, k) {
        var p :| k == FeatureId(bracket, p);
        assert Refreshed(features[k].(inputValue := dims.Of(p)), r[k]);
      }
      assert IsPartOf(r, brackets, k, c, q);
    }
  }

  lemma {:induction false} NewSnapshotShaped(h: Digest, x: Session, c: Command, brackets: set<string>)
    requires ValidState(x.state) && Shaped(x.state.active.features, brackets)
    requires c.Init? ==> c.bracket in brackets
    requires MakesSnapshot(c) && Build(h, x.state, x.log, c).Ok?
    ensures Shaped(Build(h, x.state, x.log, c).value.active.features, brackets)
  {
    hide Displace, RevisionName, Shaped, RecomputedAll, WithValues, EvaluateAll, Suffix, WithParts;
    var features := x.state.active.features;
    match c {
      case Init(b, d) => InitializeKeepsShape(h, features, brackets, b, d);
      case ReviseBracket(b, d) =>
        BracketIdsHold(features, b);
        EditBracketKeepsShape(h, features, brackets, b, d);
      case ReviseFeature(id, parameter, v) =>
        var edit, order, p, b := EditOutcome(h, x.state, id, parameter, v);
        EditKeepsShape(h, edit, features, order, p, b, brackets);
    }
  }

  /** In every run, colliding ids or not, every feature has the dependencies of a part of some initialized bracket. */
  lemma {:induction false} RunShaped(h: Digest, commands: seq<Command>, brackets: set<string>)
    requires InitializedBrackets(commands) <= brackets
    ensures Everywhere(Run(h, commands), (x: Snapshot) => Shaped(x.features, brackets))
  {
    hide Build, Apply, Shaped, Execute;
    var good := (x: Snapshot) => Shaped(x.features, brackets);
    assert Shaped(GENESIS.features, brackets) by { NothingShaped(brackets); }
    if commands != [] {
      var n := |commands| - 1;
      var c := commands[n];
      InitializedGrows(commands);
      RunShaped(h, commands[..n], brackets);
      var x := Run(h, commands[..n]);
      RunReplays(h, commands[..n]);
      AcceptedLog(x.log);
      if MakesSnapshot(c) && Build(h, x.state, x.log, c).Ok? { NewSnapshotShaped(h, x, c, brackets); }
      ExecuteKeeps(h, x, c, good);
    }
  }

  lemma {:induction false} NothingShaped(brackets: set<string>)
    ensures Shaped(map[], brackets)
  {
  }

  /** What a new snapshot needs for its fingerprints to be consistent, in terms of the features before it. */
  ghost predicate KeepsConsistent(h: Digest, features: FeatureMap, c: Command) {
    match c
    case Init(b, d) => Unnoticed(h, features, features + BracketFeatures(h, b, d), b)
    case ReviseBracket(b, d) =>
      HoldsBracket(features, b) && Unnoticed(h, features, EditedBracket(h, features, b, d), b) && OutsideCurrent(features, b)
    case _ => true
  }

  /**
   * In every run, whatever the ids: from a consistent snapshot a command that makes a new one makes a consistent one
   * exactly when no feature resting on the bracket would notice and the bracket rests on what is current.
   */
  lemma {:induction false} RunStepConsistentIff(h: Digest, commands: seq<Command>, c: Command)
    requires var x := Run(h, commands);
      Merkle(h, x.state.active.features) && MakesSnapshot(c) && Build(h, x.state, x.log, c).Ok?
    ensures var x := Run(h, commands);
      Merkle(h, Build(h, x.state, x.log, c).value.active.features) <==> KeepsConsistent(h, x.state.active.features, c)
  {
    hide Displace, RevisionName, Run, Shaped, Merkle, Unnoticed, EditFeature, FeatureId, BracketFeatures, RecomputedAll, WithValues;
    var x := Run(h, commands);
    var features := x.state.active.features;
    match c {
      case Init(b, d) => InitializeKeepsIff(h, features, b, d);
      case ReviseBracket(b, d) =>
        BracketIdsHold(features, b);
        RunShaped(h, commands, InitializedBrackets(commands));
        ShapedOrdered(features, InitializedBrackets(commands), b);
        EditBracketKeepsIff(h, features, b, d);
      case ReviseFeature(id, parameter, v) => RunEditConsistent(h, commands, id, parameter, v);
    }
  }

  lemma {:induction false} RunEditConsistent(h: Digest, commands: seq<Command>, id: string, parameter: string, value: F64)
    requires var x := Run(h, commands);
      Merkle(h, x.state.active.features) && EditFeature(h, x.state, id, parameter, value).Ok?
    ensures Merkle(h, EditFeature(h, Run(h, commands).state, id, parameter, value).value.0.active.features)
  {
    hide Run, Merkle, EvaluateAll, EditFeature, Outcome;
    var x := Run(h, commands);
    var features := x.state.active.features;
    RunReplays(h, commands);
    AcceptedLog(x.log);
    var edit, order, p, b := EditOutcome(h, x.state, id, parameter, value);
    DirtyOrdered(features, id);
    assert (set y | y in order) == Closure(features, {id});
    EditKeepsMerkle(h, edit, features, order, p, b);
  }

  ghost function ConsistentSnapshot(h: Digest): Snapshot -> bool {
    (x: Snapshot) => Merkle(h, x.features)
  }

  /** If the command at position `i` brings a new snapshot into the session, it keeps the fingerprints consistent. */
  ghost predicate StepKeepsConsistent(h: Digest, commands: seq<Command>, i: nat)
    requires i < |commands|
  {
    var x, c := Run(h, commands[..i]), commands[i];
    MakesSnapshot(c) && Build(h, x.state, x.log, c).Ok? && Apply(x.state, Build(h, x.state, x.log, c).value).Ok? ==>
      KeepsConsistent(h, x.state.active.features, c)
  }

  /** A session holds every snapshot it held before its last command. */
  lemma {:induction false} EverywhereBefore(h: Digest, x: Session, c: Command, good: Snapshot -> bool)
    requires Replay(x.log) == Ok(x.state) && good(GENESIS) && Everywhere(Execute(h, x, c), good)
    ensures Everywhere(x, good)
  {
    hide Build, Apply, ValidFeatures, ValidNamed;
    var built := Build(h, x.state, x.log, c);
    AcceptedLog(x.log);
    if built.Ok? && Apply(x.state, built.value).Ok? {
      NamedGrows(h, x.state, x.log, c);
      ApplySound(x.state, built.value);
      var y := Execute(h, x, c);
      assert y.log == x.log + [built.value];
      forall i | 0 <= i < |x.log| ensures good(x.log[i].active) { assert y.log[i] == x.log[i]; }
    }
  }

  /** A new snapshot is held by the session that accepts it. */
  lemma {:induction false} NewIsHeld(h: Digest, x: Session, c: Command, good: Snapshot -> bool)
    requires Build(h, x.state, x.log, c).Ok? && Apply(x.state, Build(h, x.state, x.log, c).value).Ok?
    requires Everywhere(Execute(h, x, c), good)
    ensures good(Build(h, x.state, x.log, c).value.active)
  {
    hide Build, Apply;
    ApplySound(x.state, Build(h, x.state, x.log, c).value);
  }

  /**
   * Whole runs, whatever the ids: every snapshot the session holds is consistent exactly when every accepted
   * initialization and bracket edit of the run kept its snapshot consistent.
   */
  lemma {:induction false} RunConsistentIff(h: Digest, commands: seq<Command>)
    ensures Everywhere(Run(h, commands), ConsistentSnapshot(h)) <==>
      forall i :: 0 <= i < |commands| ==> StepKeepsConsistent(h, commands, i)
    decreases |commands|
  {
    hide Build, Apply, Execute, Merkle, KeepsConsistent, StepKeepsConsistent;
    var good := ConsistentSnapshot(h);
    assert good(GENESIS) by { NothingMerkle(h); }
    if commands != [] {
      var n := |commands| - 1;
      var pre := commands[..n];
      var x := Run(h, pre);
      RunConsistentIff(h, pre);
      RunReplays(h, pre);
      forall i | 0 <= i < n ensures StepKeepsConsistent(h, commands, i) == StepKeepsConsistent(h, pre, i) {
        SameStep(h, commands, n, i);
      }
      if Everywhere(Execute(h, x, commands[n]), good) { EverywhereBefore(h, x, commands[n], good); }
      if Everywhere(x, good) { LastStepConsistentIff(h, commands, n); }
    }
  }

  lemma {:induction false} NothingMerkle(h: Digest)
    ensures Merkle(h, map[])
  {
  }

  lemma {:induction false} SameStep(h: Digest, commands: seq<Command>, n: nat, i: nat)
    requires i < n <= |commands|
    ensures StepKeepsConsistent(h, commands, i) == StepKeepsConsistent(h, commands[..n], i)
  {
    hide Build, Apply, Run, KeepsConsistent;
    assert commands[..n][..i] == commands[..i] && commands[..n][i] == commands[i];
  }

  lemma {:induction false} LastStepConsistentIff(h: Digest, commands: seq<Command>, n: nat)
    requires n < |commands| && Everywhere(Run(h, commands[..n]), ConsistentSnapshot(h))
    ensures Everywhere(Execute(h, Run(h, commands[..n]), commands[n]), ConsistentSnapshot(h)) <==>
      StepKeepsConsistent(h, commands, n)
  {
    hide Build, Apply, Execute, Run, Merkle, KeepsConsistent;
    var x, c, good := Run(h, commands[..n]), commands[n], ConsistentSnapshot(h);
    assert good(GENESIS) by { NothingMerkle(h); }
    if MakesSnapshot(c) && Build(h, x.state, x.log, c).Ok? && Apply(x.state, Build(h, x.state, x.log, c).value).Ok? {
      RunStepConsistentIff(h, commands[..n], c);
      if Everywhere(Execute(h, x, c), good) { NewIsHeld(h, x, c, good); }
    }
    if StepKeepsConsistent(h, commands, n) { ExecuteKeeps(h, x, c, good); }
  }

  // ---------- Where brackets collide ----------

  /** The fingerprint of a bend of this width over a base of this length. */
  function BendFingerprint(h: Digest, bracket: string, width: F64, length: F64): string {
    h(Preimage(FeatureId(bracket, Bend), width, 1, [h(Preimage(FeatureId(bracket, Base), length, 0, []))]))
  }

  lemma {:induction false} IndependentIds(x: string)
    ensures FeatureId(x + "-independent", Base) == FeatureId(x, IndependentBase)
    ensures FeatureId(x + "-independent", Finish) == FeatureId(x, IndependentFinish)
    ensures forall p, q :: FeatureId(x + "-independent", p) == FeatureId(x, q) ==> p == Base || p == Finish
  {
    assert "-independent" + "-base" == "-independent-base" && "-independent" + "-finish" == "-independent-finish";
    IndependentId(x, Base);
    IndependentId(x, Finish);
    forall p, q | FeatureId(x + "-independent", p) == FeatureId(x, q) ensures p == Base || p == Finish {
      IndependentId(x, p);
      assert (x + ("-independent" + Suffix(p)))[|x|..] == "-independent" + Suffix(p);
      assert (x + Suffix(q))[|x|..] == Suffix(q);
      if p != Base && p != Finish { NoSuchSuffix(p, q); }
    }
  }

  lemma {:induction false} IndependentId(x: string, p: Part)
    ensures FeatureId(x + "-independent", p) == x + ("-independent" + Suffix(p))
  {
    assert (x + "-independent") + Suffix(p) == x + ("-independent" + Suffix(p));
  }

  lemma {:induction false} NoSuchSuffix(p: Part, q: Part)
    requires p != Base && p != Finish
    ensures "-independent" + Suffix(p) != Suffix(q)
  {
    var s := "-independent" + Suffix(p);
    if |s| == |Suffix(q)| { assert s[14] == 'e' && "-independent-base"[14] == 'a'; }
  }

  lemma {:induction false} BracketSettled(h: Digest, bracket: string, dims: Dimensions, p: Part)
    ensures Settled(h, BracketFeatures(h, bracket, dims), FeatureId(bracket, p))
  {
    hide FeatureId, BracketFeatures;
    BracketShape(h, bracket, dims, p);
    if DependencyPart(p).Some? { BracketShape(h, bracket, dims, DependencyPart(p).value); }
  }

  /** Over a bracket `x-independent`, writing bracket `x` leaves one suspect: the bend over the replaced base. */
  lemma {:induction false} OverlapSettled(h: Digest, x: string, d1: Dimensions, d2: Dimensions, k: string)
    requires var b := x + "-independent";
      k in BracketFeatures(h, b, d1) + BracketFeatures(h, x, d2) && k != FeatureId(b, Bend)
    ensures var b := x + "-independent"; Settled(h, BracketFeatures(h, b, d1) + BracketFeatures(h, x, d2), k)
  {
    hide FeatureId, BracketFeatures;
    var b := x + "-independent";
    var one, two := BracketFeatures(h, b, d1), BracketFeatures(h, x, d2);
    BracketShape(h, x, d2, Base);
    BracketShape(h, b, d1, Base);
    IndependentIds(x);
    if k in two {
      var q :| k == FeatureId(x, q);
      BracketSettled(h, x, d2, q);
      StaysSettled(h, two, one + two, k);
    } else {
      var p :| k == FeatureId(b, p);
      BracketShape(h, x, d2, IndependentBase);
      BracketShape(h, x, d2, IndependentFinish);
      BracketShape(h, b, d1, p);
      BracketSettled(h, b, d1, p);
      forall d | d in one[k].dependencies ensures d in one && d !in two {
        assert p == IndependentFinish && d == FeatureId(b, IndependentBase);
        BracketShape(h, b, d1, IndependentBase);
      }
      StaysSettled(h, one, one + two, k);
    }
  }

  lemma {:induction false} OverlapBend(h: Digest, x: string, d1: Dimensions, d2: Dimensions)
    ensures var b := x + "-independent";
      var r := BracketFeatures(h, b, d1) + BracketFeatures(h, x, d2);
      var k := FeatureId(b, Bend);
      && k in r && r[k].status == CurrentValid
      && r[k].fingerprint == Some(BendFingerprint(h, b, d1.width, d1.length))
      && GeometryFingerprint(h, r[k], r) == BendFingerprint(h, b, d1.width, d2.thickness)
      && forall d :: d in r[k].dependencies ==> d in r && r[d].status == CurrentValid
  {
    hide FeatureId, BracketFeatures;
    var b := x + "-independent";
    var one, two := BracketFeatures(h, b, d1), BracketFeatures(h, x, d2);
    var r := one + two;
    IndependentIds(x);
    BracketShape(h, x, d2, Base);
    BracketShape(h, b, d1, Bend);
    BracketShape(h, b, d1, Base);
    BracketShape(h, x, d2, IndependentBase);
    assert FeatureId(b, Bend) !in two;
    var base := FeatureId(b, Base);
    assert Predecessors(one, []) == [] && Predecessors(two, []) == [];
    assert Predecessors(one, [base]) == [one[base].fingerprint.value];
    assert Predecessors(r, [base]) == [two[base].fingerprint.value];
  }

  /**
   * Two colliding brackets: after initializing `x-independent` and then `x`, the fingerprints are consistent exactly
   * when the digest cannot tell the bend over the old base from the bend over the new one.
   */
  lemma {:induction false} CollidingBracketsIff(h: Digest, x: string, d1: Dimensions, d2: Dimensions)
    requires x != "" && d1.Positive() && d2.Positive()
    ensures var b := x + "-independent";
      Merkle(h, Run(h, [Init(b, d1), Init(x, d2)]).state.active.features) <==>
        BendFingerprint(h, b, d1.width, d1.length) == BendFingerprint(h, b, d1.width, d2.thickness)
  {
    hide FeatureId, BracketFeatures, Apply, RevisionName, ValidFeatures, BendFingerprint;
    var b := x + "-independent";
    assert b != "" by { assert |b| > 0; }
    var commands := [Init(b, d1), Init(x, d2)];
    assert commands == [Init(b, d1)] + [Init(x, d2)];
    Initialized(h, b, d1);
    RunStep(h, [Init(b, d1)], Init(x, d2));
    var s := Run(h, [Init(b, d1)]).state;
    InitializeAccepted(h, s, x, d2);
    ApplySound(s, Initialize(h, s, x, d2).value);
    var r := BracketFeatures(h, b, d1) + BracketFeatures(h, x, d2);
    assert Run(h, commands).state.active.features == r;
    OverlapBend(h, x, d1, d2);
    forall k | k in r && k != FeatureId(b, Bend) ensures Settled(h, r, k) { OverlapSettled(h, x, d1, d2, k); }
    var bend := FeatureId(b, Bend);
    assert Settled(h, r, bend) <==> r[bend].fingerprint == Some(GeometryFingerprint(h, r[bend], r));
  }

  /** In the other order nothing is lost: `x` does not rest on anything that `x-independent` replaces. */
  lemma {:induction false} OtherOrderConsistent(h: Digest, x: string, d1: Dimensions, d2: Dimensions)
    requires x != "" && d1.Positive() && d2.Positive()
    ensures Merkle(h, Run(h, [Init(x, d2), Init(x + "-independent", d1)]).state.active.features)
  {
    hide FeatureId, BracketFeatures, Apply, RevisionName, ValidFeatures, Merkle;
    var b := x + "-independent";
    var one := BracketFeatures(h, x, d2);
    assert b != "" by { assert |b| > 0; }
    assert [Init(x, d2), Init(b, d1)] == [Init(x, d2)] + [Init(b, d1)];
    Initialized(h, x, d2);
    RunStep(h, [Init(x, d2)], Init(b, d1));
    var s := Run(h, [Init(x, d2)]).state;
    InitializeAccepted(h, s, b, d1);
    ApplySound(s, Initialize(h, s, b, d1).value);
    NewBracketMerkle(h, x, d2);
    NothingRests(h, x, d2);
    InitializeKeepsIff(h, one, b, d1);
  }

  lemma {:induction false} NewBracketMerkle(h: Digest, bracket: string, dims: Dimensions)
    ensures Merkle(h, BracketFeatures(h, bracket, dims))
  {
    hide FeatureId, BracketFeatures, Settled;
    BracketShape(h, bracket, dims, Base);
    forall k | k in BracketFeatures(h, bracket, dims) ensures Settled(h, BracketFeatures(h, bracket, dims), k) {
      var q :| k == FeatureId(bracket, q);
      BracketSettled(h, bracket, dims, q);
    }
  }

  lemma {:induction false} NothingRests(h: Digest, x: string, dims: Dimensions)
    ensures var one := BracketFeatures(h, x, dims);
      forall k :: k in one && !IsPart(x + "-independent", k) ==> !RestsOnBracket(one[k], x + "-independent")
  {
    hide FeatureId, BracketFeatures;
    var one, b := BracketFeatures(h, x, dims), x + "-independent";
    BracketShape(h, x, dims, Base);
    IndependentIds(x);
    forall k, d | k in one && !IsPart(b, k) && d in one[k].dependencies ensures !IsPart(b, d) {
      var q :| k == FeatureId(x, q);
      BracketShape(h, x, dims, q);
      forall p ensures d != FeatureId(b, p) {
        if d == FeatureId(b, p) {
          if p == Base { PartIdsDistinct(x, DependencyPart(q).value, IndependentBase); }
          if p == Finish { PartIdsDistinct(x, DependencyPart(q).value, IndependentFinish); }
        }
      }
    }
  }
}
