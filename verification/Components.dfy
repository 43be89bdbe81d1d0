/** Component definitions, the instances that use them, and the commands that grow the graph. */
module Components {
  import opened Wrappers
  import opened Ordering
  import opened Text
  import opened HistoryModel

  datatype Descriptor = Descriptor(featureId: string, length: F64, width: F64, height: F64, thickness: F64)

  datatype Definition = Definition(id: string, selected: seq<string>, descriptor: Descriptor)

  datatype Transform = Transform(x: F64, y: F64, z: F64)
  {
    predicate IsFinite() { x.Finite? && y.Finite? && z.Finite? }
  }

  datatype Reuse = Linked | Independent(sourceInstanceId: string, sourceDefinitionId: string)

  datatype Instance = Instance(id: string, definitionId: string, transform: Transform, reuse: Reuse)

  datatype Graph = Graph(definitions: map<string, Definition>, instances: map<string, Instance>)

  const EMPTY: Graph := Graph(map[], map[])

  datatype Command =
    | Define(definition: Definition)
    | Capture(definitionId: string, selected: seq<string>, descriptor: Descriptor)
    | CreateInstance(instance: Instance)
    | TransformInstance(instanceId: string, transform: Transform)
    | MakeIndependent(sourceInstanceId: string, definitionId: string, instanceId: string, featureId: string)
    | EditParameter(definitionId: string, parameter: string, value: F64)

  /** Why a lookup fails. */
  datatype Miss = Lost | IsAmbiguous | IsIncompatible

  datatype ComponentError =
    | NotPlain | BadSelection | NotPositive | IdInUse | FeatureIdInUse | NotLinked | BadInstance
    | DefinitionMissing(miss: Miss) | InstanceMissing(miss: Miss)
    | NotFinite | IndependentIdsInUse | BadValue | UnknownParameter

  // ---------- Semantic references ----------

  datatype SemanticReference = SemanticReference(id: string, expectedKind: string)

  datatype ReferenceOutcome = Resolved(id: string) | Ambiguous | NoCandidate | Incompatible

  type Candidate = (string, string)

  function WithId(candidates: seq<Candidate>, id: string): seq<Candidate> {
    if candidates == [] then [] else
    (if candidates[0].0 == id then [candidates[0]] else []) + WithId(candidates[1..], id)
  }

  /** Only the stable id and kind decide; positions are never considered. */
  function ResolveSemanticReference(reference: SemanticReference, candidates: seq<Candidate>): ReferenceOutcome {
    var matches := WithId(candidates, reference.id);
    if |matches| == 0 then NoCandidate
    else if |matches| == 1 && matches[0].1 == reference.expectedKind then Resolved(reference.id)
    else if |matches| == 1 then Incompatible
    else Ambiguous
  }

  const DEFINITION := "definition"
  const INSTANCE := "instance"

  function OfKind(ids: seq<string>, kind: string): (r: seq<Candidate>)
    ensures |r| == |ids| && forall i :: 0 <= i < |ids| ==> r[i] == (ids[i], kind)
  {
    seq(|ids|, i requires 0 <= i < |ids| => (ids[i], kind))
  }

  function Keys(ids: set<string>): (r: seq<string>)
    ensures |r| == |ids|
    ensures forall x :: x in r <==> x in ids
    ensures forall i, j :: 0 <= i < j < |r| ==> r[i] != r[j]
  {
    TextOrder();
    Ascending(ids, TextLe)
  }

  /** What a graph offers to a lookup: its definitions, then its instances, each in the order of their ids. */
  function Candidates(g: Graph): seq<Candidate> {
    OfKind(Keys(g.definitions.Keys), DEFINITION) + OfKind(Keys(g.instances.Keys), INSTANCE)
  }

  function IfId(c: Candidate, id: string): seq<Candidate> { if c.0 == id then [c] else [] }

  lemma {:induction false} WithIdFirst(c: Candidate, rest: seq<Candidate>, id: string)
    ensures WithId([c] + rest, id) == IfId(c, id) + WithId(rest, id)
  {
    assert ([c] + rest)[1..] == rest;
  }

  lemma {:induction false} WithIdAppend(a: seq<Candidate>, b: seq<Candidate>, id: string)
    ensures WithId(a + b, id) == WithId(a, id) + WithId(b, id)
  {
    if a == [] {
      assert a + b == b;
    } else {
      hide WithId, IfId;
      assert a == [a[0]] + a[1..] && a + b == [a[0]] + (a[1..] + b);
      WithIdAppend(a[1..], b, id);
      WithIdFirst(a[0], a[1..], id);
      WithIdFirst(a[0], a[1..] + b, id);
    }
  }

  lemma {:induction false} WithIdOfDistinct(ids: seq<string>, kind: string, id: string)
    requires forall i, j :: 0 <= i < j < |ids| ==> ids[i] != ids[j]
    ensures WithId(OfKind(ids, kind), id) == if id in ids then [(id, kind)] else []
  {
    if ids != [] {
      WithIdOfDistinct(ids[1..], kind, id);
      assert OfKind(ids, kind)[1..] == OfKind(ids[1..], kind);
      assert id in ids <==> id == ids[0] || id in ids[1..];
    }
  }

  function Lookup(g: Graph, id: string, kind: string): ReferenceOutcome {
    ResolveSemanticReference(SemanticReference(id, kind), Candidates(g))
  }

  /** The meaning of a lookup on any graph at all: it resolves exactly an id held once, by an object of that kind. */
  lemma {:induction false} LookupMeaning(g: Graph, id: string, kind: string)
    requires kind == DEFINITION || kind == INSTANCE
    ensures Lookup(g, id, kind) ==
      if id in g.definitions && id in g.instances then Ambiguous
      else if id !in g.definitions && id !in g.instances then NoCandidate
      else if id in (if kind == DEFINITION then g.definitions.Keys else g.instances.Keys) then Resolved(id)
      else Incompatible
  {
    Found(g, id);
    assert DEFINITION[0] != INSTANCE[0];
  }

  /** The candidates with a given id: at most one definition, then at most one instance. */
  lemma {:induction false} Found(g: Graph, id: string)
    ensures WithId(Candidates(g), id) ==
      (if id in g.definitions then [(id, DEFINITION)] else []) + (if id in g.instances then [(id, INSTANCE)] else [])
  {
    hide WithId, OfKind, Keys;
    var d, i := Keys(g.definitions.Keys), Keys(g.instances.Keys);
    WithIdAppend(OfKind(d, DEFINITION), OfKind(i, INSTANCE), id);
    WithIdOfDistinct(d, DEFINITION, id);
    WithIdOfDistinct(i, INSTANCE, id);
  }

  function MissOf(outcome: ReferenceOutcome): Miss
    requires !outcome.Resolved?
  {
    match outcome
    case Ambiguous => IsAmbiguous
    case NoCandidate => Lost
    case Incompatible => IsIncompatible
  }

  function RequireDefinition(g: Graph, id: string): (r: Result<Definition, ComponentError>)
    ensures r.Ok? <==> id in g.definitions && id !in g.instances
    ensures r.Ok? ==> r.value == g.definitions[id]
    ensures r == Err(DefinitionMissing(IsAmbiguous)) <==> id in g.definitions && id in g.instances
  {
    LookupMeaning(g, id, DEFINITION);
    var outcome := Lookup(g, id, DEFINITION);
    if outcome.Resolved? then Ok(g.definitions[id]) else Err(DefinitionMissing(MissOf(outcome)))
  }

  function RequireInstance(g: Graph, id: string): (r: Result<Instance, ComponentError>)
    ensures r.Ok? <==> id in g.instances && id !in g.definitions
    ensures r.Ok? ==> r.value == g.instances[id]
    ensures r == Err(InstanceMissing(IsAmbiguous)) <==> id in g.definitions && id in g.instances
  {
    LookupMeaning(g, id, INSTANCE);
    var outcome := Lookup(g, id, INSTANCE);
    if outcome.Resolved? then Ok(g.instances[id]) else Err(InstanceMissing(MissOf(outcome)))
  }

  // ---------- Checks ----------

  predicate Plain(id: string) {
    id != "" && forall c :: c in id ==>
      'a' <= c <= 'z' || 'A' <= c <= 'Z' || '0' <= c <= '9' || c == '_' || c == '-'
  }

  predicate ValidSelection(ids: seq<string>) {
    && (forall id :: id in ids ==> Plain(id))
    && (forall i :: 0 <= i < |ids| - 1 ==> !TextLe(ids[i + 1], ids[i]))
  }

  predicate PositiveDimensions(d: Descriptor) {
    d.length.IsPositive() && d.width.IsPositive() && d.height.IsPositive() && d.thickness.IsPositive()
  }

  predicate InUse(g: Graph, id: string) { id in g.definitions || id in g.instances }

  predicate FeatureInUse(g: Graph, featureId: string) {
    exists id :: id in g.definitions && g.definitions[id].descriptor.featureId == featureId
  }

  predicate IsParameter(parameter: string) {
    parameter == "length" || parameter == "width" || parameter == "height" || parameter == "thickness"
  }

  function WithParameter(d: Descriptor, parameter: string, value: F64): Descriptor
    requires IsParameter(parameter)
  {
    if parameter == "length" then d.(length := value)
    else if parameter == "width" then d.(width := value)
    else if parameter == "height" then d.(height := value)
    else d.(thickness := value)
  }

  // ---------- One command on a graph ----------

  function DefineIn(g: Graph, d: Definition): Result<Graph, ComponentError> {
    if !Plain(d.id) || !Plain(d.descriptor.featureId) then Err(NotPlain)
    else if !ValidSelection(d.selected) then Err(BadSelection)
    else if !PositiveDimensions(d.descriptor) then Err(NotPositive)
    else if InUse(g, d.id) then Err(IdInUse)
    else if FeatureInUse(g, d.descriptor.featureId) then Err(FeatureIdInUse)
    else Ok(g.(definitions := g.definitions[d.id := d]))
  }

  function CreateIn(g: Graph, i: Instance): Result<Graph, ComponentError> {
    if !i.reuse.Linked? then Err(NotLinked)
    else if i.definitionId == "" || !Plain(i.id) || !i.transform.IsFinite() then Err(BadInstance)
    else match RequireDefinition(g, i.definitionId)
      case Err(e) => Err(e)
      case Ok(_) => if InUse(g, i.id) then Err(IdInUse) else Ok(g.(instances := g.instances[i.id := i]))
  }

  function SeparateIn(g: Graph, source: string, definitionId: string, instanceId: string, featureId: string)
    : Result<Graph, ComponentError>
  {
    match RequireInstance(g, source)
    case Err(e) => Err(e)
    case Ok(from) =>
      match RequireDefinition(g, from.definitionId)
      case Err(e) => Err(e)
      case Ok(shape) =>
        if !Plain(instanceId) || !Plain(definitionId) || !Plain(featureId) || definitionId == instanceId
          || InUse(g, definitionId) || InUse(g, instanceId) || FeatureInUse(g, featureId)
        then Err(IndependentIdsInUse)
        else
          var copy := shape.(id := definitionId, descriptor := shape.descriptor.(featureId := featureId));
          var separate := Instance(instanceId, definitionId, from.transform, Independent(source, from.definitionId));
          Ok(Graph(g.definitions[definitionId := copy], g.instances[instanceId := separate]))
  }

  function TransformIn(g: Graph, instanceId: string, transform: Transform): Result<Graph, ComponentError> {
    if !transform.IsFinite() then Err(NotFinite)
    else match RequireInstance(g, instanceId)
      case Err(e) => Err(e)
      case Ok(i) => Ok(g.(instances := g.instances[instanceId := i.(transform := transform)]))
  }

  function EditIn(g: Graph, definitionId: string, parameter: string, value: F64): Result<Graph, ComponentError> {
    if !value.IsPositive() then Err(BadValue)
    else match RequireDefinition(g, definitionId)
      case Err(e) => Err(e)
      case Ok(d) =>
        if !IsParameter(parameter) then Err(UnknownParameter)
        else
          var edited := d.(descriptor := WithParameter(d.descriptor, parameter, value));
          Ok(g.(definitions := g.definitions[definitionId := edited]))
  }

  function Applied(g: Graph, command: Command): Result<Graph, ComponentError> {
    match command
    case Define(d) => DefineIn(g, d)
    case Capture(id, selected, descriptor) => DefineIn(g, Definition(id, selected, descriptor))
    case CreateInstance(i) => CreateIn(g, i)
    case TransformInstance(id, t) => TransformIn(g, id, t)
    case MakeIndependent(s, d, i, f) => SeparateIn(g, s, d, i, f)
    case EditParameter(id, p, v) => EditIn(g, id, p, v)
  }

  /** The graph after a command, which is the same graph when the command fails. */
  function After(g: Graph, command: Command): Graph {
    match Applied(g, command) case Ok(h) => h case Err(_) => g
  }

  // ---------- The graph as the program keeps it ----------

  class ComponentGraph {
    var definitions: map<string, Definition>
    var instances: map<string, Instance>

    function View(): Graph
      reads this
    {
      Graph(definitions, instances)
    }

    constructor ()
      ensures View() == EMPTY
    {
      definitions, instances := map[], map[];
    }

    /** One command; a failing one changes nothing. */
    method Apply(command: Command) returns (r: Result<(), ComponentError>)
      modifies this
      ensures View() == After(old(View()), command)
      ensures r == match Applied(old(View()), command) case Ok(_) => Ok(()) case Err(e) => Err(e)
      decreases if command.Capture? then 1 else 0
    {
      hide Lookup, FeatureInUse, ValidSelection, PositiveDimensions;
      match command
      case Define(d) =>
        if !Plain(d.id) || !Plain(d.descriptor.featureId) { return Err(NotPlain); }
        if !ValidSelection(d.selected) { return Err(BadSelection); }
        if !PositiveDimensions(d.descriptor) { return Err(NotPositive); }
        if InUse(View(), d.id) { return Err(IdInUse); }
        if FeatureInUse(View(), d.descriptor.featureId) { return Err(FeatureIdInUse); }
        definitions := definitions[d.id := d];
        r := Ok(());
      case Capture(id, selected, descriptor) =>
        r := Apply(Define(Definition(id, selected, descriptor)));
      case CreateInstance(i) =>
        if !i.reuse.Linked? { return Err(NotLinked); }
        if i.id == "" || i.definitionId == "" || !Plain(i.id) || !i.transform.IsFinite() { return Err(BadInstance); }
        var found := RequireDefinition(View(), i.definitionId);
        if found.Err? { return Err(found.error); }
        if InUse(View(), i.id) { return Err(IdInUse); }
        instances := instances[i.id := i];
        r := Ok(());
      case TransformInstance(id, transform) =>
        if !transform.IsFinite() { return Err(NotFinite); }
        var found := RequireInstance(View(), id);
        if found.Err? { return Err(found.error); }
        instances := instances[id := found.value.(transform := transform)];
        r := Ok(());
      case MakeIndependent(_, _, _, _) =>
        r := Separate(command);
      case EditParameter(id, parameter, value) =>
        if !value.IsPositive() { return Err(BadValue); }
        var found := RequireDefinition(View(), id);
        if found.Err? { return Err(found.error); }
        if !IsParameter(parameter) { return Err(UnknownParameter); }
        var descriptor := WithParameter(found.value.descriptor, parameter, value);
        definitions := definitions[id := found.value.(descriptor := descriptor)];
        r := Ok(());
    }

    method Separate(command: Command) returns (r: Result<(), ComponentError>)
      requires command.MakeIndependent?
      modifies this
      ensures View() == After(old(View()), command)
      ensures r == match Applied(old(View()), command) case Ok(_) => Ok(()) case Err(e) => Err(e)
      decreases 0
    {
      hide Lookup, FeatureInUse;
      var MakeIndependent(sourceId, definitionId, instanceId, featureId) := command;
      var source := RequireInstance(View(), sourceId);
      if source.Err? { return Err(source.error); }
      var definition := RequireDefinition(View(), source.value.definitionId);
      if definition.Err? { return Err(definition.error); }
      if instanceId == "" || !Plain(instanceId) || !Plain(definitionId) || !Plain(featureId)
        || definitionId == instanceId || InUse(View(), definitionId) || InUse(View(), instanceId)
        || FeatureInUse(View(), featureId)
      {
        return Err(IndependentIdsInUse);
      }
      var d := definition.value;
      definitions := definitions[definitionId := d.(id := definitionId, descriptor := d.descriptor.(featureId := featureId))];
      instances := instances[instanceId := Instance(instanceId, definitionId, source.value.transform,
        Independent(sourceId, source.value.definitionId))];
      r := Ok(());
    }
  }
}
