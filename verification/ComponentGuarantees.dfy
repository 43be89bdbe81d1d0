/** What every graph reached from the empty one keeps. */
module ComponentGuarantees {
  import opened HistoryModel
  import opened Components

  ghost predicate KeysAreIds(g: Graph) {
    && (forall k :: k in g.definitions ==> g.definitions[k].id == k && Plain(k))
    && (forall k :: k in g.instances ==> g.instances[k].id == k && Plain(k))
  }

  ghost predicate DisjointIds(g: Graph) { g.definitions.Keys !! g.instances.Keys }

  ghost predicate DefinitionsExist(g: Graph) {
    forall k :: k in g.instances ==> g.instances[k].definitionId in g.definitions
  }

  ghost predicate FeatureIdsUnique(g: Graph) {
    forall j, k :: j in g.definitions && k in g.definitions && j != k ==>
      g.definitions[j].descriptor.featureId != g.definitions[k].descriptor.featureId
  }

  /** A definition of positive size behind every shape. */
  ghost predicate Positive(g: Graph) {
    forall k :: k in g.definitions ==> PositiveDimensions(g.definitions[k].descriptor)
  }

  /** The instance that `i` was separated from still uses the definition recorded then. */
  ghost predicate SourceKept(g: Graph, i: Instance) {
    i.reuse.Independent? ==>
      && i.reuse.sourceInstanceId in g.instances
      && g.instances[i.reuse.sourceInstanceId].definitionId == i.reuse.sourceDefinitionId
  }

  ghost predicate SourcesKept(g: Graph) {
    forall k :: k in g.instances ==> SourceKept(g, g.instances[k])
  }

  ghost predicate Sound(g: Graph) {
    KeysAreIds(g) && DisjointIds(g) && DefinitionsExist(g) && FeatureIdsUnique(g) && Positive(g) && SourcesKept(g)
  }

  function Run(g: Graph, commands: seq<Command>): Graph
    decreases |commands|
  {
    if commands == [] then g else
    var last := |commands| - 1;
    After(Run(g, commands[..last]), commands[last])
  }

  /** One more definition under a fresh id and with a fresh feature id. */
  lemma {:induction false} AddingDefinition(g: Graph, d: Definition)
    requires Sound(g) && Plain(d.id) && !InUse(g, d.id) && !FeatureInUse(g, d.descriptor.featureId)
    requires PositiveDimensions(d.descriptor)
    ensures Sound(g.(definitions := g.definitions[d.id := d]))
  {
    hide PositiveDimensions, Plain;
  }

  lemma {:induction false} AddingInstance(g: Graph, i: Instance)
    requires Sound(g) && Plain(i.id) && !InUse(g, i.id) && i.definitionId in g.definitions && SourceKept(g, i)
    ensures Sound(g.(instances := g.instances[i.id := i]))
  {
    hide PositiveDimensions, Plain;
  }

  lemma {:induction false} ChangingDefinition(g: Graph, k: string, d: Definition)
    requires Sound(g) && k in g.definitions && d.id == k
    requires d.descriptor.featureId == g.definitions[k].descriptor.featureId && PositiveDimensions(d.descriptor)
    ensures Sound(g.(definitions := g.definitions[k := d]))
  {
    hide PositiveDimensions, Plain;
  }

  lemma {:induction false} Moving(g: Graph, k: string, transform: Transform)
    requires Sound(g) && k in g.instances
    ensures Sound(g.(instances := g.instances[k := g.instances[k].(transform := transform)]))
  {
    hide PositiveDimensions, Plain;
  }

  lemma {:induction false} SeparatingKeeps(g: Graph, command: Command)
    requires Sound(g) && command.MakeIndependent? && Applied(g, command).Ok?
    ensures Sound(After(g, command))
  {
    hide Plain;
    var MakeIndependent(sourceId, definitionId, instanceId, featureId) := command;
    var source := g.instances[sourceId];
    var shape := g.definitions[source.definitionId];
    var copy := shape.(id := definitionId, descriptor := shape.descriptor.(featureId := featureId));
    var separate := Instance(instanceId, definitionId, source.transform, Independent(sourceId, source.definitionId));
    assert PositiveDimensions(shape.descriptor);
    hide Sound;
    AddingDefinition(g, copy);
    AddingInstance(g.(definitions := g.definitions[definitionId := copy]), separate);
  }

  lemma {:induction false} EditingKeeps(g: Graph, command: Command)
    requires Sound(g) && command.EditParameter? && Applied(g, command).Ok?
    ensures Sound(After(g, command))
  {
    hide Plain;
    var d := g.definitions[command.definitionId];
    var edited := d.(descriptor := WithParameter(d.descriptor, command.parameter, command.value));
    assert PositiveDimensions(d.descriptor);
    ChangingDefinition(g, command.definitionId, edited);
  }

  lemma {:induction false} DefiningKeeps(g: Graph, d: Definition)
    requires Sound(g) && DefineIn(g, d).Ok?
    ensures Sound(DefineIn(g, d).value)
  {
    hide Sound, Plain, PositiveDimensions;
    AddingDefinition(g, d);
  }

  lemma {:induction false} CreatingKeeps(g: Graph, i: Instance)
    requires Sound(g) && CreateIn(g, i).Ok?
    ensures Sound(CreateIn(g, i).value)
  {
    hide Sound, Plain;
    AddingInstance(g, i);
  }

  lemma {:induction false} TransformingKeeps(g: Graph, id: string, transform: Transform)
    requires Sound(g) && TransformIn(g, id, transform).Ok?
    ensures Sound(TransformIn(g, id, transform).value)
  {
    hide Sound, Plain;
    Moving(g, id, transform);
  }

  lemma {:induction false} CommandKeeps(g: Graph, command: Command)
    requires Sound(g)
    ensures Sound(After(g, command))
  {
    hide Sound, DefineIn, CreateIn, TransformIn, SeparateIn, EditIn;
    if Applied(g, command).Ok? {
      match command
      case Define(d) => DefiningKeeps(g, d);
      case Capture(id, selected, descriptor) => DefiningKeeps(g, Definition(id, selected, descriptor));
      case CreateInstance(i) => CreatingKeeps(g, i);
      case TransformInstance(id, t) => TransformingKeeps(g, id, t);
      case MakeIndependent(_, _, _, _) => SeparatingKeeps(g, command);
      case EditParameter(_, _, _) => EditingKeeps(g, command);
    }
  }

  /** Every run from the empty graph keeps the invariant. */
  lemma {:induction false} RunKeeps(commands: seq<Command>)
    ensures Sound(Run(EMPTY, commands))
    decreases |commands|
  {
    if commands != [] {
      var last := |commands| - 1;
      RunKeeps(commands[..last]);
      CommandKeeps(Run(EMPTY, commands[..last]), commands[last]);
    }
  }

  /** So no lookup in a run is ever ambiguous: an id resolves exactly when an object of the expected kind has it. */
  lemma {:induction false} NeverAmbiguous(commands: seq<Command>, id: string)
    ensures var g := Run(EMPTY, commands);
      && Lookup(g, id, DEFINITION) == (if id in g.definitions then Components.Resolved(id)
                                      else if id in g.instances then Incompatible else NoCandidate)
      && Lookup(g, id, INSTANCE) == (if id in g.instances then Components.Resolved(id)
                                    else if id in g.definitions then Incompatible else NoCandidate)
  {
    var g := Run(EMPTY, commands);
    RunKeeps(commands);
    LookupMeaning(g, id, DEFINITION);
    LookupMeaning(g, id, INSTANCE);
  }

  // ---------- Nothing is taken back ----------

  /** Later graphs keep every definition with its feature id, and every instance with its definition and origin. */
  ghost predicate Grows(g: Graph, h: Graph) {
    && (forall k :: k in g.definitions ==>
      k in h.definitions && h.definitions[k].descriptor.featureId == g.definitions[k].descriptor.featureId)
    && (forall k :: k in g.instances ==>
      && k in h.instances && h.instances[k].definitionId == g.instances[k].definitionId
      && h.instances[k].reuse == g.instances[k].reuse)
  }

  lemma {:induction false} CommandGrows(g: Graph, command: Command)
    ensures Grows(g, After(g, command))
  {
    hide Plain, PositiveDimensions, ValidSelection, FeatureInUse, Lookup;
    match command
    case Define(_) =>
    case Capture(_, _, _) =>
    case CreateInstance(_) =>
    case TransformInstance(id, t) => assert Grows(g, After(g, command));
    case MakeIndependent(_, _, _, _) => assert Grows(g, After(g, command));
    case EditParameter(_, _, _) => assert Grows(g, After(g, command));
  }

  /** Only an edit changes a definition, and only the one it names. */
  lemma {:induction false} DefinitionKept(g: Graph, command: Command, d: string)
    requires d in g.definitions && (command.EditParameter? ==> command.definitionId != d)
    ensures d in After(g, command).definitions && After(g, command).definitions[d] == g.definitions[d]
  {
    hide Plain, PositiveDimensions, ValidSelection, FeatureInUse, Lookup;
  }

  // ---------- Where instances come from ----------

  /** Steps from each instance back to the linked one it descends from. */
  type Depths = map<string, nat>

  ghost predicate Measures(depths: Depths, g: Graph) {
    forall k :: k in g.instances ==>
      && k in depths
      && (g.instances[k].reuse.Linked? ==> depths[k] == 0)
      && (g.instances[k].reuse.Independent? ==>
        g.instances[k].reuse.sourceInstanceId in depths
        && depths[k] == depths[g.instances[k].reuse.sourceInstanceId] + 1)
  }

  /** A new instance gets its depth: 0, or one more than the instance it was separated from. */
  lemma {:induction false} CommandMeasures(g: Graph, command: Command, depths: Depths) returns (more: Depths)
    requires SourcesKept(g) && Measures(depths, g) && depths.Keys == g.instances.Keys
    ensures Measures(more, After(g, command)) && more.Keys == After(g, command).instances.Keys
  {
    hide Plain, SourcesKept, Measures, Applied;
    more := depths;
    if command.CreateInstance? && Applied(g, command).Ok? {
      more := CreatingMeasures(g, command, depths);
    } else if command.MakeIndependent? && Applied(g, command).Ok? {
      more := SeparatingMeasures(g, command, depths);
    } else {
      CommandGrows(g, command);
      NoNewInstance(g, command);
      SameInstances(more, g, After(g, command));
    }
  }

  lemma {:induction false} CreatingMeasures(g: Graph, command: Command, depths: Depths) returns (more: Depths)
    requires SourcesKept(g) && Measures(depths, g) && depths.Keys == g.instances.Keys
    requires command.CreateInstance? && Applied(g, command).Ok?
    ensures Measures(more, After(g, command)) && more.Keys == After(g, command).instances.Keys
  {
    hide Plain, Lookup, SourcesKept, Measures;
    more := depths[command.instance.id := 0];
    MeasuresOneMore(g, depths, command.instance, 0);
  }

  lemma {:induction false} SeparatingMeasures(g: Graph, command: Command, depths: Depths) returns (more: Depths)
    requires SourcesKept(g) && Measures(depths, g) && depths.Keys == g.instances.Keys
    requires command.MakeIndependent? && Applied(g, command).Ok?
    ensures Measures(more, After(g, command)) && more.Keys == After(g, command).instances.Keys
  {
    hide Plain, PositiveDimensions, FeatureInUse, Lookup, SourcesKept, Measures;
    var separate := After(g, command).instances[command.instanceId];
    var depth := depths[command.sourceInstanceId] + 1;
    more := depths[command.instanceId := depth];
    MeasuresOneMore(g, depths, separate, depth);
    SameInstances(more, g.(instances := g.instances[command.instanceId := separate]), After(g, command));
  }

  lemma {:induction false} NoNewInstance(g: Graph, command: Command)
    requires Applied(g, command).Err? || !(command.CreateInstance? || command.MakeIndependent?)
    ensures After(g, command).instances.Keys == g.instances.Keys
  {
    hide Plain, PositiveDimensions, ValidSelection, FeatureInUse, Lookup;
  }

  lemma {:induction false} SameInstances(depths: Depths, g: Graph, h: Graph)
    requires Measures(depths, g) && h.instances.Keys == g.instances.Keys
    requires forall k :: k in g.instances ==> h.instances[k].reuse == g.instances[k].reuse
    ensures Measures(depths, h)
  {
  }

  lemma {:induction false} MeasuresOneMore(g: Graph, depths: Depths, i: Instance, depth: nat)
    requires SourcesKept(g) && Measures(depths, g) && depths.Keys == g.instances.Keys && i.id !in g.instances
    requires i.reuse.Linked? ==> depth == 0
    requires i.reuse.Independent? ==> i.reuse.sourceInstanceId in depths && depth == depths[i.reuse.sourceInstanceId] + 1
    ensures Measures(depths[i.id := depth], g.(instances := g.instances[i.id := i]))
  {
  }

  lemma {:induction false} RunMeasures(commands: seq<Command>) returns (depths: Depths)
    ensures Measures(depths, Run(EMPTY, commands)) && depths.Keys == Run(EMPTY, commands).instances.Keys
    decreases |commands|
  {
    if commands == [] {
      depths := map[];
    } else {
      var last := |commands| - 1;
      RunKeeps(commands[..last]);
      var before := RunMeasures(commands[..last]);
      depths := CommandMeasures(Run(EMPTY, commands[..last]), commands[last], before);
    }
  }

  /** `path` leads from an instance, source by source, to a linked one. */
  ghost predicate Descent(g: Graph, path: seq<string>) {
    && path != [] && (forall i :: 0 <= i < |path| ==> path[i] in g.instances)
    && (forall i :: 0 <= i < |path| - 1 ==>
      g.instances[path[i]].reuse.Independent? && g.instances[path[i]].reuse.sourceInstanceId == path[i + 1])
    && g.instances[path[|path| - 1]].reuse.Linked?
  }

  lemma {:induction false} DescentFrom(g: Graph, depths: Depths, k: string) returns (path: seq<string>)
    requires Sound(g) && Measures(depths, g) && k in g.instances
    ensures Descent(g, path) && path[0] == k
    decreases depths[k]
  {
    match g.instances[k].reuse
    case Linked => path := [k];
    case Independent(source, _) =>
      assert SourceKept(g, g.instances[k]);
      var rest := DescentFrom(g, depths, source);
      path := [k] + rest;
  }

  /** In every run each instance descends, in finitely many separations, from one created with linked reuse. */
  lemma {:induction false} EveryInstanceDescendsFromLinked(commands: seq<Command>, k: string)
    requires k in Run(EMPTY, commands).instances
    ensures exists path :: Descent(Run(EMPTY, commands), path) && path[0] == k
  {
    RunKeeps(commands);
    var depths := RunMeasures(commands);
    var path := DescentFrom(Run(EMPTY, commands), depths, k);
  }

  // ---------- Shapes ----------

  datatype Shape = Shape(length: F64, width: F64, height: F64, thickness: F64)

  function ShapeOf(d: Definition): Shape {
    Shape(d.descriptor.length, d.descriptor.width, d.descriptor.height, d.descriptor.thickness)
  }

  /** An instance has the dimensions of its definition. */
  function InstanceShape(g: Graph, k: string): Shape
    requires k in g.instances && g.instances[k].definitionId in g.definitions
  {
    ShapeOf(g.definitions[g.instances[k].definitionId])
  }

  /** Only an edit that names its definition can change an instance's shape. */
  lemma {:induction false} OnlyOwnEditsReshape(g: Graph, command: Command, k: string)
    requires k in g.instances && g.instances[k].definitionId in g.definitions
    requires command.EditParameter? ==> command.definitionId != g.instances[k].definitionId
    ensures k in After(g, command).instances && After(g, command).instances[k].definitionId in After(g, command).definitions
    ensures InstanceShape(After(g, command), k) == InstanceShape(g, k)
  {
    hide After;
    CommandGrows(g, command);
    DefinitionKept(g, command, g.instances[k].definitionId);
  }

  /** An accepted edit reaches every instance linked to the definition, and no other. */
  lemma {:induction false} EditReachesExactlyItsInstances(g: Graph, command: Command, k: string)
    requires command.EditParameter? && Applied(g, command).Ok?
    requires k in g.instances && g.instances[k].definitionId in g.definitions
    ensures After(g, command).instances == g.instances && g.instances[k].definitionId in After(g, command).definitions
    ensures var was, now := InstanceShape(g, k), InstanceShape(After(g, command), k);
      if g.instances[k].definitionId != command.definitionId then now == was else
      match command.parameter
      case "length" => now == was.(length := command.value)
      case "width" => now == was.(width := command.value)
      case "height" => now == was.(height := command.value)
      case _ => now == was.(thickness := command.value)
  {
    hide Lookup;
  }

  /** A separated instance looks like its source and stands where it stands, and no existing instance changes shape. */
  lemma {:induction false} SeparatingCopies(g: Graph, command: Command)
    requires Sound(g) && command.MakeIndependent? && Applied(g, command).Ok?
    ensures var h := After(g, command); var separate, source := command.instanceId, command.sourceInstanceId;
      && separate !in g.instances && separate in h.instances && source in g.instances
      && h.instances[separate].definitionId !in g.definitions
      && InstanceShape(h, separate) == InstanceShape(g, source)
      && h.instances[separate].transform == g.instances[source].transform
  {
    hide Plain, PositiveDimensions, ValidSelection, FeatureInUse;
  }

  ghost predicate NeverEdits(commands: seq<Command>, definitionId: string) {
    forall i :: 0 <= i < |commands| && commands[i].EditParameter? ==> commands[i].definitionId != definitionId
  }

  /** Whatever follows, an instance keeps its shape until its own definition is edited. */
  lemma {:induction false} ShapeLasts(g: Graph, later: seq<Command>, k: string)
    requires Sound(g) && k in g.instances && g.instances[k].definitionId in g.definitions
    requires NeverEdits(later, g.instances[k].definitionId)
    ensures Sound(Run(g, later)) && k in Run(g, later).instances
    ensures Run(g, later).instances[k].definitionId == g.instances[k].definitionId
    ensures g.instances[k].definitionId in Run(g, later).definitions
    ensures InstanceShape(Run(g, later), k) == InstanceShape(g, k)
    decreases |later|
  {
    hide Sound, After;
    if later != [] {
      var last := |later| - 1;
      ShapeLasts(g, later[..last], k);
      var h := Run(g, later[..last]);
      CommandKeeps(h, later[last]);
      CommandGrows(h, later[last]);
      OnlyOwnEditsReshape(h, later[last], k);
    }
  }

  /** Independence: after a separation no edit of any other definition, the source's included, reaches the copy. */
  lemma {:induction false} SeparatedStaysIndependent(before: seq<Command>, command: Command, later: seq<Command>)
    requires command.MakeIndependent? && Applied(Run(EMPTY, before), command).Ok?
    requires NeverEdits(later, command.definitionId)
    ensures var g, h := Run(EMPTY, before), Run(After(Run(EMPTY, before), command), later);
      && Sound(g) && Sound(h) && command.instanceId in h.instances && command.sourceInstanceId in g.instances
      && InstanceShape(h, command.instanceId) == InstanceShape(g, command.sourceInstanceId)
  {
    hide Run;
    var g := Run(EMPTY, before);
    RunKeeps(before);
    CommandKeeps(g, command);
    SeparatingCopies(g, command);
    ShapeLasts(After(g, command), later, command.instanceId);
  }

  /** In a sound graph only the ids decide whether a separation is accepted: its two lookups cannot fail on their own. */
  lemma {:induction false} SeparatingAcceptedIff(g: Graph, source: string, definitionId: string, instanceId: string, featureId: string)
    requires Sound(g)
    ensures Applied(g, MakeIndependent(source, definitionId, instanceId, featureId)).Ok? <==>
      && source in g.instances && Plain(definitionId) && Plain(instanceId) && Plain(featureId)
      && definitionId != instanceId && !InUse(g, definitionId) && !InUse(g, instanceId) && !FeatureInUse(g, featureId)
  {
    hide Plain, FeatureInUse, Lookup;
    if source in g.instances {
      assert g.instances[source].definitionId in g.definitions;
    }
  }
}
