/** When each command is accepted and what it then changes, in terms of fields. */
module ComponentEffects {
  import opened Wrappers
  import opened Ordering
  import opened Text
  import opened HistoryModel
  import opened Components

  /** The codes of digits, upper-case and lower-case letters, the hyphen and the underscore. */
  ghost predicate PlainCode(c: int) {
    48 <= c <= 57 || 65 <= c <= 90 || 97 <= c <= 122 || c == 45 || c == 95
  }

  ghost predicate IsPlain(id: string) {
    |id| > 0 && forall i :: 0 <= i < |id| ==> PlainCode(id[i] as int)
  }

  lemma {:induction false} PlainIff(id: string)
    ensures Plain(id) <==> IsPlain(id)
  {
    forall i | 0 <= i < |id| ensures id[i] in id {}
  }

  ghost predicate IsSelection(ids: seq<string>) {
    && (forall i :: 0 <= i < |ids| ==> IsPlain(ids[i]))
    && (forall i, j :: 0 <= i < j < |ids| ==> ids[i] != ids[j] && TextLe(ids[i], ids[j]))
  }

  lemma {:induction false} AdjacentAscend(ids: seq<string>, i: nat, j: nat)
    requires (forall k :: 0 <= k < |ids| - 1 ==> !TextLe(ids[k + 1], ids[k])) && i < j < |ids|
    ensures TextLe(ids[i], ids[j]) && ids[i] != ids[j]
    decreases j
  {
    TextOrder();
    assert !TextLe(ids[j - 1 + 1], ids[j - 1]);
    if i < j - 1 { AdjacentAscend(ids, i, j - 1); }
  }

  /** Comparing neighbours, as the program does, checks the whole selection. */
  lemma {:induction false} SelectionIff(ids: seq<string>)
    ensures ValidSelection(ids) <==> IsSelection(ids)
  {
    hide Plain, IsPlain;
    TextOrder();
    forall i | 0 <= i < |ids| ensures Plain(ids[i]) <==> IsPlain(ids[i]) { PlainIff(ids[i]); }
    if ValidSelection(ids) {
      forall i, j | 0 <= i < j < |ids| ensures ids[i] != ids[j] && TextLe(ids[i], ids[j]) { AdjacentAscend(ids, i, j); }
    }
    if IsSelection(ids) {
      forall k | 0 <= k < |ids| - 1 ensures !TextLe(ids[k + 1], ids[k]) {
        assert TextLe(ids[k], ids[k + 1]) && ids[k] != ids[k + 1];
      }
    }
  }

  ghost predicate AboveZero(value: F64) { value.Finite? && value.value > 0.0 }

  ghost predicate Unused(g: Graph, id: string) { id !in g.definitions && id !in g.instances }

  ghost predicate UnusedFeature(g: Graph, featureId: string) {
    forall k :: k in g.definitions ==> g.definitions[k].descriptor.featureId != featureId
  }

  ghost predicate OnlyDefinition(g: Graph, id: string) { id in g.definitions && id !in g.instances }

  ghost predicate OnlyInstance(g: Graph, id: string) { id in g.instances && id !in g.definitions }

  /** A new definition, spelled out or captured, is added as given when everything about it is sound and new. */
  lemma {:induction false} DefineAdds(g: Graph, d: Definition)
    ensures var sound := IsPlain(d.id) && IsPlain(d.descriptor.featureId) && IsSelection(d.selected)
        && AboveZero(d.descriptor.length) && AboveZero(d.descriptor.width)
        && AboveZero(d.descriptor.height) && AboveZero(d.descriptor.thickness);
      var r := Applied(g, Define(d));
      && (r.Ok? <==> sound && Unused(g, d.id) && UnusedFeature(g, d.descriptor.featureId))
      && (r.Ok? ==> r.value == Graph(g.definitions[d.id := d], g.instances))
      && (sound && !Unused(g, d.id) ==> r == Err(IdInUse))
      && (sound && Unused(g, d.id) && !UnusedFeature(g, d.descriptor.featureId) ==> r == Err(FeatureIdInUse))
    ensures Applied(g, Capture(d.id, d.selected, d.descriptor)) == Applied(g, Define(d))
  {
    PlainIff(d.id);
    PlainIff(d.descriptor.featureId);
    SelectionIff(d.selected);
    hide Plain, IsPlain, ValidSelection, IsSelection;
  }

  ghost predicate FiniteTransform(t: Transform) { t.x.Finite? && t.y.Finite? && t.z.Finite? }

  ghost predicate Creatable(g: Graph, i: Instance) {
    && i.reuse.Linked? && IsPlain(i.id) && i.definitionId != "" && FiniteTransform(i.transform)
    && OnlyDefinition(g, i.definitionId) && Unused(g, i.id)
  }

  /** A linked instance of an existing definition is added as given. */
  lemma {:induction false} CreateAdds(g: Graph, i: Instance)
    ensures var r := Applied(g, CreateInstance(i));
      && (r.Ok? <==> Creatable(g, i))
      && (r.Ok? ==> r.value == Graph(g.definitions, g.instances[i.id := i]))
      && (!i.reuse.Linked? ==> r == Err(NotLinked))
  {
    PlainIff(i.id);
    hide Plain, IsPlain, Lookup;
  }

  ghost predicate OnlyMoved(g: Graph, h: Graph, id: string, t: Transform) {
    && h.definitions == g.definitions && h.instances.Keys == g.instances.Keys && id in g.instances
    && (forall k :: k in g.instances && k != id ==> h.instances[k] == g.instances[k])
    && h.instances[id].transform == t && h.instances[id].id == g.instances[id].id
    && h.instances[id].definitionId == g.instances[id].definitionId && h.instances[id].reuse == g.instances[id].reuse
  }

  /** A transform moves one instance and changes nothing else. */
  lemma {:induction false} TransformMoves(g: Graph, id: string, t: Transform)
    ensures var r := Applied(g, TransformInstance(id, t));
      && (r.Ok? <==> FiniteTransform(t) && OnlyInstance(g, id))
      && (r.Ok? ==> OnlyMoved(g, r.value, id, t))
      && (!FiniteTransform(t) ==> r == Err(NotFinite))
  {
    hide Lookup;
  }

  ghost predicate OnlyEdited(g: Graph, h: Graph, id: string) {
    && h.instances == g.instances && h.definitions.Keys == g.definitions.Keys && id in g.definitions
    && (forall k :: k in g.definitions && k != id ==> h.definitions[k] == g.definitions[k])
  }

  ghost predicate OneSet(was: Definition, now: Definition, parameter: string, value: F64) {
    && now.id == was.id && now.selected == was.selected && now.descriptor.featureId == was.descriptor.featureId
    && now.descriptor.length == (if parameter == "length" then value else was.descriptor.length)
    && now.descriptor.width == (if parameter == "width" then value else was.descriptor.width)
    && now.descriptor.height == (if parameter == "height" then value else was.descriptor.height)
    && now.descriptor.thickness == (if parameter == "thickness" then value else was.descriptor.thickness)
  }

  /** An edit sets one dimension of one definition to a positive value and changes nothing else. */
  lemma {:induction false} EditSets(g: Graph, id: string, parameter: string, value: F64)
    ensures var r := Applied(g, EditParameter(id, parameter, value));
      && (r.Ok? <==> AboveZero(value) && OnlyDefinition(g, id) && parameter in ["length", "width", "height", "thickness"])
      && (r.Ok? ==> OnlyEdited(g, r.value, id) && OneSet(g.definitions[id], r.value.definitions[id], parameter, value))
      && (!AboveZero(value) ==> r == Err(BadValue))
      && (AboveZero(value) && OnlyDefinition(g, id) && r.Err? ==> r == Err(UnknownParameter))
  {
    hide Lookup;
  }

  ghost predicate Separable(g: Graph, source: string, definitionId: string, instanceId: string, featureId: string) {
    && OnlyInstance(g, source) && OnlyDefinition(g, g.instances[source].definitionId)
    && IsPlain(definitionId) && IsPlain(instanceId) && IsPlain(featureId) && definitionId != instanceId
    && Unused(g, definitionId) && Unused(g, instanceId) && UnusedFeature(g, featureId)
  }

  /** A separation adds a renamed copy of the definition and an instance of it that records where it came from. */
  lemma {:induction false} SeparateAdds(g: Graph, source: string, definitionId: string, instanceId: string, featureId: string)
    ensures var r := Applied(g, MakeIndependent(source, definitionId, instanceId, featureId));
      && (r.Ok? <==> Separable(g, source, definitionId, instanceId, featureId))
      && (r.Ok? ==>
           var from := g.instances[source];
           var shape := g.definitions[from.definitionId];
           var d := shape.descriptor;
           && r.value.definitions == g.definitions[definitionId :=
                Definition(definitionId, shape.selected, Descriptor(featureId, d.length, d.width, d.height, d.thickness))]
           && r.value.instances == g.instances[instanceId :=
                Instance(instanceId, definitionId, from.transform, Independent(source, from.definitionId))])
  {
    PlainIff(definitionId);
    PlainIff(instanceId);
    PlainIff(featureId);
    hide Plain, IsPlain, Lookup;
  }

  /** A refused command leaves the graph as it was. */
  lemma {:induction false} RefusedChangesNothing(g: Graph, command: Command)
    requires Applied(g, command).Err?
    ensures After(g, command) == g
  {
  }
}
