/** The activity definition node: its own fields, the additive builder
  * methods that fill them in place, and its part of the interchange
  * reader and writer. The scope part that an activity inherits (nested
  * activities, transitions of the scope, variables, timers, properties) is
  * not part of this model. */
module Activities {
  import opened Wrappers
  import opened Xml
  import opened Definitions
  import opened Interchange

  /** A snapshot of the fields an activity declares itself; None is null. */
  datatype ActivityData = ActivityData(
    id: Str,
    defaultTransitionId: Str,
    multiInstance: Option<MultiInstance>,
    outgoingTransitions: Option<seq<Transition>>,
    inputs: Option<map<Str, InputParameter>>,
    out: Option<map<Str, OutputParameter>>)

  /** A freshly constructed activity: every field null. */
  const Blank := ActivityData(None, None, None, None, None, None)

  // ------------------------------------------------------------ builders

  /** What `inListBinding` does to the input map: the parameter under `key`,
    * created empty when missing, gets `b` appended to its list. */
  function AddListBinding(m: map<Str, InputParameter>, key: Str, b: Binding): map<Str, InputParameter> {
    var p := if key in m then m[key] else EmptyParameter;
    m[key := AddBinding(p, b)]
  }

  /** `inListBinding(key, b)` for each `b` of `bs` in turn. */
  function AddListBindings(m: map<Str, InputParameter>, key: Str, bs: seq<Binding>): map<Str, InputParameter> {
    if bs == [] then m else AddListBinding(AddListBindings(m, key, bs[..|bs| - 1]), key, bs[|bs| - 1])
  }

  /** Repeated `inListBinding` under one key keeps every binding, in the
    * order added, after whatever the parameter held before; other keys keep
    * their entries. */
  lemma {:induction false} ListBindingsKeepOrder(m: map<Str, InputParameter>, key: Str, bs: seq<Binding>)
    requires bs != [] || key in m
    ensures var r := AddListBindings(m, key, bs);
      && r.Keys == m.Keys + {key}
      && AllBindings(r[key]) == AllBindings(if key in m then m[key] else EmptyParameter) + bs
      && (forall k :: k in m && k != key ==> r[k] == m[k])
  {
    if bs != [] {
      var prefix, last := bs[..|bs| - 1], bs[|bs| - 1];
      var before := AddListBindings(m, key, prefix);
      assert AddListBindings(m, key, bs) == AddListBinding(before, key, last);
      var p := if key in before then before[key] else EmptyParameter;
      assert AllBindings(AddListBinding(before, key, last)[key]) == AllBindings(p) + [last];
      if prefix == [] {
        assert before == m;
      } else {
        ListBindingsKeepOrder(m, key, prefix);
      }
      assert prefix + [last] == bs;
    }
  }

  /** On a key that held nothing, repeated `inListBinding` leaves a
    * parameter in list mode holding exactly the bindings added. */
  lemma {:induction false} ListBindingsOnFreshKey(m: map<Str, InputParameter>, key: Str, bs: seq<Binding>)
    requires key !in m && bs != []
    ensures AddListBindings(m, key, bs)[key] == InputParameter(None, Some(bs))
  {
    var prefix, last := bs[..|bs| - 1], bs[|bs| - 1];
    var before := AddListBindings(m, key, prefix);
    assert AddListBindings(m, key, bs) == AddListBinding(before, key, last);
    var p := if key in before then before[key] else EmptyParameter;
    if prefix == [] {
      assert before == m;
      assert p == EmptyParameter;
    } else {
      ListBindingsOnFreshKey(m, key, prefix);
      assert p == InputParameter(None, Some(prefix));
    }
    assert AddBinding(p, last) == InputParameter(None, Some(prefix + [last]));
    assert prefix + [last] == bs;
  }

  // ------------------------------------------------------------- reading

  /** The multi-instance configuration after reading `es`: the last one read wins. */
  function LastMultiInstance(current: Option<MultiInstance>, es: seq<Element>): Option<MultiInstance> {
    if es == [] then current else Some(ReadMultiInstance(es[|es| - 1]))
  }

  /** A parameter map after reading `es` into it: created when it is null
    * and an element is present, left as it was (null included) otherwise. */
  function PutParameters<V>(current: Option<map<Str, V>>, es: seq<Element>, read: Element -> V): Option<map<Str, V>> {
    if es == [] then current else Some(PutEach(current.GetOr(map[]), es, read))
  }

  /** The fields after `readBpmn(e)` on an activity whose fields were `f`:
    * `id` from the standard attribute, `defaultTransitionId` from the
    * extension attribute, and from the extension content the last
    * `multiInstance`, each `inputParameter` and each `outputParameter` put
    * into its map under its `key`. */
  function ReadActivity(f: ActivityData, e: Element): ActivityData {
    var content := ExtensionContent(e);
    f.(id := Attribute(e.bpmnAttributes, "id"),
       defaultTransitionId := Attribute(e.effektifAttributes, "defaultTransitionId"),
       multiInstance := LastMultiInstance(f.multiInstance, ChildrenNamed(content, Effektif, MultiInstanceTag)),
       inputs := PutParameters(f.inputs, ChildrenNamed(content, Effektif, InputParameterTag), ReadInputParameter),
       out := PutParameters(f.out, ChildrenNamed(content, Effektif, OutputParameterTag), ReadOutputParameter))
  }

  /** Reading leaves a parameter map null exactly when it was null and no
    * element of its kind is present, and keeps the multi-instance
    * configuration when no `multiInstance` element is present. */
  lemma ReadKeepsAbsentParts(f: ActivityData, e: Element)
    ensures var content := ExtensionContent(e);
      var g := ReadActivity(f, e);
      && (g.inputs.None? <==> f.inputs.None? && ChildrenNamed(content, Effektif, InputParameterTag) == [])
      && (g.out.None? <==> f.out.None? && ChildrenNamed(content, Effektif, OutputParameterTag) == [])
      && (ChildrenNamed(content, Effektif, MultiInstanceTag) == [] ==> g.multiInstance == f.multiInstance)
      && g.outgoingTransitions == f.outgoingTransitions
  {
  }

  /** Each `inputParameter` element that no later one overrides is read
    * into the input map under its key, in the mode its bindings decide:
    * single for one binding, list for more, empty for none. */
  lemma ReadInputAt(f: ActivityData, e: Element, i: nat)
    requires var es := ChildrenNamed(ExtensionContent(e), Effektif, InputParameterTag);
      i < |es| && forall j :: i < j < |es| ==> KeyOf(es[j]) != KeyOf(es[i])
    ensures var es := ChildrenNamed(ExtensionContent(e), Effektif, InputParameterTag);
      var bindings := ReadBindings(es[i]);
      var r := ReadActivity(f, e).inputs;
      && r.Some? && KeyOf(es[i]) in r.value
      && AllBindings(r.value[KeyOf(es[i])]) == bindings.GetOr([])
      && (r.value[KeyOf(es[i])].binding.Some? <==> bindings.Some? && |bindings.value| == 1)
      && (r.value[KeyOf(es[i])].bindings.Some? <==> bindings.Some? && |bindings.value| > 1)
      && (bindings.None? ==> r.value[KeyOf(es[i])] == EmptyParameter)
  {
    var es := ChildrenNamed(ExtensionContent(e), Effektif, InputParameterTag);
    PutEachLastWins(f.inputs.GetOr(map[]), es, ReadInputParameter, i);
  }

  /** Each `outputParameter` element that no later one overrides maps its
    * `key` to an output parameter whose variable is its `id` attribute. */
  lemma ReadOutputAt(f: ActivityData, e: Element, i: nat)
    requires var es := ChildrenNamed(ExtensionContent(e), Effektif, OutputParameterTag);
      i < |es| && forall j :: i < j < |es| ==> KeyOf(es[j]) != KeyOf(es[i])
    ensures var es := ChildrenNamed(ExtensionContent(e), Effektif, OutputParameterTag);
      var r := ReadActivity(f, e).out;
      && r.Some? && KeyOf(es[i]) in r.value
      && r.value[KeyOf(es[i])].variableId == Attribute(es[i].effektifAttributes, "id")
  {
    var es := ChildrenNamed(ExtensionContent(e), Effektif, OutputParameterTag);
    PutEachLastWins(f.out.GetOr(map[]), es, ReadOutputParameter, i);
  }

  // ------------------------------------------------------------- writing

  /** The extension container is written when `multiInstance`, `inputs` or
    * `out` is not null, even when the maps are empty. */
  predicate HasExtensions(f: ActivityData) {
    f.multiInstance.Some? || f.inputs.Some? || f.out.Some?
  }

  function MultiInstancePart(mi: Option<MultiInstance>): seq<Element> {
    if mi.Some? then [MultiInstanceElement(mi.value)] else []
  }

  /** `x` is the extension container `writeBpmn` writes for `f`: the
    * multi-instance configuration if any, then one `inputParameter` per
    * input and one `outputParameter` per output, each map in its own
    * iteration order. */
  predicate ExtensionWritten(f: ActivityData, x: Element) {
    var mi := MultiInstancePart(f.multiInstance);
    var inputs := f.inputs.GetOr(map[]);
    var outputs := f.out.GetOr(map[]);
    && x == ExtensionElements(x.children)
    && |x.children| == |mi| + |inputs| + |outputs|
    && x.children[..|mi|] == mi
    && Encodes(x.children[|mi|..|mi| + |inputs|], inputs, InputElement)
    && Encodes(x.children[|mi| + |inputs|..], outputs, OutputElement)
  }

  /** `e` is what `writeBpmn` makes of `target` (the element as the scope
    * writer left it) for an activity whose fields are `f`: the `id` and
    * `defaultTransitionId` attributes, then the extension container when
    * `HasExtensions(f)`, then the empty standard multi-instance marker when
    * a multi-instance is present. */
  predicate Written(f: ActivityData, target: Element, e: Element) {
    var n := |target.children|;
    var container := if HasExtensions(f) then 1 else 0;
    var marker := if f.multiInstance.Some? then 1 else 0;
    && e.ns == target.ns && e.name == target.name
    && e.bpmnAttributes == WithAttribute(target.bpmnAttributes, "id", f.id)
    && e.effektifAttributes == WithAttribute(target.effektifAttributes, "defaultTransitionId", f.defaultTransitionId)
    && |e.children| == n + container + marker
    && e.children[..n] == target.children
    && (HasExtensions(f) ==> ExtensionWritten(f, e.children[n]))
    && (f.multiInstance.Some? ==> e.children[n + container] == Marker)
  }

  /** The writer adds one extension container exactly when one of
    * `multiInstance`, `inputs` and `out` is not null, and one standard
    * multi-instance marker exactly when `multiInstance` is not null. */
  lemma {:induction false} WrittenContainerAndMarker(f: ActivityData, target: Element, e: Element)
    requires Written(f, target, e)
    ensures |ChildrenNamed(e.children, Bpmn, ExtensionElementsTag)|
         == |ChildrenNamed(target.children, Bpmn, ExtensionElementsTag)| + (if HasExtensions(f) then 1 else 0)
    ensures |ChildrenNamed(e.children, Bpmn, MarkerTag)|
         == |ChildrenNamed(target.children, Bpmn, MarkerTag)| + (if f.multiInstance.Some? then 1 else 0)
  {
    var n := |target.children|;
    var added := e.children[n..];
    assert e.children == target.children + added;
    ChildrenNamedConcat(target.children, added, Bpmn, ExtensionElementsTag);
    ChildrenNamedConcat(target.children, added, Bpmn, MarkerTag);
    if HasExtensions(f) {
      assert added == [e.children[n]] + added[1..];
      ChildrenNamedConcat([e.children[n]], added[1..], Bpmn, ExtensionElementsTag);
      ChildrenNamedConcat([e.children[n]], added[1..], Bpmn, MarkerTag);
    }
  }

  /** What reading back a written output map yields: the same map, except
    * that an empty map reads back as null (no element is written for it). */
  function OutputsReadBack(out: Option<map<Str, OutputParameter>>): Option<map<Str, OutputParameter>> {
    if out == Some(map[]) then None else out
  }

  /** What reading back a written input map yields: every parameter in its
    * canonical mode, and null for an empty map. */
  function InputsReadBack(inputs: Option<map<Str, InputParameter>>): Option<map<Str, InputParameter>> {
    if inputs.None? || inputs.value == map[] then None
    else Some(map k | k in inputs.value :: Canonical(inputs.value[k]))
  }

  /** Filtering three consecutive parts filters each part. */
  lemma FilterParts(p: seq<Element>, q: seq<Element>, r: seq<Element>, tag: string)
    ensures ChildrenNamed(p + q + r, Effektif, tag)
         == ChildrenNamed(p, Effektif, tag) + ChildrenNamed(q, Effektif, tag) + ChildrenNamed(r, Effektif, tag)
  {
    ChildrenNamedConcat(p + q, r, Effektif, tag);
    ChildrenNamedConcat(p, q, Effektif, tag);
  }

  /** The written input elements read back into the inputs, in canonical mode. */
  lemma InputsReadBackFromWritten(inputs: Option<map<Str, InputParameter>>, es: seq<Element>)
    requires Encodes(es, inputs.GetOr(map[]), InputElement)
    ensures PutParameters(None, es, ReadInputParameter) == InputsReadBack(inputs)
  {
    var m := inputs.GetOr(map[]);
    if es == [] {
      assert m.Keys == {};
      assert m == map[];
      assert InputsReadBack(inputs) == None;
      assert PutParameters(None, es, ReadInputParameter) == None;
    } else {
      assert |m| > 0 && inputs.Some? && inputs.value != map[];
      forall k, p ensures ReadInputParameter(InputElement(k, p)) == Canonical(p) {
        InputElementRoundTrip(k, p);
      }
      ReadEncoded(es, m, InputElement, ReadInputParameter, Canonical);
      var got := PutEach(map[], es, ReadInputParameter);
      assert PutParameters(None, es, ReadInputParameter) == Some(got);
      assert InputsReadBack(inputs) == Some(map k | k in m :: Canonical(m[k]));
      assert got == map k | k in m :: Canonical(m[k]);
      assert PutParameters(None, es, ReadInputParameter) == InputsReadBack(inputs);
    }
  }

  /** The written output elements read back into the same output map. */
  lemma OutputsReadBackFromWritten(out: Option<map<Str, OutputParameter>>, es: seq<Element>)
    requires Encodes(es, out.GetOr(map[]), OutputElement)
    ensures PutParameters(None, es, ReadOutputParameter) == OutputsReadBack(out)
  {
    var m := out.GetOr(map[]);
    if es == [] {
      assert m.Keys == {};
    } else {
      assert |m| > 0 && out.Some? && out.value != map[];
      var same := (o: OutputParameter) => o;
      ReadEncoded(es, m, OutputElement, ReadOutputParameter, same);
      var got := PutEach(map[], es, ReadOutputParameter);
      assert got == map k | k in m :: same(m[k]);
      assert got == m;
      assert PutParameters(None, es, ReadOutputParameter) == Some(got);
    }
  }

  lemma SplitThree<T>(s: seq<T>, a: nat, b: nat)
    requires a <= b <= |s|
    ensures s == s[..a] + s[a..b] + s[b..]
  {
  }

  /** The written extension content, cut into the parts the writer emits. */
  lemma ExtensionSplit(f: ActivityData, x: Element) returns (ins: seq<Element>, outs: seq<Element>)
    requires ExtensionWritten(f, x)
    ensures x.children == MultiInstancePart(f.multiInstance) + ins + outs
    ensures Encodes(ins, f.inputs.GetOr(map[]), InputElement)
    ensures Encodes(outs, f.out.GetOr(map[]), OutputElement)
  {
    var a := |MultiInstancePart(f.multiInstance)|;
    var b := a + |f.inputs.GetOr(map[])|;
    ins, outs := x.children[a..b], x.children[b..];
    SplitThree(x.children, a, b);
  }

  lemma ContentMultiInstances(mi: Option<MultiInstance>, ins: seq<Element>, inputs: map<Str, InputParameter>,
                              outs: seq<Element>, outputs: map<Str, OutputParameter>)
    requires Encodes(ins, inputs, InputElement) && Encodes(outs, outputs, OutputElement)
    ensures ChildrenNamed(MultiInstancePart(mi) + ins + outs, Effektif, MultiInstanceTag) == MultiInstancePart(mi)
  {
    FilterParts(MultiInstancePart(mi), ins, outs, MultiInstanceTag);
    ChildrenNamedAll(MultiInstancePart(mi), Effektif, MultiInstanceTag);
    EncodesNotNamed(ins, inputs, InputElement, MultiInstanceTag);
    EncodesNotNamed(outs, outputs, OutputElement, MultiInstanceTag);
  }

  lemma ContentInputs(mi: Option<MultiInstance>, ins: seq<Element>, inputs: map<Str, InputParameter>,
                      outs: seq<Element>, outputs: map<Str, OutputParameter>)
    requires Encodes(ins, inputs, InputElement) && Encodes(outs, outputs, OutputElement)
    ensures ChildrenNamed(MultiInstancePart(mi) + ins + outs, Effektif, InputParameterTag) == ins
  {
    FilterParts(MultiInstancePart(mi), ins, outs, InputParameterTag);
    ChildrenNamedNone(MultiInstancePart(mi), Effektif, InputParameterTag);
    EncodesNamed(ins, inputs, InputElement, InputParameterTag);
    EncodesNotNamed(outs, outputs, OutputElement, InputParameterTag);
  }

  lemma ContentOutputs(mi: Option<MultiInstance>, ins: seq<Element>, inputs: map<Str, InputParameter>,
                       outs: seq<Element>, outputs: map<Str, OutputParameter>)
    requires Encodes(ins, inputs, InputElement) && Encodes(outs, outputs, OutputElement)
    ensures ChildrenNamed(MultiInstancePart(mi) + ins + outs, Effektif, OutputParameterTag) == outs
  {
    FilterParts(MultiInstancePart(mi), ins, outs, OutputParameterTag);
    ChildrenNamedNone(MultiInstancePart(mi), Effektif, OutputParameterTag);
    EncodesNotNamed(ins, inputs, InputElement, OutputParameterTag);
    EncodesNamed(outs, outputs, OutputElement, OutputParameterTag);
  }

  /** Reading what was written in an extension container gives back the
    * multi-instance configuration, the inputs and the outputs. */
  lemma ExtensionReadBack(f: ActivityData, x: Element)
    requires ExtensionWritten(f, x)
    ensures LastMultiInstance(None, ChildrenNamed(x.children, Effektif, MultiInstanceTag)) == f.multiInstance
    ensures PutParameters(None, ChildrenNamed(x.children, Effektif, InputParameterTag), ReadInputParameter)
         == InputsReadBack(f.inputs)
    ensures PutParameters(None, ChildrenNamed(x.children, Effektif, OutputParameterTag), ReadOutputParameter)
         == OutputsReadBack(f.out)
  {
    var ins, outs := ExtensionSplit(f, x);
    var inputs, outputs := f.inputs.GetOr(map[]), f.out.GetOr(map[]);
    ContentMultiInstances(f.multiInstance, ins, inputs, outs, outputs);
    ContentInputs(f.multiInstance, ins, inputs, outs, outputs);
    ContentOutputs(f.multiInstance, ins, inputs, outs, outputs);
    InputsReadBackFromWritten(f.inputs, ins);
    OutputsReadBackFromWritten(f.out, outs);
  }

  /** The reader enters the container the writer added, or finds none. */
  lemma {:induction false} WrittenExtensionContent(f: ActivityData, target: Element, e: Element)
    requires Written(f, target, e)
    requires ChildrenNamed(target.children, Bpmn, ExtensionElementsTag) == []
    ensures HasExtensions(f) ==>
      ExtensionWritten(f, e.children[|target.children|]) && ExtensionContent(e) == e.children[|target.children|].children
    ensures !HasExtensions(f) ==> ExtensionContent(e) == []
  {
    var n := |target.children|;
    var added := e.children[n..];
    assert e.children == target.children + added;
    ChildrenNamedConcat(target.children, added, Bpmn, ExtensionElementsTag);
    if HasExtensions(f) {
      var x := e.children[n];
      assert added == [x] + added[1..];
      ChildrenNamedConcat([x], added[1..], Bpmn, ExtensionElementsTag);
      ChildrenNamedNone(added[1..], Bpmn, ExtensionElementsTag);
    } else {
      assert added == [];
    }
  }

  /** Reading into a fresh activity what `writeBpmn` wrote gives back the
    * id, the default transition, the multi-instance configuration and the
    * output map (an empty one as null), and the inputs in canonical mode.
    * This assumes that the scope writer left no attribute of these names
    * and no extension container of its own. */
  /** With no multi-instance and only empty (non-null) maps, the writer still
    * opens one extension container, and it is empty. */
  lemma EmptyMapsOpenEmptyContainer(f: ActivityData, target: Element, e: Element)
    requires Written(f, target, e)
    requires ChildrenNamed(target.children, Bpmn, ExtensionElementsTag) == []
    requires f.multiInstance.None?
    requires f.inputs.Some? || f.out.Some?
    requires f.inputs.GetOr(map[]) == map[] && f.out.GetOr(map[]) == map[]
    ensures |ChildrenNamed(e.children, Bpmn, ExtensionElementsTag)| == 1
    ensures ExtensionContent(e) == []
  {
    WrittenContainerAndMarker(f, target, e);
    WrittenExtensionContent(f, target, e);
  }

  lemma RoundTrip(f: ActivityData, target: Element, e: Element)
    requires Written(f, target, e)
    requires "id" !in target.bpmnAttributes
    requires "defaultTransitionId" !in target.effektifAttributes
    requires ChildrenNamed(target.children, Bpmn, ExtensionElementsTag) == []
    ensures var g := ReadActivity(Blank, e);
      && g.id == f.id
      && g.defaultTransitionId == f.defaultTransitionId
      && g.multiInstance == f.multiInstance
      && g.inputs == InputsReadBack(f.inputs)
      && g.out == OutputsReadBack(f.out)
  {
    WrittenExtensionContent(f, target, e);
    if HasExtensions(f) {
      ExtensionReadBack(f, e.children[|target.children|]);
    }
  }

  /** The property the output ports rely on: what is written reads back to
    * the same keys and variable ids. */
  lemma OutRoundTrip(f: ActivityData, target: Element, e: Element)
    requires Written(f, target, e)
    requires ChildrenNamed(target.children, Bpmn, ExtensionElementsTag) == []
    requires f.out.Some? && f.out.value != map[]
    ensures ReadActivity(Blank, e).out == f.out
  {
    RoundTrip(f, target.(bpmnAttributes := map[], effektifAttributes := map[]),
              e.(bpmnAttributes := WithAttribute(map[], "id", f.id),
                 effektifAttributes := WithAttribute(map[], "defaultTransitionId", f.defaultTransitionId)));
  }

  // ---------------------------------------------------------- the class

  class Activity {
    var id: Str
    var defaultTransitionId: Str
    var multiInstance: Option<MultiInstance>
    var outgoingTransitions: Option<seq<Transition>>
    var inputs: Option<map<Str, InputParameter>>
    var out: Option<map<Str, OutputParameter>>

    function Data(): ActivityData
      reads this
    {
      ActivityData(id, defaultTransitionId, multiInstance, outgoingTransitions, inputs, out)
    }

    constructor ()
      ensures Data() == Blank
    {
      id, defaultTransitionId, multiInstance := None, None, None;
      outgoingTransitions, inputs, out := None, None, None;
    }

    /** `setId` and the fluent `id` */
    method SetId(id: Str)
      modifies this
      ensures Data() == old(Data()).(id := id)
    {
      this.id := id;
    }

    /** `setDefaultTransitionId` and the fluent `defaultTransitionId` */
    method SetDefaultTransitionId(defaultTransitionId: Str)
      modifies this
      ensures Data() == old(Data()).(defaultTransitionId := defaultTransitionId)
    {
      this.defaultTransitionId := defaultTransitionId;
    }

    /** `setMultiInstance` and the fluent `multiInstance` */
    method SetMultiInstance(multiInstance: Option<MultiInstance>)
      modifies this
      ensures Data() == old(Data()).(multiInstance := multiInstance)
    {
      this.multiInstance := multiInstance;
    }

    method SetOutgoingTransitions(outgoingTransitions: Option<seq<Transition>>)
      modifies this
      ensures Data() == old(Data()).(outgoingTransitions := outgoingTransitions)
    {
      this.outgoingTransitions := outgoingTransitions;
    }

    method SetInputs(inputs: Option<map<Str, InputParameter>>)
      modifies this
      ensures Data() == old(Data()).(inputs := inputs)
    {
      this.inputs := inputs;
    }

    method SetOut(out: Option<map<Str, OutputParameter>>)
      modifies this
      ensures Data() == old(Data()).(out := out)
    {
      this.out := out;
    }

    /** `transitionTo(Transition)`: creates the list if it is null and
      * appends; earlier transitions and every other field are kept. */
    method TransitionTo(transition: Transition)
      modifies this
      ensures outgoingTransitions == Some(old(outgoingTransitions).GetOr([]) + [transition])
      ensures Data() == old(Data()).(outgoingTransitions := outgoingTransitions)
    {
      if outgoingTransitions.None? {
        outgoingTransitions := Some([]);
      }
      outgoingTransitions := Some(outgoingTransitions.value + [transition]);
    }

    /** `transitionTo(String)`: appends one unconditional edge to the id. */
    method TransitionToId(toActivityId: Str)
      modifies this
      ensures outgoingTransitions.Some?
      ensures |outgoingTransitions.value| == |old(outgoingTransitions).GetOr([])| + 1
      ensures outgoingTransitions.value == old(outgoingTransitions).GetOr([]) + [Transition(toActivityId, None, false)]
      ensures Data() == old(Data()).(outgoingTransitions := outgoingTransitions)
    {
      TransitionTo(Transition(toActivityId, None, false));
    }

    /** `transitionWithConditionTo`: appends one edge guarded by `condition`. */
    method TransitionWithConditionTo(condition: Option<Condition>, toActivityId: Str)
      modifies this
      ensures outgoingTransitions.Some?
      ensures |outgoingTransitions.value| == |old(outgoingTransitions).GetOr([])| + 1
      ensures outgoingTransitions.value == old(outgoingTransitions).GetOr([]) + [Transition(toActivityId, condition, false)]
      ensures Data() == old(Data()).(outgoingTransitions := outgoingTransitions)
    {
      TransitionTo(Transition(toActivityId, condition, false));
    }

    /** `transitionToNext`: appends one edge marked "to next", with no target id. */
    method TransitionToNext()
      modifies this
      ensures outgoingTransitions.Some?
      ensures |outgoingTransitions.value| == |old(outgoingTransitions).GetOr([])| + 1
      ensures outgoingTransitions.value == old(outgoingTransitions).GetOr([]) + [Transition(None, None, true)]
      ensures Data() == old(Data()).(outgoingTransitions := outgoingTransitions)
    {
      TransitionTo(Transition(None, None, true));
    }

    /** `inBinding`: creates the map if it is null and puts a fresh
      * single-binding parameter under `key`, replacing any earlier one;
      * other keys and fields are kept. */
    method InBinding(key: Str, binding: Binding)
      modifies this
      ensures inputs == Some(old(inputs).GetOr(map[])[key := SingleParameter(binding)])
      ensures Data() == old(Data()).(inputs := inputs)
    {
      if inputs.None? {
        inputs := Some(map[]);
      }
      inputs := Some(inputs.value[key := SingleParameter(binding)]);
    }

    /** `inValue(key, value)`: an untyped value binding. */
    method InValue(key: Str, value: Str)
      modifies this
      ensures inputs == Some(old(inputs).GetOr(map[])[key := SingleParameter(Binding(value, None, None))])
      ensures Data() == old(Data()).(inputs := inputs)
    {
      InTypedValue(key, value, None);
    }

    /** `inValue(key, value, dataType)` */
    method InTypedValue(key: Str, value: Str, dataType: Str)
      modifies this
      ensures inputs == Some(old(inputs).GetOr(map[])[key := SingleParameter(Binding(value, dataType, None))])
      ensures Data() == old(Data()).(inputs := inputs)
    {
      InBinding(key, ValueBinding(value, dataType));
    }

    /** `inExpression(key, expression)` */
    method InExpression(key: Str, expression: Str)
      modifies this
      ensures inputs == Some(old(inputs).GetOr(map[])[key := SingleParameter(Binding(None, None, expression))])
      ensures Data() == old(Data()).(inputs := inputs)
    {
      InBinding(key, ExpressionBinding(expression));
    }

    /** `inListBinding`: creates the map if it is null, creates an empty
      * parameter under `key` if there is none, then appends `binding` to
      * its list; other keys and fields are kept. */
    method InListBinding(key: Str, binding: Binding)
      modifies this
      ensures inputs == Some(AddListBinding(old(inputs).GetOr(map[]), key, binding))
      ensures AllBindings(inputs.value[key]) == AllBindings(
        if key in old(inputs).GetOr(map[]) then old(inputs).GetOr(map[])[key] else EmptyParameter) + [binding]
      ensures Data() == old(Data()).(inputs := inputs)
    {
      ghost var start := inputs.GetOr(map[]);
      if inputs.None? {
        inputs := Some(map[]);
      }
      var parameter := EmptyParameter;
      if key in inputs.value {
        parameter := inputs.value[key];
      } else {
        inputs := Some(inputs.value[key := parameter]);
      }
      assert inputs.value[key] == parameter;
      assert AllBindings(AddBinding(parameter, binding)) == AllBindings(parameter) + [binding];
      assert inputs.value[key := AddBinding(parameter, binding)] == AddListBinding(start, key, binding);
      inputs := Some(inputs.value[key := AddBinding(parameter, binding)]);
    }

    /** `out(key, variableId)`: creates the map if it is null and maps `key`
      * to the output variable, replacing any earlier entry; other keys and
      * fields are kept. */
    method Out(key: Str, variableId: Str)
      modifies this
      ensures out == Some(old(out).GetOr(map[])[key := OutputParameter(variableId)])
      ensures Data() == old(Data()).(out := out)
    {
      if out.None? {
        out := Some(map[]);
      }
      out := Some(out.value[key := OutputParameter(variableId)]);
    }

    /** `readBpmn`: reads this activity's part of element `e`. */
    method ReadBpmn(e: Element)
      modifies this
      ensures Data() == ReadActivity(old(Data()), e)
    {
      id := Attribute(e.bpmnAttributes, "id");
      defaultTransitionId := Attribute(e.effektifAttributes, "defaultTransitionId");
      var content := ExtensionContent(e);
      ReadMultiInstanceElements(ChildrenNamed(content, Effektif, MultiInstanceTag));
      ReadInputElements(ChildrenNamed(content, Effektif, InputParameterTag));
      ReadOutputElements(ChildrenNamed(content, Effektif, OutputParameterTag));
    }

    /** The `multiInstance` loop of `readBpmn`. */
    method ReadMultiInstanceElements(elements: seq<Element>)
      modifies this
      ensures Data() == old(Data()).(multiInstance := LastMultiInstance(old(multiInstance), elements))
    {
      var i := 0;
      while i < |elements|
        invariant i <= |elements|
        invariant Data() == old(Data()).(multiInstance := LastMultiInstance(old(multiInstance), elements[..i]))
      {
        multiInstance := Some(ReadMultiInstance(elements[i]));
        i := i + 1;
      }
      assert elements[..|elements|] == elements;
    }

    /** The `inputParameter` loop of `readBpmn`. */
    method ReadInputElements(elements: seq<Element>)
      modifies this
      ensures Data() == old(Data()).(inputs := PutParameters(old(inputs), elements, ReadInputParameter))
    {
      var i := 0;
      while i < |elements|
        invariant i <= |elements|
        invariant Data() == old(Data()).(inputs := PutParameters(old(inputs), elements[..i], ReadInputParameter))
      {
        if inputs.None? {
          inputs := Some(map[]);
        }
        var element := elements[i];
        var key := KeyOf(element);
        var bindings := ReadBindings(element);
        var parameter := EmptyParameter;
        if bindings.Some? {
          if |bindings.value| == 1 {
            parameter := parameter.(binding := Some(bindings.value[0]));
          } else {
            parameter := parameter.(bindings := Some(bindings.value));
          }
        }
        PutEachStep(old(inputs).GetOr(map[]), elements, ReadInputParameter, i);
        inputs := Some(inputs.value[key := parameter]);
        i := i + 1;
      }
      assert elements[..|elements|] == elements;
    }

    /** The `outputParameter` loop of `readBpmn`. */
    method ReadOutputElements(elements: seq<Element>)
      modifies this
      ensures Data() == old(Data()).(out := PutParameters(old(out), elements, ReadOutputParameter))
    {
      var i := 0;
      while i < |elements|
        invariant i <= |elements|
        invariant Data() == old(Data()).(out := PutParameters(old(out), elements[..i], ReadOutputParameter))
      {
        if out.None? {
          out := Some(map[]);
        }
        var element := elements[i];
        var key := KeyOf(element);
        var variableId := Attribute(element.effektifAttributes, "id");
        PutEachStep(old(out).GetOr(map[]), elements, ReadOutputParameter, i);
        out := Some(out.value[key := OutputParameter(variableId)]);
        i := i + 1;
      }
      assert elements[..|elements|] == elements;
    }

    /** `writeBpmn`: writes this activity's part into `target`, the element
      * as the scope writer left it. */
    method WriteBpmn(target: Element) returns (e: Element)
      ensures Written(Data(), target, e)
    {
      var bpmnAttributes := WithAttribute(target.bpmnAttributes, "id", id);
      var effektifAttributes := WithAttribute(target.effektifAttributes, "defaultTransitionId", defaultTransitionId);
      var children := target.children;
      if multiInstance.Some? || inputs.Some? || out.Some? {
        var head := MultiInstancePart(multiInstance);
        var ins: seq<Element> := [];
        if inputs.Some? {
          ins := WriteEntries(inputs.value, InputElement);
        }
        var outs: seq<Element> := [];
        if out.Some? {
          outs := WriteEntries(out.value, OutputElement);
        }
        var content := head + ins + outs;
        assert content[..|head|] == head;
        assert content[|head|..|head| + |ins|] == ins;
        assert content[|head| + |ins|..] == outs;
        children := children + [ExtensionElements(content)];
      }
      if multiInstance.Some? {
        children := children + [Marker];
      }
      e := Element(target.ns, target.name, bpmnAttributes, effektifAttributes, children);
    }
  }
}
