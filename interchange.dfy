/** How the activity node's parts appear in the interchange document: the
  * element names, the encoding of bindings and of input and output
  * parameters, and the reading of keyed parameter elements into a map. */
module Interchange {
  import opened Wrappers
  import opened Xml
  import opened Definitions

  const ExtensionElementsTag := "extensionElements"
  const MultiInstanceTag := "multiInstance"
  const InputParameterTag := "inputParameter"
  const OutputParameterTag := "outputParameter"
  const BindingTag := "binding"
  /** The empty standard element that marks a multi-instance activity
    * (MultiInstanceLoopCharacteristics, section 10.3.8 of OMG BPMN 2.0). */
  const MarkerTag := "multiInstanceLoopCharacteristics"

  const Marker := Element(Bpmn, MarkerTag, map[], map[], [])

  /** The extension container the writer opens around the vendor content. */
  function ExtensionElements(content: seq<Element>): Element {
    Element(Bpmn, ExtensionElementsTag, map[], map[], content)
  }

  /** What the reader sees after entering the extension elements of `e`:
    * the children of its first extension container, or nothing. */
  function ExtensionContent(e: Element): seq<Element> {
    var containers := ChildrenNamed(e.children, Bpmn, ExtensionElementsTag);
    if containers == [] then [] else containers[0].children
  }

  // ---------------------------------------------------------------- bindings

  function ReadBinding(e: Element): Binding {
    Binding(Attribute(e.effektifAttributes, "value"),
            Attribute(e.effektifAttributes, "dataType"),
            Attribute(e.effektifAttributes, "expression"))
  }

  /** One `binding` element; every non-null field becomes an attribute. */
  function BindingElement(b: Binding): (r: Element)
    ensures Named(r, Effektif, BindingTag)
    ensures ReadBinding(r) == b
  {
    var attributes := WithAttribute(WithAttribute(WithAttribute(map[],
      "value", b.value), "dataType", b.dataType), "expression", b.expression);
    Element(Effektif, BindingTag, map[], attributes, [])
  }

  function BindingElements(bs: seq<Binding>): (r: seq<Element>)
    ensures |r| == |bs|
    ensures forall i :: 0 <= i < |bs| ==> r[i] == BindingElement(bs[i])
  {
    seq(|bs|, i requires 0 <= i < |bs| => BindingElement(bs[i]))
  }

  /** `readBindings("binding")`: the `binding` children in order, or null
    * when there are none. */
  function ReadBindings(e: Element): (r: Option<seq<Binding>>)
    ensures r.Some? ==> r.value != []
    ensures r.None? <==> ChildrenNamed(e.children, Effektif, BindingTag) == []
    ensures |r.GetOr([])| == |ChildrenNamed(e.children, Effektif, BindingTag)|
    ensures forall i :: 0 <= i < |r.GetOr([])| ==> r.value[i] == ReadBinding(ChildrenNamed(e.children, Effektif, BindingTag)[i])
  {
    var es := ChildrenNamed(e.children, Effektif, BindingTag);
    if es == [] then None else Some(seq(|es|, i requires 0 <= i < |es| => ReadBinding(es[i])))
  }

  // ------------------------------------------------------ input parameters

  /** The parameter `readBpmn` builds from what `readBindings` returned:
    * single-binding mode for exactly one binding, list mode otherwise, and
    * an empty parameter for null. */
  function ReadParameter(bindings: Option<seq<Binding>>): (r: InputParameter)
    ensures AllBindings(r) == bindings.GetOr([])
    ensures r.binding.Some? <==> bindings.Some? && |bindings.value| == 1
    ensures r.bindings.Some? <==> bindings.Some? && |bindings.value| != 1
  {
    if bindings.None? then EmptyParameter
    else if |bindings.value| == 1 then EmptyParameter.(binding := Some(bindings.value[0]))
    else EmptyParameter.(bindings := Some(bindings.value))
  }

  /** The `key` attribute that every parameter element carries. */
  function KeyOf(e: Element): Str {
    Attribute(e.effektifAttributes, "key")
  }

  function ReadInputParameter(e: Element): InputParameter {
    ReadParameter(ReadBindings(e))
  }

  /** The parameter that reading back a written one yields: its bindings,
    * in the mode `readBpmn` picks from their number. */
  function Canonical(p: InputParameter): InputParameter {
    var all := AllBindings(p);
    ReadParameter(if all == [] then None else Some(all))
  }

  /** An `inputParameter` element: the single binding, if any, then the
    * list, each as a `binding` child. */
  function InputElement(key: Str, p: InputParameter): (r: Element)
    ensures Named(r, Effektif, InputParameterTag)
    ensures KeyOf(r) == key
  {
    Element(Effektif, InputParameterTag, map[], WithAttribute(map[], "key", key),
            BindingElements(AllBindings(p)))
  }

  lemma InputElementRoundTrip(key: Str, p: InputParameter)
    ensures ReadInputParameter(InputElement(key, p)) == Canonical(p)
  {
    var bes := BindingElements(AllBindings(p));
    ChildrenNamedAll(bes, Effektif, BindingTag);
    var all := AllBindings(p);
    if all != [] {
      var read := seq(|bes|, i requires 0 <= i < |bes| => ReadBinding(bes[i]));
      assert read == all;
    }
  }

  /** A parameter comes back unchanged exactly when it is empty, in
    * single-binding mode, or a list of two or more bindings; a one-element
    * list comes back in single-binding mode. */
  lemma CanonicalFixes(p: InputParameter)
    ensures Canonical(p) == p <==>
      p == EmptyParameter
      || (p.binding.Some? && p.bindings.None?)
      || (p.binding.None? && p.bindings.Some? && |p.bindings.value| >= 2)
  {
    var all := AllBindings(p);
    if p.binding.None? && p.bindings.Some? && |p.bindings.value| >= 2 {
      assert all == p.bindings.value;
    }
  }

  // ----------------------------------------------------- output parameters

  function ReadOutputParameter(e: Element): OutputParameter {
    OutputParameter(Attribute(e.effektifAttributes, "id"))
  }

  /** An `outputParameter` element: `key` and target variable `id`. */
  function OutputElement(key: Str, o: OutputParameter): (r: Element)
    ensures Named(r, Effektif, OutputParameterTag)
    ensures KeyOf(r) == key
    ensures ReadOutputParameter(r) == o
  {
    Element(Effektif, OutputParameterTag, map[],
            WithAttribute(WithAttribute(map[], "key", key), "id", o.variableId), [])
  }

  // ------------------------------------------------------- multi-instance

  function ReadMultiInstance(e: Element): MultiInstance {
    MultiInstance(e.bpmnAttributes, e.effektifAttributes, e.children)
  }

  function MultiInstanceElement(mi: MultiInstance): (r: Element)
    ensures Named(r, Effektif, MultiInstanceTag)
    ensures ReadMultiInstance(r) == mi
  {
    Element(Effektif, MultiInstanceTag, mi.bpmnAttributes, mi.effektifAttributes, mi.children)
  }

  // ------------------------------------------- keyed elements into a map

  /** The keys of a sequence of parameter elements. */
  function KeysOf(es: seq<Element>): (r: set<Str>)
    ensures forall i :: 0 <= i < |es| ==> KeyOf(es[i]) in r
  {
    if es == [] then {} else KeysOf(es[..|es| - 1]) + {KeyOf(es[|es| - 1])}
  }

  /** The keys are exactly those the elements carry, and no others. */
  lemma {:induction false} KeysOfExact(es: seq<Element>)
    ensures KeysOf(es) == set i | 0 <= i < |es| :: KeyOf(es[i])
  {
    if es != [] {
      var init := es[..|es| - 1];
      KeysOfExact(init);
      assert forall i :: 0 <= i < |init| ==> init[i] == es[i];
    }
  }

  /** The map after `put(key, read(element))` for each element in order. */
  function PutEach<V>(m: map<Str, V>, es: seq<Element>, read: Element -> V): map<Str, V> {
    if es == [] then m
    else PutEach(m, es[..|es| - 1], read)[KeyOf(es[|es| - 1]) := read(es[|es| - 1])]
  }

  /** One more element read: the map of the longer prefix is the shorter
    * one's with that element put. */
  lemma PutEachStep<V>(m: map<Str, V>, es: seq<Element>, read: Element -> V, i: nat)
    requires i < |es|
    ensures PutEach(m, es[..i + 1], read) == PutEach(m, es[..i], read)[KeyOf(es[i]) := read(es[i])]
  {
    assert es[..i + 1][..i] == es[..i];
  }

  lemma {:induction false} PutEachKeys<V>(m: map<Str, V>, es: seq<Element>, read: Element -> V)
    ensures PutEach(m, es, read).Keys == m.Keys + KeysOf(es)
  {
    if es != [] {
      PutEachKeys(m, es[..|es| - 1], read);
    }
  }

  /** The entry for a key is read from the last element that carries it. */
  lemma {:induction false} PutEachLastWins<V>(m: map<Str, V>, es: seq<Element>, read: Element -> V, i: nat)
    requires i < |es|
    requires forall j :: i < j < |es| ==> KeyOf(es[j]) != KeyOf(es[i])
    ensures KeyOf(es[i]) in PutEach(m, es, read)
    ensures PutEach(m, es, read)[KeyOf(es[i])] == read(es[i])
  {
    var n := |es| - 1;
    if i < n {
      var prefix := es[..n];
      assert forall j :: i < j < |prefix| ==> prefix[j] == es[j];
      PutEachLastWins(m, prefix, read, i);
    }
  }

  /** A key that no element carries keeps its entry, or its absence. */
  lemma {:induction false} PutEachElsewhere<V>(m: map<Str, V>, es: seq<Element>, read: Element -> V, k: Str)
    requires k !in KeysOf(es)
    ensures k in PutEach(m, es, read) <==> k in m
    ensures k in m ==> PutEach(m, es, read)[k] == m[k]
  {
    if es != [] {
      PutEachElsewhere(m, es[..|es| - 1], read, k);
    }
  }

  /** Reading elements that each agree with `wanted` on their own key
    * yields `wanted` restricted to the keys they carry. */
  lemma {:induction false} PutEachAgrees<V>(es: seq<Element>, read: Element -> V, wanted: map<Str, V>)
    requires forall i :: 0 <= i < |es| ==> KeyOf(es[i]) in wanted && read(es[i]) == wanted[KeyOf(es[i])]
    ensures PutEach(map[], es, read).Keys == KeysOf(es)
    ensures forall k :: k in PutEach(map[], es, read) ==> k in wanted && PutEach(map[], es, read)[k] == wanted[k]
  {
    if es != [] {
      var prefix := es[..|es| - 1];
      assert forall i :: 0 <= i < |prefix| ==> prefix[i] == es[i];
      PutEachAgrees(prefix, read, wanted);
    }
  }

  // ------------------------------------------------------------- writing

  /** `es` writes the entries of `m` with `encode`, one element per entry,
    * in some order. */
  predicate Encodes<V>(es: seq<Element>, m: map<Str, V>, encode: (Str, V) -> Element) {
    && |es| == |m|
    && KeysOf(es) == m.Keys
    && forall i :: 0 <= i < |es| ==> KeyOf(es[i]) in m && es[i] == encode(KeyOf(es[i]), m[KeyOf(es[i])])
  }

  /** The writer's loop over `map.entrySet()`: one element per entry, in
    * the map's iteration order, which Java leaves unspecified. */
  method WriteEntries<V>(m: map<Str, V>, encode: (Str, V) -> Element) returns (es: seq<Element>)
    requires forall k, v :: KeyOf(encode(k, v)) == k
    ensures Encodes(es, m, encode)
  {
    es := [];
    var remaining := m.Keys;
    while remaining != {}
      invariant remaining <= m.Keys
      invariant KeysOf(es) == m.Keys - remaining
      invariant |es| + |remaining| == |m|
      invariant forall i :: 0 <= i < |es| ==> KeyOf(es[i]) in m && es[i] == encode(KeyOf(es[i]), m[KeyOf(es[i])])
      decreases remaining
    {
      var key :| key in remaining;
      var element := encode(key, m[key]);
      assert (es + [element])[..|es|] == es;
      es := es + [element];
      remaining := remaining - {key};
    }
  }

  /** Elements that encode entries all carry the encoder's element name. */
  lemma EncodesNamed<V>(es: seq<Element>, m: map<Str, V>, encode: (Str, V) -> Element, tag: string)
    requires Encodes(es, m, encode)
    requires forall k, v :: Named(encode(k, v), Effektif, tag)
    ensures ChildrenNamed(es, Effektif, tag) == es
  {
    assert forall i :: 0 <= i < |es| ==> Named(es[i], Effektif, tag);
    ChildrenNamedAll(es, Effektif, tag);
  }

  /** Elements that encode entries carry none of the other names. */
  lemma EncodesNotNamed<V>(es: seq<Element>, m: map<Str, V>, encode: (Str, V) -> Element, tag: string)
    requires Encodes(es, m, encode)
    requires forall k, v :: !Named(encode(k, v), Effektif, tag)
    ensures ChildrenNamed(es, Effektif, tag) == []
  {
    assert forall i :: 0 <= i < |es| ==> !Named(es[i], Effektif, tag);
    ChildrenNamedNone(es, Effektif, tag);
  }

  /** Reading back what `Encodes` describes, with a decoder that inverts the
    * encoder up to `normal`, gives `normal` applied to every entry. */
  lemma ReadEncoded<V>(es: seq<Element>, m: map<Str, V>, encode: (Str, V) -> Element,
                       read: Element -> V, normal: V -> V)
    requires Encodes(es, m, encode)
    requires forall k, v :: read(encode(k, v)) == normal(v)
    ensures PutEach(map[], es, read) == map k | k in m :: normal(m[k])
  {
    var wanted := map k | k in m :: normal(m[k]);
    PutEachAgrees(es, read, wanted);
  }
}
