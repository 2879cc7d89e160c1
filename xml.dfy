/** An abstract XML element tree in the two namespaces of the interchange
  * dialect: the BPMN 2.0 model namespace and the vendor ("effektif")
  * extension namespace. It stands for the element cursor that the BPMN
  * reader and writer walk; its parsing and printing are not modelled. */
module Xml {
  import opened Wrappers

  datatype Namespace = Bpmn | Effektif

  /** One element: its qualified name, its attributes per namespace and its
    * ordered children. */
  datatype Element = Element(
    ns: Namespace,
    name: string,
    bpmnAttributes: map<string, string>,
    effektifAttributes: map<string, string>,
    children: seq<Element>)

  /** Reading an attribute: an absent attribute reads as null. */
  function Attribute(attributes: map<string, string>, name: string): Option<string> {
    if name in attributes then Some(attributes[name]) else None
  }

  /** Writing an attribute: a null value writes nothing. */
  function WithAttribute(attributes: map<string, string>, name: string, value: Option<string>): (r: map<string, string>)
    ensures value.Some? ==> Attribute(r, name) == value
    ensures value.None? ==> r == attributes
    ensures r.Keys == attributes.Keys + (if value.Some? then {name} else {})
    ensures forall other :: other in attributes && other != name ==> r[other] == attributes[other]
  {
    if value.Some? then attributes[name := value.value] else attributes
  }

  predicate Named(e: Element, ns: Namespace, name: string) {
    e.ns == ns && e.name == name
  }

  /** The children called `name` in namespace `ns`, in document order. */
  function ChildrenNamed(children: seq<Element>, ns: Namespace, name: string): (r: seq<Element>)
    ensures |r| <= |children|
    ensures forall i :: 0 <= i < |r| ==> Named(r[i], ns, name)
  {
    if children == [] then []
    else (if Named(children[0], ns, name) then [children[0]] else []) + ChildrenNamed(children[1..], ns, name)
  }

  lemma {:induction false} ChildrenNamedConcat(a: seq<Element>, b: seq<Element>, ns: Namespace, name: string)
    ensures ChildrenNamed(a + b, ns, name) == ChildrenNamed(a, ns, name) + ChildrenNamed(b, ns, name)
  {
    if a == [] {
      assert a + b == b;
    } else {
      assert (a + b)[1..] == a[1..] + b;
      ChildrenNamedConcat(a[1..], b, ns, name);
    }
  }

  /** Every child of the wanted name is selected: the filter drops only
    * elements of another name. */
  lemma {:induction false} ChildrenNamedComplete(children: seq<Element>, ns: Namespace, name: string)
    ensures forall e :: e in children && Named(e, ns, name) ==> e in ChildrenNamed(children, ns, name)
  {
    if children != [] {
      ChildrenNamedComplete(children[1..], ns, name);
      assert forall e :: e in children ==> e == children[0] || e in children[1..];
    }
  }

  /** Filtering a sequence whose every element has the name keeps it whole. */
  lemma {:induction false} ChildrenNamedAll(children: seq<Element>, ns: Namespace, name: string)
    requires forall i :: 0 <= i < |children| ==> Named(children[i], ns, name)
    ensures ChildrenNamed(children, ns, name) == children
  {
    if children != [] {
      ChildrenNamedAll(children[1..], ns, name);
    }
  }

  /** Filtering a sequence none of whose elements has the name yields nothing. */
  lemma {:induction false} ChildrenNamedNone(children: seq<Element>, ns: Namespace, name: string)
    requires forall i :: 0 <= i < |children| ==> !Named(children[i], ns, name)
    ensures ChildrenNamed(children, ns, name) == []
  {
    if children != [] {
      ChildrenNamedNone(children[1..], ns, name);
    }
  }
}
