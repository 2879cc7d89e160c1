/** The value records an activity definition refers to: transitions,
  * bindings, input and output parameters and the multi-instance
  * configuration. Only the parts that the activity node reads, writes or
  * builds are modelled. */
module Definitions {
  import opened Wrappers
  import opened Xml

  /** A Java `String` reference: None stands for null. */
  type Str = Option<string>

  /** A transition guard, kept opaque. */
  datatype Condition = Condition(text: string)

  /** An outgoing edge: its target id, an optional guard, and the "to next"
    * marker that lets the parser pick the positional successor. */
  datatype Transition = Transition(to: Str, condition: Option<Condition>, toNext: bool)

  /** A data source: a literal value (with an optional declared data type)
    * or an expression, kept as their text. */
  datatype Binding = Binding(value: Str, dataType: Str, expression: Str)

  /** An input port: a single binding, a list of bindings, or both fields
    * null for an empty parameter. */
  datatype InputParameter = InputParameter(binding: Option<Binding>, bindings: Option<seq<Binding>>)

  /** An output port: the variable that receives the output. */
  datatype OutputParameter = OutputParameter(variableId: Str)

  /** The multi-instance configuration. Its own fields are read and written
    * by code that is not part of this model, so it is kept as the content of
    * the element it was read from. */
  datatype MultiInstance = MultiInstance(
    bpmnAttributes: map<string, string>,
    effektifAttributes: map<string, string>,
    children: seq<Element>)

  /** `new InputParameter()` */
  const EmptyParameter := InputParameter(None, None)

  /** `new InputParameter().binding(b)`: single-binding mode. */
  function SingleParameter(b: Binding): InputParameter {
    InputParameter(Some(b), None)
  }

  /** `new Binding().value(v).dataType(t)` */
  function ValueBinding(value: Str, dataType: Str): Binding {
    Binding(value, dataType, None)
  }

  /** `new Binding().expression(e)` */
  function ExpressionBinding(expression: Str): Binding {
    Binding(None, None, expression)
  }

  /** Every binding a parameter carries, the single one first: the order in
    * which they are written out and would be resolved. */
  function AllBindings(p: InputParameter): seq<Binding> {
    (if p.binding.Some? then [p.binding.value] else []) + p.bindings.GetOr([])
  }

  /** `InputParameter.addBinding`: creates the list if it is null and
    * appends to it; the single binding is left as it is. */
  function AddBinding(p: InputParameter, b: Binding): (r: InputParameter)
    ensures r.binding == p.binding && r.bindings.Some?
    ensures AllBindings(r) == AllBindings(p) + [b]
  {
    p.(bindings := Some(p.bindings.GetOr([]) + [b]))
  }
}
