# Effektif activity definition node, modelled in Dafny

This project models the `Activity` node of the Effektif workflow definition
model (`effektif-workflow-api/src/main/java/com/effektif/workflow/api/workflow/Activity.java`). An activity is one node of a workflow graph. It has an id, a
default transition id, an optional multi-instance configuration, an ordered list
of outgoing transitions, and two maps of named data ports: inputs
(`InputParameter`) and outputs (`OutputParameter`). The model covers:

- the additive builder API, which fills these fields in place:
  `transitionTo`, `transitionWithConditionTo`, `transitionToNext`, `inValue`,
  `inExpression`, `inBinding`, `inListBinding`, `out` and the setters;
- the activity's part of the BPMN 2.0 interchange, `readBpmn` and
  `writeBpmn`. These use two namespaces: the standard BPMN one (the `id`
  attribute, the `extensionElements` container and the empty
  `multiInstanceLoopCharacteristics` marker of section 10.3.8 of OMG BPMN 2.0)
  and the vendor "effektif" extension (`defaultTransitionId`, `multiInstance`,
  `inputParameter`, `outputParameter`, `binding`).

Files and modules:

- `wrappers.dfy` (`Wrappers`): `Option`. A Java reference that may be null
  is an `Option`, and a Java `String` is `Str = Option<string>`. Map keys
  are `Str` too, because a `HashMap` accepts a null key and a missing `key`
  attribute reads as null.
- `xml.dfy` (`Xml`): an abstract element tree. Each element has a namespace,
  a name, one attribute map per namespace and an ordered list of children. It
  stands for the cursors `BpmnReader`, `BpmnWriter` and `XmlElement`.
- `definitions.dfy` (`Definitions`): minimal `Transition`, `Condition`,
  `Binding`, `InputParameter`, `OutputParameter` and `MultiInstance`.
- `interchange.dfy` (`Interchange`): the element encoding of bindings and
  parameters, and reading keyed elements into a map (`PutEach`). It also holds
  the writer loop over a map's entries (`WriteEntries`).
- `activity.dfy` (`Activities`): the class `Activity` with the source's
  fields, its builder and read/write methods, the specification functions
  `ReadActivity` and `Written`, and the lemmas that relate them.

Every state-changing method says the whole new state. It does so through
`Data()`, a snapshot of the six fields: `ensures Data() == old(Data()).(inputs
:= inputs)` means that nothing else changed. `ReadBpmn` is proved against the
function `ReadActivity`. `WriteBpmn` is proved against the predicate
`Written`. The round-trip lemmas connect the two.

What the source does, where a loose reading would suggest otherwise:

- Several `multiInstance` elements are all read, and the last one wins.
- An `inputParameter` with no `binding` child reads as an empty parameter.
  This holds under the reader convention in "## Left out" that
  `readBindings` returns null when there is no child. If it returned an empty
  list, `Activity.java` lines 66-72 would set list mode with an empty list instead.
- A later `inputParameter` or `outputParameter` with a key already read
  overwrites the earlier one.
- An input map or output map that is empty but not null writes no
  `inputParameter` or `outputParameter` element. It therefore reads back as
  null (`OutputsReadBack`, `InputsReadBack`). The extension container is still
  opened, because the writer checks only for null. When nothing else is set,
  that container is empty (`EmptyMapsOpenEmptyContainer`).
- `readBpmn` and `writeBpmn` in `Activity.java` never read or write
  `outgoingTransitions`. Reading leaves the field as it was
  (`ReadKeepsAbsentParts`), and `RoundTrip` says nothing about transitions.
  Transitions are interchanged by the scope code, which is not part of this
  model.
- An input parameter whose list holds exactly one binding is written as one
  `binding` child. It reads back in single-binding mode (`Canonical`,
  `CanonicalFixes`). Parameters that are empty, single, or hold two or more
  bindings in list mode come back unchanged.
- `inListBinding` on a key that `inBinding` set keeps the single binding and
  starts a list beside it. Both are written, single first, and read back as one
  list. This holds under the `addBinding` convention in "## Left out": it
  appends to the list and leaves the single binding in place.

## Model

| member | source | states |
|---|---|---|
| `Xml.WithAttribute` | effektif-workflow-api/src/main/java/com/effektif/workflow/api/workflow/Activity.java:95-96 | writing a null attribute value writes nothing; a non-null value reads back, and other attributes are kept |
| `Xml.ChildrenNamed` | effektif-workflow-api/src/main/java/com/effektif/workflow/api/workflow/Activity.java:50 | selecting the children of one name (as `readElementsEffektif` does) keeps only elements of that name and never more than there are |
| `Xml.ChildrenNamedComplete` | effektif-workflow-api/src/main/java/com/effektif/workflow/api/workflow/Activity.java:50 | every child of the wanted name is selected |
| `Xml.ChildrenNamedConcat` | effektif-workflow-api/src/main/java/com/effektif/workflow/api/workflow/Activity.java:50 | the selection of a concatenation is the concatenation of the selections, so document order is kept |
| `Definitions.AddBinding` | effektif-workflow-api/src/main/java/com/effektif/workflow/api/workflow/Activity.java:243 | `addBinding` keeps the single binding, makes the list non-null and appends, so all bindings are the old ones followed by the new one |
| `Interchange.BindingElement` | effektif-workflow-api/src/main/java/com/effektif/workflow/api/workflow/Activity.java:111-114 | a written `binding` element is named `binding` in the extension namespace and reads back to the same binding |
| `Interchange.ReadBindings` | effektif-workflow-api/src/main/java/com/effektif/workflow/api/workflow/Activity.java:63 | `readBindings` gives null exactly when there is no `binding` child; otherwise a non-empty list with one binding per `binding` child |
| `Interchange.ReadParameter` | effektif-workflow-api/src/main/java/com/effektif/workflow/api/workflow/Activity.java:65-74 | the parameter built from the bindings read holds them all in order; it is in single mode iff exactly one was read, in list mode iff the result was non-null and not of size one |
| `Interchange.InputElement` | effektif-workflow-api/src/main/java/com/effektif/workflow/api/workflow/Activity.java:109-115 | a written `inputParameter` element has that name and carries the parameter's key |
| `Interchange.InputElementRoundTrip` | effektif-workflow-api/src/main/java/com/effektif/workflow/api/workflow/Activity.java:107-116 | reading a written `inputParameter` gives the parameter in canonical mode |
| `Interchange.CanonicalFixes` | effektif-workflow-api/src/main/java/com/effektif/workflow/api/workflow/Activity.java:66-73 | a parameter reads back unchanged iff it is empty, single-mode, or a list of two or more bindings |
| `Interchange.OutputElement` | effektif-workflow-api/src/main/java/com/effektif/workflow/api/workflow/Activity.java:120-125 | a written `outputParameter` has that name, carries its key and reads back to the same variable id |
| `Interchange.MultiInstanceElement` | effektif-workflow-api/src/main/java/com/effektif/workflow/api/workflow/Activity.java:103-105 | the written `multiInstance` element reads back to the same configuration |
| `Interchange.KeysOfExact` | effektif-workflow-api/src/main/java/com/effektif/workflow/api/workflow/Activity.java:75 | the keys collected from a sequence of parameter elements are exactly the keys those elements carry |
| `Interchange.PutEachKeys` | effektif-workflow-api/src/main/java/com/effektif/workflow/api/workflow/Activity.java:75 | after putting the elements read, the map's keys are the old keys plus every key read |
| `Interchange.PutEachLastWins` | effektif-workflow-api/src/main/java/com/effektif/workflow/api/workflow/Activity.java:79-88 | the entry for a key is read from the last element that carries the key (a later duplicate overwrites) |
| `Interchange.PutEachElsewhere` | effektif-workflow-api/src/main/java/com/effektif/workflow/api/workflow/Activity.java:57-77 | a key that no element carries keeps its entry, or stays absent |
| `Interchange.WriteEntries` | effektif-workflow-api/src/main/java/com/effektif/workflow/api/workflow/Activity.java:107-126 | the writer's loop over a map's entries writes exactly one element per entry, in an unspecified order, each the encoding of that entry |
| `Interchange.ReadEncoded` | effektif-workflow-api/src/main/java/com/effektif/workflow/api/workflow/Activity.java:119-126 | reading back every entry written for a map gives the map again, up to the decoder's normal form |
| `Activities.ListBindingsKeepOrder` | effektif-workflow-api/src/main/java/com/effektif/workflow/api/workflow/Activity.java:234-245 | repeated `inListBinding` under one key keeps the earlier bindings and appends the new ones in insertion order; other keys are untouched |
| `Activities.ListBindingsOnFreshKey` | effektif-workflow-api/src/main/java/com/effektif/workflow/api/workflow/Activity.java:234-245 | on a key that held nothing, repeated `inListBinding` leaves a list-mode parameter holding exactly the bindings added |
| `Activities.ReadKeepsAbsentParts` | effektif-workflow-api/src/main/java/com/effektif/workflow/api/workflow/Activity.java:50-88 | `readBpmn` leaves `inputs`/`out` null iff they were null and no element of that kind is present; without a `multiInstance` element it keeps the configuration; transitions are not touched |
| `Activities.ReadInputAt` | effektif-workflow-api/src/main/java/com/effektif/workflow/api/workflow/Activity.java:57-77 | each `inputParameter` not overridden later is stored under its key: single mode iff one binding was read, list mode iff more, empty iff none |
| `Activities.ReadOutputAt` | effektif-workflow-api/src/main/java/com/effektif/workflow/api/workflow/Activity.java:79-88 | each `outputParameter` not overridden later maps its `key` to an output parameter whose variable id is its `id` attribute |
| `Activities.WrittenContainerAndMarker` | effektif-workflow-api/src/main/java/com/effektif/workflow/api/workflow/Activity.java:100-135 | the writer adds one extension container iff one of `multiInstance`, `inputs`, `out` is non-null, and one standard marker iff `multiInstance` is non-null |
| `Activities.WrittenExtensionContent` | effektif-workflow-api/src/main/java/com/effektif/workflow/api/workflow/Activity.java:100-129 | the reader enters the container the writer added, or finds no extension content when none was written |
| `Activities.InputsReadBackFromWritten` | effektif-workflow-api/src/main/java/com/effektif/workflow/api/workflow/Activity.java:107-117 | the written input elements read back into the input map in canonical mode (an empty map as null) |
| `Activities.OutputsReadBackFromWritten` | effektif-workflow-api/src/main/java/com/effektif/workflow/api/workflow/Activity.java:119-126 | the written output elements read back into the same output map (an empty map as null) |
| `Activities.ExtensionReadBack` | effektif-workflow-api/src/main/java/com/effektif/workflow/api/workflow/Activity.java:100-129 | reading a written extension container gives back the multi-instance configuration, the inputs and the outputs |
| `Activities.EmptyMapsOpenEmptyContainer` | effektif-workflow-api/src/main/java/com/effektif/workflow/api/workflow/Activity.java:100-129 | with no multi-instance and only empty non-null maps, exactly one extension container is written, and it is empty |
| `Activities.RoundTrip` | effektif-workflow-api/src/main/java/com/effektif/workflow/api/workflow/Activity.java:43-137 | reading what `writeBpmn` wrote into a fresh activity gives back id, default transition id, multi-instance, outputs, and inputs in canonical mode |
| `Activities.OutRoundTrip` | effektif-workflow-api/src/main/java/com/effektif/workflow/api/workflow/Activity.java:79-126 | a non-empty output map written and read back is the same map: same keys, same variable ids |
| `Activities.Activity.constructor` | effektif-workflow-api/src/main/java/com/effektif/workflow/api/workflow/Activity.java:34-41 | a new activity has every field null |
| `Activities.Activity.SetId` | effektif-workflow-api/src/main/java/com/effektif/workflow/api/workflow/Activity.java:142-148 | sets `id`, nothing else changes |
| `Activities.Activity.SetDefaultTransitionId` | effektif-workflow-api/src/main/java/com/effektif/workflow/api/workflow/Activity.java:153-159 | sets `defaultTransitionId`, nothing else changes |
| `Activities.Activity.SetMultiInstance` | effektif-workflow-api/src/main/java/com/effektif/workflow/api/workflow/Activity.java:167-173 | sets `multiInstance`, nothing else changes |
| `Activities.Activity.SetOutgoingTransitions` | effektif-workflow-api/src/main/java/com/effektif/workflow/api/workflow/Activity.java:204-206 | sets `outgoingTransitions`, nothing else changes |
| `Activities.Activity.SetInputs` | effektif-workflow-api/src/main/java/com/effektif/workflow/api/workflow/Activity.java:211-213 | sets `inputs`, nothing else changes |
| `Activities.Activity.SetOut` | effektif-workflow-api/src/main/java/com/effektif/workflow/api/workflow/Activity.java:250-252 | sets `out`, nothing else changes |
| `Activities.Activity.TransitionTo` | effektif-workflow-api/src/main/java/com/effektif/workflow/api/workflow/Activity.java:192-198 | creates the list if null and appends the transition at the end; earlier transitions and all other fields are unchanged |
| `Activities.Activity.TransitionToId` | effektif-workflow-api/src/main/java/com/effektif/workflow/api/workflow/Activity.java:175-178 | appends exactly one unconditional transition to the given id |
| `Activities.Activity.TransitionWithConditionTo` | effektif-workflow-api/src/main/java/com/effektif/workflow/api/workflow/Activity.java:180-185 | appends exactly one transition with the condition and the target id |
| `Activities.Activity.TransitionToNext` | effektif-workflow-api/src/main/java/com/effektif/workflow/api/workflow/Activity.java:187-190 | appends exactly one transition marked "to next" |
| `Activities.Activity.InBinding` | effektif-workflow-api/src/main/java/com/effektif/workflow/api/workflow/Activity.java:227-233 | creates the map if null and puts a fresh single-mode parameter under the key, replacing any earlier one; other keys and fields are unchanged |
| `Activities.Activity.InValue` | effektif-workflow-api/src/main/java/com/effektif/workflow/api/workflow/Activity.java:214-217 | `inBinding` with an untyped value binding |
| `Activities.Activity.InTypedValue` | effektif-workflow-api/src/main/java/com/effektif/workflow/api/workflow/Activity.java:218-222 | `inBinding` with a value binding of the given data type |
| `Activities.Activity.InExpression` | effektif-workflow-api/src/main/java/com/effektif/workflow/api/workflow/Activity.java:223-226 | `inBinding` with an expression binding |
| `Activities.Activity.InListBinding` | effektif-workflow-api/src/main/java/com/effektif/workflow/api/workflow/Activity.java:234-245 | creates the map if null and an empty parameter if the key is absent, then appends the binding after the parameter's earlier bindings; other keys and fields are unchanged |
| `Activities.Activity.Out` | effektif-workflow-api/src/main/java/com/effektif/workflow/api/workflow/Activity.java:253-260 | creates the map if null and maps the key to an output parameter with the variable id, replacing any earlier entry; other keys and fields are unchanged |
| `Activities.Activity.ReadBpmn` | effektif-workflow-api/src/main/java/com/effektif/workflow/api/workflow/Activity.java:43-91 | the new fields are `ReadActivity` of the old ones and the element |
| `Activities.Activity.ReadMultiInstanceElements` | effektif-workflow-api/src/main/java/com/effektif/workflow/api/workflow/Activity.java:50-55 | the last `multiInstance` element read wins; nothing else changes |
| `Activities.Activity.ReadInputElements` | effektif-workflow-api/src/main/java/com/effektif/workflow/api/workflow/Activity.java:57-77 | the input map is created when an element is present and each element is put under its key in order; nothing else changes |
| `Activities.Activity.ReadOutputElements` | effektif-workflow-api/src/main/java/com/effektif/workflow/api/workflow/Activity.java:79-88 | the output map is created when an element is present and each element is put under its key in order; nothing else changes |
| `Activities.Activity.WriteBpmn` | effektif-workflow-api/src/main/java/com/effektif/workflow/api/workflow/Activity.java:93-137 | writes `id` and `defaultTransitionId`, then the extension container when one of `multiInstance`, `inputs`, `out` is non-null, then the marker when a multi-instance is present (`Written`) |

## Left out

- The scope part of an activity is not modelled. This covers `super.readBpmn`
  and `super.writeBpmn` (nested activities, scope transitions, variables,
  timers, properties) and the overrides `activity`, `transition`,
  `variable`, `timer` and `property` (lines 262-296), which only delegate
  to `Scope`. Scope.java is not part of this model. `WriteBpmn` takes the
  element as the scope writer left it.
- The internals of `BpmnReader`, `BpmnWriter` and `XmlElement` are not
  modelled, and their code is not part of this model. The model adopts these
  conventions for them:
  - an absent attribute reads as null;
  - writing a null attribute, a null binding or a null list writes nothing;
  - the reader enters the first standard `extensionElements` child;
  - `readBindings` returns null when there is no `binding` child, and
    otherwise one binding per `binding` child, in order.
- `InputParameter.addBinding` is not part of this model. The model's
  `AddBinding` appends to the binding list, creating the list when it is
  null, and leaves the single binding in place.
- If the reader removes elements once they are read, that is not modelled.
  It would not change what this activity reads, because each loop selects a
  different element name.
- `MultiInstance.readBpmn` and `MultiInstance.writeBpmn` are not modelled.
  A configuration is kept as the content of its `multiInstance` element, so
  it reads back unchanged by construction.
- Binding values and data types are kept as text. Typed values and their
  serialisation are not modelled.
- Null elements and values are not modelled. This covers:
  - `inBinding` and `inListBinding` with a null `Binding`;
  - maps holding null values;
  - `transitionTo` with a null `Transition`, which the source appends at line 196;
  - a list holding nulls passed to `setOutgoingTransitions`.
  `Transition`, `Binding` and the parameters are values that cannot be null.
- The builder methods return nothing. The Java methods return `this` for
  chaining.
- Getters are not modelled: the Dafny fields are readable as they are.
- The lists and maps are values. Aliasing through a list returned by
  `getOutgoingTransitions` or a map passed to `setInputs` is not captured.
- `Activities.RoundTrip` requires that the scope writer left no `id`
  attribute, no `defaultTransitionId` attribute and no extension container
  of its own. `Activities.OutRoundTrip` requires only that there be no such
  container. Both requires exist because the code that writes those parts is
  not part of this model.
- Expression compilation and execution, multi-instance execution,
  `ExpressionServiceImpl`, `ScriptResult`, `GroupIdDeserializer`,
  `NoneTask` and `WorkflowParseListener` are not modelled. They are service
  wiring, plain records or empty types outside the activity node.
