/**
 * The tree walker of `lib/index.js`: `_processNode` routes each node by
 * sniffing its `type` and two flags, and the `_process*` handlers emit the
 * node's events and hand its children back to `_processNode`. The walk is
 * modelled as a function from a node to the trace of events it emits.
 */
module Walker {
  import opened Wrappers
  import opened Js
  import opened Ast
  import opened Events
  import opened Values
  import opened Filename

  /** The handler `_processNode` hands a node to. */
  datatype Route = ToImport | ToMixin | ToComment | ToMedia | ToRuleset | ToVariable | ToRule | Unrecognised

  /** `_processNode`'s tests, made in the order it makes them: the first that holds decides. */
  function RouteOf(n: Node): Route {
    if Test("import", n.kind) then ToImport
    else if Test("mixin", n.kind) then ToMixin
    else if Test("comment", n.kind) then ToComment
    else if Test("media", n.kind) then ToMedia
    else if n.isRuleset then ToRuleset
    else if n.variable then ToVariable
    else if Test("rule", n.kind) then ToRule
    else Unrecognised
  }

  /** `_processNode`. An unrecognised node is only logged, and the walk goes on. */
  function ProcessNode(n: Node): Trace
    decreases n, 4
  {
    match RouteOf(n)
    case ToImport => Emit(Import(n))
    case ToMixin => ProcessMixin(n)
    case ToComment => ProcessComment(n)
    case ToMedia => ProcessMedia(n)
    case ToRuleset => ProcessRuleset(n)
    case ToVariable => ProcessVariable(n)
    case ToRule => ProcessRule(n)
    case Unrecognised => Quiet
  }

  /** `forEach(this._processNode)`: the nodes in order, until one throws. */
  function ProcessNodes(ns: seq<Node>): Trace
    decreases ns
  {
    if |ns| == 0 then Quiet else Then(ProcessNode(ns[0]), ProcessNodes(ns[1..]))
  }

  /** `rule.rules.forEach(...)`, which throws when the node has no `rules` array. */
  function ProcessChildren(n: Node): Trace
    decreases n, 0
  {
    match n.rules
    case Absent => Throw(TypeError("rules.forEach"))
    case Present(ns) => ProcessNodes(ns)
  }

  /** `_processRoot`: the ROOT event, named by the file-name guess, then the root as a ruleset. */
  function ProcessRoot(root: Node): Trace {
    match GetFilename(root)
    case Failure(e) => Throw(e)
    case Success(name) => Then(Emit(Root(name, root)), ProcessRuleset(root))
  }

  /** `_processRuleset`: RULESET, the selector events if `selectors` is truthy, then the children. */
  function ProcessRuleset(r: Node): Trace
    decreases r, 1
  {
    var selectors := if r.selectors.Some? then Trace(ProcessSelectors(r.selectors.value), None) else Quiet;
    Then(Emit(Ruleset(r)), Then(selectors, ProcessChildren(r)))
  }

  /** `_processSelectors`: for each selector, SELECTORS and then its elements. */
  function ProcessSelectors(sels: seq<Selector>): seq<Event> {
    if |sels| == 0 then [] else [Selectors(sels[0])] + ProcessSelector(sels[0]) + ProcessSelectors(sels[1..])
  }

  /** `_processSelector`: one SELECTOR event per element, named by the element's value and carrying the element. */
  function ProcessSelector(sel: Selector): seq<Event> {
    ElementEvents(sel.elements)
  }

  function ElementEvents(elements: seq<Element>): seq<Event> {
    if |elements| == 0 then [] else [SelectorElement(elements[0].value, elements[0])] + ElementEvents(elements[1..])
  }

  /** `_processRule`: one RULE event with the name segments and the reduced values, each joined. */
  function ProcessRule(n: Node): Trace {
    match n.fields
    case RuleFields(Segments(parts), value) =>
      (match RuleValues(value.list)
       case Failure(e) => Throw(e)
       case Success(vs) => Emit(Rule(Join(parts, ", "), Join(RenderAll(vs), ", "), n)))
    case _ => Throw(TypeError("name.map"))
  }

  /** `_processVariable`: one VARIABLE event with the raw name and the value's rendering. */
  function ProcessVariable(n: Node): Trace {
    match n.fields
    case RuleFields(name, value) => Emit(Variable(name, value.css, n))
    case _ => Throw(TypeError("value.toCSS"))
  }

  /** `_processComment`: one COMMENT event; a missing `value` is reported as `undefined`. */
  function ProcessComment(n: Node): Trace {
    Emit(Comment(if n.fields.CommentFields? then Some(n.fields.text) else None, n))
  }

  /** `_processMixin`: MIXIN, then the definition or call handler; any other mixin type throws. */
  function ProcessMixin(n: Node): Trace
    decreases n, 3
  {
    Then(Emit(Mixin(n)),
      if Test("definition", n.kind) then ProcessMixinDefinition(n)
      else if Test("call", n.kind) then ProcessMixinCall(n)
      else Throw(MixinTypeNotUnderstood(n.kind)))
  }

  /** `param.name` of each parameter; `join` prints a missing name as the empty string. */
  function ParamNames(params: seq<Option<string>>): (r: seq<string>)
    ensures |r| == |params|
    ensures forall i :: 0 <= i < |params| ==> r[i] == (if params[i].Some? then params[i].value else "")
  {
    if |params| == 0 then [] else [if params[0].Some? then params[0].value else ""] + ParamNames(params[1..])
  }

  /** `_processMixinDefinition`: MIXIN_DEFINITION, then the body as a ruleset when `isRuleset`. */
  function ProcessMixinDefinition(n: Node): Trace
    decreases n, 2
  {
    match n.fields
    case DefinitionFields(name, params) =>
      Then(Emit(MixinDefinition(name, Join(ParamNames(params), ", "), n)),
        if n.isRuleset then ProcessRuleset(n) else Quiet)
    case _ => Throw(TypeError("params.map"))
  }

  /** `_processMixinCall`: one MIXIN_CALL event; a call site is never descended into. */
  function ProcessMixinCall(n: Node): Trace {
    match n.fields
    case CallFields(selector, arguments) =>
      Emit(MixinCall(Join(ElementValues(selector.elements), ", "), ArgumentValues(arguments), n))
    case _ => Throw(TypeError("selector.elements"))
  }

  /** `_processMedia`: MEDIA with the reduced features joined, then every body node. */
  function ProcessMedia(n: Node): Trace
    decreases n, 1
  {
    match n.fields
    case MediaFields(features) =>
      (match RuleValues(features)
       case Failure(e) => Throw(e)
       case Success(vs) => Then(Emit(Media(Join(RenderAll(vs), ", "), n)), ProcessChildren(n)))
    case _ => Throw(TypeError("features.value"))
  }
}
