/**
 * The syntax tree the walker receives from the stylesheet parser.
 *
 * A parser node is a JavaScript object; the walker reads a handful of its
 * fields and tells kinds apart by sniffing the `type` string and two flags.
 * `Node` therefore keeps `type`, the flags and the fields every handler
 * shares as record fields, and gathers the fields that only one handler
 * reads into `Fields`. A node whose `Fields` do not match the handler it is
 * routed to is a node on which that handler dereferences a missing field.
 */
module Ast {
  import opened Wrappers
  import opened Js

  /** The object found at `expression.value[0]`: its `type`, `value` and `name`. */
  datatype Leaf = Leaf(kind: string, value: Prop, name: Prop)

  /** An expression of a value list; `operands` is its `value` array, `None` when absent. */
  datatype Expr = Expr(operands: Option<seq<Leaf>>)

  /** What the leaf-value reducer is handed: a bare string or an array of expressions. */
  datatype ValueList = Raw(text: string) | Exprs(items: seq<Expr>)

  /** A rule's `value` node: its own `value` field, and the text its serializer renders. */
  datatype RuleValue = RuleValue(list: ValueList, css: string)

  /** A rule's `name`: a plain string (variables) or an array of keyword segments. */
  datatype Name = Plain(text: string) | Segments(parts: seq<string>)

  /** A selector element, through its `value`. */
  datatype Element = Element(value: string)

  /** A selector: its `elements` array. */
  datatype Selector = Selector(elements: seq<Element>)

  /** The `value` of each element, in order. */
  function ElementValues(elements: seq<Element>): (r: seq<string>)
    ensures |r| == |elements|
    ensures forall i :: 0 <= i < |elements| ==> r[i] == elements[i].value
  {
    if |elements| == 0 then [] else [elements[0].value] + ElementValues(elements[1..])
  }

  /** A mixin-call argument; `value` is the expression it passes, `None` when absent. */
  datatype Arg = Arg(value: Option<Expr>)

  /** The fields that a single handler reads. */
  datatype Fields =
    | Bare
    | RuleFields(name: Name, value: RuleValue)
    | CommentFields(text: string)
    | DefinitionFields(mixinName: string, params: seq<Option<string>>)
    | CallFields(selector: Selector, arguments: seq<Arg>)
    | MediaFields(features: ValueList)

  /** A node's `rules` array, or its absence. */
  datatype Children = Absent | Present(nodes: seq<Node>)

  /**
   * A parser node: `type`, the truthiness of `isRuleset`, whether
   * `variable === true`, the file name of a truthy `currentFileInfo`, the
   * `rules` array, a truthy `selectors` array, and the handler-specific fields.
   */
  datatype Node = Node(
    kind: string,
    isRuleset: bool,
    variable: bool,
    fileInfo: Option<string>,
    rules: Children,
    selectors: Option<seq<Selector>>,
    fields: Fields)
}
