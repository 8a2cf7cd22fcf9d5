/**
 * The syntax tree that the invariant-processing build step walks.
 *
 * Only the node kinds the rewriter inspects or builds get their own
 * constructor; every other kind of node is `Other`, which keeps its kind name
 * and its child nodes in traversal order. Source positions, comments and
 * parenthesisation are not part of the model.
 */
module Ast {

  datatype Node =
    | Ident(name: string)
    | StringLit(text: string)
    | NumLit(value: int)
      /** `obj.property`, or `obj[property]` when `computed` holds. */
    | Member(obj: Node, property: Node, computed: bool)
    | Call(callee: Node, arguments: seq<Node>)
    | New(callee: Node, arguments: seq<Node>)
    | Conditional(test: Node, consequent: Node, alternate: Node)
    | Logical(operator: string, left: Node, right: Node)
    | Binary(operator: string, left: Node, right: Node)
    | Other(kind: string, children: seq<Node>)

  /**
   * A node whose children are a sequence of nodes behind a fixed head: the
   * callee of a call, the callee of a construction, or the kind of an `Other`
   * node. `Build` puts a sequence of children back under that head.
   */
  datatype ListHost = CallHost(callee: Node) | NewHost(callee: Node) | OtherHost(kind: string)
  {
    function Build(items: seq<Node>): (r: Node)
      ensures !r.Conditional? && !r.Logical?
    {
      match this
      case CallHost(c) => Call(c, items)
      case NewHost(c) => New(c, items)
      case OtherHost(k) => Other(k, items)
    }
  }
}
