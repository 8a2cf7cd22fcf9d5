/**
 * The shape predicates of the invariant-processing build step and the fixed
 * NODE_ENV test fragment they recognise.
 *
 * The source decides guard membership with a general structural equivalence
 * against a reference fragment; here that is `IsNodeEnvExpr`, a narrow
 * predicate proved equal to equality with `NodeEnvTest()`.
 */
module Shapes {
  import opened Ast

  /** Whether some element of `names` equals `x` (the `names.some(...)` scan). */
  function SomeNameIs(names: seq<string>, x: string): (r: bool)
    ensures r <==> x in names
  {
    if names == [] then false else names[0] == x || SomeNameIs(names[1..], x)
  }

  /** An identifier whose name is one of `names`. */
  function IsIdWithName(n: Node, names: seq<string>): (r: bool)
    ensures r <==> n.Ident? && n.name in names
  {
    n.Ident? && SomeNameIs(names, n.name)
  }

  /** A call or construction of the identifier `name` with more than `length` arguments. */
  function IsCallWithLength(n: Node, name: string, length: int): (r: bool)
    requires n.Call? || n.New?
    ensures r <==> n.callee == Ident(name) && |n.arguments| > length
  {
    IsIdWithName(n.callee, [name]) && |n.arguments| > length
  }

  /**
   * `process.env.NODE_ENV === "production"`, the fragment every guard is
   * built from; it is also the reference that guards are recognised by.
   */
  function NodeEnvTest(): (r: Node)
    ensures IsNodeEnvExpr(r)
  {
    Binary("===",
      Member(Member(Ident("process"), Ident("env"), false), Ident("NODE_ENV"), false),
      StringLit("production"))
  }

  /** Compares `n` with the NODE_ENV test fragment, field by field. */
  predicate IsNodeEnvExpr(n: Node)
  {
    match n
    case Binary(op, Member(Member(Ident(p), Ident(e), c1), Ident(k), c2), StringLit(v)) =>
      op == "===" && p == "process" && e == "env" && !c1 && k == "NODE_ENV" && !c2 && v == "production"
    case _ => false
  }

  /** The field-by-field comparison recognises the NODE_ENV test fragment and nothing else. */
  lemma IsNodeEnvExprExact(n: Node)
    ensures IsNodeEnvExpr(n) <==> n == NodeEnvTest()
  {
  }

  /** `process.env.NODE_ENV === "production" ? ... : ...` */
  function IsNodeEnvConditional(n: Node): (r: bool)
    ensures r <==> n.Conditional? && n.test == NodeEnvTest()
  {
    n.Conditional? && IsNodeEnvExpr(n.test)
  }

  /** `process.env.NODE_ENV === "production" || ...` */
  function IsNodeEnvLogicalOr(n: Node): (r: bool)
    ensures r <==> n.Logical? && n.operator == "||" && n.left == NodeEnvTest()
  {
    n.Logical? && n.operator == "||" && IsNodeEnvExpr(n.left)
  }

  // Reference descriptions of the three call shapes the build step rewrites,
  // stated directly on the node rather than through the predicates above.

  /** `invariant(condition, message, ...)`: a plain call of `invariant` with at least two arguments. */
  predicate IsInvariantCall(n: Node)
  {
    n.Call? && n.callee == Ident("invariant") && |n.arguments| >= 2
  }

  /** `invariant.warn(...)` or `invariant.error(...)`, in dotted or bracketed form. */
  predicate IsWarnOrErrorCall(n: Node)
  {
    && n.Call? && n.callee.Member?
    && n.callee.obj == Ident("invariant")
    && (n.callee.property == Ident("warn") || n.callee.property == Ident("error"))
  }

  /** `new InvariantError(message, ...)`: at least one argument. */
  predicate IsInvariantErrorNew(n: Node)
  {
    n.New? && n.callee == Ident("InvariantError") && |n.arguments| >= 1
  }
}
