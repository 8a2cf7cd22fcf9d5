/**
 * The rewrite performed by the visitor of the invariant-processing build
 * step, as pure functions.
 *
 * `Visit` rewrites a node below a given parent and threads the error-code
 * counter: codes are handed out from `next` upwards and each one is returned
 * with its manifest entry. Children are rewritten before their parent. Since
 * the source substitutes each rewritten child into its parent in place, a
 * child sees as its parent the parent node with the earlier children already
 * rewritten; `Visit` and `VisitList` pass exactly that node down.
 */
module Rewrite {
  import opened Ast
  import opened Manifest
  import opened Shapes

  /**
   * The rules for a call whose children are already rewritten: guard an
   * unguarded `invariant(a, b, ...)` by the NODE_ENV test with the
   * production branch `invariant(a, code)`, and short-circuit an unguarded
   * `invariant.warn(...)` / `invariant.error(...)` behind the test.
   */
  function RewriteCall(n: Node, parent: Node, file: string, next: int): (r: Step)
    requires n.Call?
    ensures |r.entries| <= 1 && Numbered(r.entries, next, FilePrefix + file)
    ensures IsInvariantCall(n) && !IsNodeEnvConditional(parent) ==>
      r == Step(Conditional(NodeEnvTest(), Call(n.callee, [n.arguments[0], NumLit(next)]), n),
                [CodeEntry(next, FilePrefix + file, n)])
    ensures IsWarnOrErrorCall(n) && !IsNodeEnvLogicalOr(parent) ==>
      r == Step(Logical("||", NodeEnvTest(), n), [])
    ensures ((IsInvariantCall(n) && IsNodeEnvConditional(parent))
          || (IsWarnOrErrorCall(n) && IsNodeEnvLogicalOr(parent))
          || (!IsInvariantCall(n) && !IsWarnOrErrorCall(n))) ==>
      r == Step(n, [])
  {
    if IsCallWithLength(n, "invariant", 1) then
      if IsNodeEnvConditional(parent) then Step(n, [])
      else
        var numLit := NumLit(next);
        var newArgs := n.arguments[..1] + [numLit];
        assert newArgs == [n.arguments[0], numLit];
        Step(Conditional(NodeEnvTest(), Call(n.callee, newArgs), n), [CodeEntry(next, FilePrefix + file, n)])
    else if n.callee.Member? && IsIdWithName(n.callee.obj, ["invariant"])
         && IsIdWithName(n.callee.property, ["warn", "error"]) then
      if IsNodeEnvLogicalOr(parent) then Step(n, [])
      else Step(Logical("||", NodeEnvTest(), n), [])
    else
      Step(n, [])
  }

  /**
   * The rule for a construction whose children are already rewritten: guard
   * an unguarded `new InvariantError(message, ...)` by the NODE_ENV test with
   * the production branch `new InvariantError(code)`.
   */
  function RewriteNew(n: Node, parent: Node, file: string, next: int): (r: Step)
    requires n.New?
    ensures |r.entries| <= 1 && Numbered(r.entries, next, FilePrefix + file)
    ensures IsInvariantErrorNew(n) && !IsNodeEnvConditional(parent) ==>
      r == Step(Conditional(NodeEnvTest(), New(n.callee, [NumLit(next)]), n),
                [CodeEntry(next, FilePrefix + file, n)])
    ensures !IsInvariantErrorNew(n) || IsNodeEnvConditional(parent) ==> r == Step(n, [])
  {
    if IsCallWithLength(n, "InvariantError", 0) then
      if IsNodeEnvConditional(parent) then Step(n, [])
      else
        var newArgs := [NumLit(next)];
        Step(Conditional(NodeEnvTest(), New(n.callee, newArgs), n), [CodeEntry(next, FilePrefix + file, n)])
    else
      Step(n, [])
  }

  /** The parsed file around its program: the parent of the program node. */
  function FileNode(program: Node): Node
  {
    Other("File", [program])
  }

  /**
   * Rewrites `n`, whose parent is `parent`, handing out codes from `next`.
   * Only calls and constructions look at the parent; each child of `n` is
   * visited below `n` as it stands with the earlier children rewritten.
   */
  function Visit(n: Node, parent: Node, file: string, next: int): (r: Step)
    decreases n, 2
  {
    match n
    case Ident(_) => Step(n, [])
    case StringLit(_) => Step(n, [])
    case NumLit(_) => Step(n, [])
    case Member(_, _, _) => VisitMember(n, file, next)
    case Call(_, _) => VisitCall(n, parent, file, next)
    case New(_, _) => VisitNew(n, parent, file, next)
    case Conditional(_, _, _) => VisitConditional(n, file, next)
    case Logical(_, _, _) => VisitLogical(n, file, next)
    case Binary(_, _, _) => VisitBinary(n, file, next)
    case Other(kind, cs) =>
      var cs' := VisitList(OtherHost(kind), [], cs, file, next);
      Step(Other(kind, cs'.nodes), cs'.entries)
  }

  function VisitMember(n: Node, file: string, next: int): (r: Step)
    requires n.Member?
    decreases n, 1
  {
    var o' := Visit(n.obj, n, file, next);
    var p' := Visit(n.property, Member(o'.node, n.property, n.computed), file, next + |o'.entries|);
    Step(Member(o'.node, p'.node, n.computed), o'.entries + p'.entries)
  }

  function VisitLogical(n: Node, file: string, next: int): (r: Step)
    requires n.Logical?
    decreases n, 1
  {
    var l' := Visit(n.left, n, file, next);
    var r' := Visit(n.right, Logical(n.operator, l'.node, n.right), file, next + |l'.entries|);
    Step(Logical(n.operator, l'.node, r'.node), l'.entries + r'.entries)
  }

  function VisitBinary(n: Node, file: string, next: int): (r: Step)
    requires n.Binary?
    decreases n, 1
  {
    var l' := Visit(n.left, n, file, next);
    var r' := Visit(n.right, Binary(n.operator, l'.node, n.right), file, next + |l'.entries|);
    Step(Binary(n.operator, l'.node, r'.node), l'.entries + r'.entries)
  }

  /** A call: callee, then arguments, then the call rule on the rewritten call. */
  function VisitCall(n: Node, parent: Node, file: string, next: int): (r: Step)
    requires n.Call?
    decreases n, 1
  {
    var ch := VisitCallChildren(n, file, next);
    var own := RewriteCall(ch.node, parent, file, next + |ch.entries|);
    Step(own.node, ch.entries + own.entries)
  }

  /** The callee, then the arguments below the call as it stands with its callee rewritten. */
  function VisitCallChildren(n: Node, file: string, next: int): (r: Step)
    requires n.Call?
    ensures r.node.Call? && |r.node.arguments| == |n.arguments|
    decreases n, 0
  {
    var c' := Visit(n.callee, n, file, next);
    var args' := VisitList(CallHost(c'.node), [], n.arguments, file, next + |c'.entries|);
    Step(Call(c'.node, args'.nodes), c'.entries + args'.entries)
  }

  /** A construction: callee, then arguments, then the construction rule. */
  function VisitNew(n: Node, parent: Node, file: string, next: int): (r: Step)
    requires n.New?
    decreases n, 1
  {
    var ch := VisitNewChildren(n, file, next);
    var own := RewriteNew(ch.node, parent, file, next + |ch.entries|);
    Step(own.node, ch.entries + own.entries)
  }

  /** The callee, then the arguments below the construction as it stands with its callee rewritten. */
  function VisitNewChildren(n: Node, file: string, next: int): (r: Step)
    requires n.New?
    ensures r.node.New? && |r.node.arguments| == |n.arguments|
    decreases n, 0
  {
    var c' := Visit(n.callee, n, file, next);
    var args' := VisitList(NewHost(c'.node), [], n.arguments, file, next + |c'.entries|);
    Step(New(c'.node, args'.nodes), c'.entries + args'.entries)
  }

  function VisitConditional(n: Node, file: string, next: int): (r: Step)
    requires n.Conditional?
    decreases n, 1
  {
    var t' := Visit(n.test, n, file, next);
    var c' := Visit(n.consequent, Conditional(t'.node, n.consequent, n.alternate), file, next + |t'.entries|);
    var a' := Visit(n.alternate, Conditional(t'.node, c'.node, n.alternate), file, next + |t'.entries| + |c'.entries|);
    Step(Conditional(t'.node, c'.node, a'.node), t'.entries + c'.entries + a'.entries)
  }

  /**
   * Rewrites the siblings `rest` left to right below `host`, after the
   * siblings `done` that are already rewritten; the result lists all of them.
   */
  function VisitList(host: ListHost, done: seq<Node>, rest: seq<Node>, file: string, next: int): (r: Steps)
    ensures |r.nodes| == |done| + |rest| && r.nodes[..|done|] == done
    decreases rest, 0
  {
    if rest == [] then Steps(done, [])
    else
      var x := Visit(rest[0], host.Build(done + rest), file, next);
      var tail := VisitList(host, done + [x.node], rest[1..], file, next + |x.entries|);
      Steps(tail.nodes, x.entries + tail.entries)
  }

  /** Visiting a node hands out the codes `next`, `next + 1`, ... in order, each for this file. */
  lemma {:induction false} VisitNumbered(n: Node, parent: Node, file: string, next: int)
    ensures Numbered(Visit(n, parent, file, next).entries, next, FilePrefix + file)
    decreases n, 2
  {
    match n
    case Ident(_) =>
    case StringLit(_) =>
    case NumLit(_) =>
    case Member(o, p, computed) => VisitPairNumbered(n, parent, file, next);
    case Call(callee, args) => VisitCallNumbered(n, parent, file, next);
    case New(callee, args) => VisitNewNumbered(n, parent, file, next);
    case Conditional(t, c, a) => VisitConditionalNumbered(n, parent, file, next);
    case Logical(op, l, rt) => VisitPairNumbered(n, parent, file, next);
    case Binary(op, l, rt) => VisitPairNumbered(n, parent, file, next);
    case Other(kind, cs) => VisitListNumbered(OtherHost(kind), [], cs, file, next);
  }

  lemma {:induction false} VisitPairNumbered(n: Node, parent: Node, file: string, next: int)
    requires n.Member? || n.Logical? || n.Binary?
    ensures Numbered(Visit(n, parent, file, next).entries, next, FilePrefix + file)
    decreases n, 1
  {
    var (first, second, inPlace) :=
      match n
      case Member(o, p, computed) =>
        var o' := Visit(o, n, file, next).node; (o, p, Member(o', p, computed))
      case Logical(op, l, rt) =>
        var l' := Visit(l, n, file, next).node; (l, rt, Logical(op, l', rt))
      case Binary(op, l, rt) =>
        var l' := Visit(l, n, file, next).node; (l, rt, Binary(op, l', rt));
    var x := Visit(first, n, file, next);
    var y := Visit(second, inPlace, file, next + |x.entries|);
    assert Visit(n, parent, file, next).entries == x.entries + y.entries;
    VisitNumbered(first, n, file, next);
    VisitNumbered(second, inPlace, file, next + |x.entries|);
    NumberedConcat(x.entries, y.entries, next, FilePrefix + file);
  }

  lemma {:induction false} VisitCallNumbered(n: Node, parent: Node, file: string, next: int)
    requires n.Call?
    ensures Numbered(Visit(n, parent, file, next).entries, next, FilePrefix + file)
    decreases n, 1
  {
    var ch := VisitCallChildren(n, file, next);
    var own := RewriteCall(ch.node, parent, file, next + |ch.entries|);
    assert Visit(n, parent, file, next).entries == ch.entries + own.entries;
    VisitCallChildrenNumbered(n, file, next);
    NumberedConcat(ch.entries, own.entries, next, FilePrefix + file);
  }

  lemma {:induction false} VisitCallChildrenNumbered(n: Node, file: string, next: int)
    requires n.Call?
    ensures Numbered(VisitCallChildren(n, file, next).entries, next, FilePrefix + file)
    decreases n, 0
  {
    var c' := Visit(n.callee, n, file, next);
    var args' := VisitList(CallHost(c'.node), [], n.arguments, file, next + |c'.entries|);
    assert VisitCallChildren(n, file, next).entries == c'.entries + args'.entries;
    VisitNumbered(n.callee, n, file, next);
    VisitListNumbered(CallHost(c'.node), [], n.arguments, file, next + |c'.entries|);
    NumberedConcat(c'.entries, args'.entries, next, FilePrefix + file);
  }

  lemma {:induction false} VisitNewNumbered(n: Node, parent: Node, file: string, next: int)
    requires n.New?
    ensures Numbered(Visit(n, parent, file, next).entries, next, FilePrefix + file)
    decreases n, 1
  {
    var ch := VisitNewChildren(n, file, next);
    var own := RewriteNew(ch.node, parent, file, next + |ch.entries|);
    assert Visit(n, parent, file, next).entries == ch.entries + own.entries;
    VisitNewChildrenNumbered(n, file, next);
    NumberedConcat(ch.entries, own.entries, next, FilePrefix + file);
  }

  lemma {:induction false} VisitNewChildrenNumbered(n: Node, file: string, next: int)
    requires n.New?
    ensures Numbered(VisitNewChildren(n, file, next).entries, next, FilePrefix + file)
    decreases n, 0
  {
    var c' := Visit(n.callee, n, file, next);
    var args' := VisitList(NewHost(c'.node), [], n.arguments, file, next + |c'.entries|);
    assert VisitNewChildren(n, file, next).entries == c'.entries + args'.entries;
    VisitNumbered(n.callee, n, file, next);
    VisitListNumbered(NewHost(c'.node), [], n.arguments, file, next + |c'.entries|);
    NumberedConcat(c'.entries, args'.entries, next, FilePrefix + file);
  }

  lemma {:induction false} VisitConditionalNumbered(n: Node, parent: Node, file: string, next: int)
    requires n.Conditional?
    ensures Numbered(Visit(n, parent, file, next).entries, next, FilePrefix + file)
    decreases n, 1
  {
    var f := FilePrefix + file;
    var t' := Visit(n.test, n, file, next);
    var c' := Visit(n.consequent, Conditional(t'.node, n.consequent, n.alternate), file, next + |t'.entries|);
    var a' := Visit(n.alternate, Conditional(t'.node, c'.node, n.alternate), file, next + |t'.entries| + |c'.entries|);
    assert Visit(n, parent, file, next).entries == t'.entries + c'.entries + a'.entries;
    VisitNumbered(n.test, n, file, next);
    VisitNumbered(n.consequent, Conditional(t'.node, n.consequent, n.alternate), file, next + |t'.entries|);
    VisitNumbered(n.alternate, Conditional(t'.node, c'.node, n.alternate), file, next + |t'.entries| + |c'.entries|);
    NumberedConcat(t'.entries, c'.entries, next, f);
    NumberedConcat(t'.entries + c'.entries, a'.entries, next, f);
  }

  lemma {:induction false} VisitListNumbered(host: ListHost, done: seq<Node>, rest: seq<Node>, file: string, next: int)
    ensures Numbered(VisitList(host, done, rest, file, next).entries, next, FilePrefix + file)
    decreases rest, 0
  {
    if rest != [] {
      var x := Visit(rest[0], host.Build(done + rest), file, next);
      VisitNumbered(rest[0], host.Build(done + rest), file, next);
      VisitListNumbered(host, done + [x.node], rest[1..], file, next + |x.entries|);
      NumberedConcat(x.entries, VisitList(host, done + [x.node], rest[1..], file, next + |x.entries|).entries,
                     next, FilePrefix + file);
    }
  }

  // ---------------------------------------------------------------------------
  // The three rewrites seen from the walk: children first, then the site.

  /**
   * An unguarded `invariant(a, b, ...)` becomes
   * `test ? invariant(a', code) : invariant(a', b', ...)`, where the primed
   * arguments are the rewritten ones and `code` is the last code handed out
   * while visiting it, recorded with the debug branch.
   */
  lemma InvariantCallSite(n: Node, parent: Node, file: string, next: int)
    requires IsInvariantCall(n) && !IsNodeEnvConditional(parent)
    ensures var r := Visit(n, parent, file, next);
      var code := next + |r.entries| - 1;
      && r.node.Conditional? && r.node.test == NodeEnvTest()
      && IsInvariantCall(r.node.alternate)
      && |r.node.alternate.arguments| == |n.arguments|
      && r.node.consequent == Call(n.callee, [r.node.alternate.arguments[0], NumLit(code)])
      && |r.entries| >= 1
      && r.entries[|r.entries| - 1] == CodeEntry(code, FilePrefix + file, r.node.alternate)
  {
    var c' := Visit(n.callee, n, file, next);
    assert c'.node == n.callee && c'.entries == [];
    var ch := VisitCallChildren(n, file, next);
    var args' := VisitList(CallHost(n.callee), [], n.arguments, file, next);
    assert ch == Step(Call(n.callee, args'.nodes), args'.entries);
    var own := RewriteCall(ch.node, parent, file, next + |ch.entries|);
    assert Visit(n, parent, file, next) == Step(own.node, ch.entries + own.entries);
  }

  /**
   * An unguarded `new InvariantError(message, ...)` becomes
   * `test ? new InvariantError(code) : new InvariantError(message', ...)`.
   */
  lemma InvariantErrorSite(n: Node, parent: Node, file: string, next: int)
    requires IsInvariantErrorNew(n) && !IsNodeEnvConditional(parent)
    ensures var r := Visit(n, parent, file, next);
      var code := next + |r.entries| - 1;
      && r.node.Conditional? && r.node.test == NodeEnvTest()
      && IsInvariantErrorNew(r.node.alternate)
      && |r.node.alternate.arguments| == |n.arguments|
      && r.node.consequent == New(n.callee, [NumLit(code)])
      && |r.entries| >= 1
      && r.entries[|r.entries| - 1] == CodeEntry(code, FilePrefix + file, r.node.alternate)
  {
    var c' := Visit(n.callee, n, file, next);
    assert c'.node == n.callee && c'.entries == [];
    var ch := VisitNewChildren(n, file, next);
    var args' := VisitList(NewHost(n.callee), [], n.arguments, file, next);
    assert ch == Step(New(n.callee, args'.nodes), args'.entries);
    var own := RewriteNew(ch.node, parent, file, next + |ch.entries|);
    assert Visit(n, parent, file, next) == Step(own.node, ch.entries + own.entries);
  }

  /** A member expression between two identifiers, such as `invariant.warn`, is left as it is. */
  lemma IdentMemberUnchanged(m: Node, parent: Node, file: string, next: int)
    requires m.Member? && m.obj.Ident? && m.property.Ident?
    ensures Visit(m, parent, file, next) == Step(m, [])
  {
    var o := Visit(m.obj, m, file, next);
    assert o == Step(m.obj, []);
    assert Visit(m.property, Member(o.node, m.property, m.computed), file, next) == Step(m.property, []);
    assert Visit(m, parent, file, next) == VisitMember(m, file, next);
  }

  /**
   * An unguarded `invariant.warn(...)` / `invariant.error(...)` becomes
   * `test || invariant.warn(...')`, and no code is handed out for it: the
   * entries are those of its arguments alone.
   */
  lemma WarnOrErrorSite(n: Node, parent: Node, file: string, next: int)
    requires IsWarnOrErrorCall(n) && !IsNodeEnvLogicalOr(parent)
    ensures var r := Visit(n, parent, file, next);
      var args' := VisitList(CallHost(n.callee), [], n.arguments, file, next);
      r == Step(Logical("||", NodeEnvTest(), Call(n.callee, args'.nodes)), args'.entries)
  {
    var callee := n.callee;
    IdentMemberUnchanged(callee, n, file, next);
    var args' := VisitList(CallHost(callee), [], n.arguments, file, next);
    var m := Call(callee, args'.nodes);
    assert VisitCallChildren(n, file, next) == Step(m, args'.entries);
    var own := RewriteCall(m, parent, file, next + |args'.entries|);
    assert IsWarnOrErrorCall(m);
    assert own == Step(Logical("||", NodeEnvTest(), m), []);
    assert args'.entries + [] == args'.entries;
  }
}
