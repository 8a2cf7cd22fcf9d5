/**
 * Guard detection makes the rewrite idempotent: running the walk again on its
 * own output changes nothing and hands out no code.
 *
 * `Settled` describes, without reference to the walk, the trees that hold no
 * call site the walk would rewrite. The walk leaves exactly the settled trees
 * unchanged (`SettledUnchanged`, `UnchangedIsSettled`) and always produces a
 * settled tree (`VisitSettles`); idempotence follows.
 */
module Idempotence {
  import opened Ast
  import opened Manifest
  import opened Shapes
  import opened Rewrite

  /**
   * `t` holds no call site the walk would rewrite when `t`'s parent is a
   * NODE_ENV conditional exactly if `condGuard` and a NODE_ENV `||` exactly if
   * `orGuard`: every `invariant(...)` and `new InvariantError(...)` site sits
   * directly under a NODE_ENV conditional and every `invariant.warn/error`
   * call directly under a NODE_ENV `||`.
   */
  ghost predicate Settled(t: Node, condGuard: bool, orGuard: bool)
  {
    match t
    case Ident(_) => true
    case StringLit(_) => true
    case NumLit(_) => true
    case Member(o, p, _) => Settled(o, false, false) && Settled(p, false, false)
    case Call(callee, args) =>
      && (IsInvariantCall(t) ==> condGuard)
      && (IsWarnOrErrorCall(t) ==> orGuard)
      && Settled(callee, false, false)
      && forall i :: 0 <= i < |args| ==> Settled(args[i], false, false)
    case New(callee, args) =>
      && (IsInvariantErrorNew(t) ==> condGuard)
      && Settled(callee, false, false)
      && forall i :: 0 <= i < |args| ==> Settled(args[i], false, false)
    case Conditional(test, c, a) =>
      var g := IsNodeEnvConditional(t);
      Settled(test, g, false) && Settled(c, g, false) && Settled(a, g, false)
    case Logical(_, l, rt) =>
      var g := IsNodeEnvLogicalOr(t);
      Settled(l, false, g) && Settled(rt, false, g)
    case Binary(_, l, rt) => Settled(l, false, false) && Settled(rt, false, false)
    case Other(_, cs) => forall i :: 0 <= i < |cs| ==> Settled(cs[i], false, false)
  }

  /** Every element of `s` is settled below a parent that is no guard. */
  ghost predicate AllSettled(s: seq<Node>)
  {
    forall i :: 0 <= i < |s| ==> Settled(s[i], false, false)
  }

  lemma AllSettledSplit(s: seq<Node>)
    requires AllSettled(s) && s != []
    ensures Settled(s[0], false, false) && AllSettled(s[1..])
  {
    forall i | 0 <= i < |s[1..]| ensures Settled(s[1..][i], false, false) {
      assert s[1..][i] == s[i + 1];
    }
  }

  lemma AllSettledJoin(s: seq<Node>)
    requires s != [] && Settled(s[0], false, false) && AllSettled(s[1..])
    ensures AllSettled(s)
  {
    assert forall i | 1 <= i < |s| :: s[i] == s[1..][i - 1];
  }

  /** The guard flags of a parent, as the walk reads them. */
  ghost predicate SettledBelow(t: Node, parent: Node)
  {
    Settled(t, IsNodeEnvConditional(parent), IsNodeEnvLogicalOr(parent))
  }

  lemma NodeEnvTestSettled(condGuard: bool, orGuard: bool)
    ensures Settled(NodeEnvTest(), condGuard, orGuard)
  {
    var inner := Member(Ident("process"), Ident("env"), false);
    assert Settled(inner, false, false);
    assert Settled(Member(inner, Ident("NODE_ENV"), false), false, false);
  }

  // ---------------------------------------------------------------------------
  // A settled tree is left exactly as it is and hands out no code.

  lemma {:induction false} SettledUnchanged(t: Node, parent: Node, file: string, next: int)
    requires SettledBelow(t, parent)
    ensures Visit(t, parent, file, next) == Step(t, [])
    decreases t, 2
  {
    match t
    case Ident(_) =>
    case StringLit(_) =>
    case NumLit(_) =>
    case Member(_, _, _) => SettledMemberUnchanged(t, parent, file, next);
    case Call(_, _) => SettledCallUnchanged(t, parent, file, next);
    case New(_, _) => SettledNewUnchanged(t, parent, file, next);
    case Conditional(_, _, _) => SettledConditionalUnchanged(t, parent, file, next);
    case Logical(_, _, _) => SettledLogicalUnchanged(t, parent, file, next);
    case Binary(_, _, _) => SettledBinaryUnchanged(t, parent, file, next);
    case Other(kind, cs) =>
      SettledListUnchanged(OtherHost(kind), [], cs, file, next);
  }

  lemma {:induction false} SettledMemberUnchanged(t: Node, parent: Node, file: string, next: int)
    requires t.Member? && SettledBelow(t, parent)
    ensures Visit(t, parent, file, next) == Step(t, [])
    decreases t, 1
  {
    SettledUnchanged(t.obj, t, file, next);
    SettledUnchanged(t.property, t, file, next);
    assert Visit(t, parent, file, next) == VisitMember(t, file, next);
  }

  lemma {:induction false} SettledLogicalUnchanged(t: Node, parent: Node, file: string, next: int)
    requires t.Logical? && SettledBelow(t, parent)
    ensures Visit(t, parent, file, next) == Step(t, [])
    decreases t, 1
  {
    SettledUnchanged(t.left, t, file, next);
    SettledUnchanged(t.right, t, file, next);
    assert Visit(t, parent, file, next) == VisitLogical(t, file, next);
  }

  lemma {:induction false} SettledBinaryUnchanged(t: Node, parent: Node, file: string, next: int)
    requires t.Binary? && SettledBelow(t, parent)
    ensures Visit(t, parent, file, next) == Step(t, [])
    decreases t, 1
  {
    SettledUnchanged(t.left, t, file, next);
    SettledUnchanged(t.right, t, file, next);
    assert Visit(t, parent, file, next) == VisitBinary(t, file, next);
  }


  lemma {:induction false} SettledConditionalUnchanged(t: Node, parent: Node, file: string, next: int)
    requires t.Conditional? && SettledBelow(t, parent)
    ensures Visit(t, parent, file, next) == Step(t, [])
    decreases t, 1
  {
    SettledUnchanged(t.test, t, file, next);
    SettledUnchanged(t.consequent, t, file, next);
    SettledUnchanged(t.alternate, t, file, next);
    assert Visit(t, parent, file, next) == VisitConditional(t, file, next);
  }

  lemma {:induction false} SettledCallUnchanged(t: Node, parent: Node, file: string, next: int)
    requires t.Call? && SettledBelow(t, parent)
    ensures Visit(t, parent, file, next) == Step(t, [])
    decreases t, 1
  {
    SettledUnchanged(t.callee, t, file, next);
    assert AllSettled(t.arguments);
    SettledListUnchanged(CallHost(t.callee), [], t.arguments, file, next);
    assert VisitCallChildren(t, file, next) == Step(t, []);
    assert RewriteCall(t, parent, file, next) == Step(t, []);
  }

  lemma {:induction false} SettledNewUnchanged(t: Node, parent: Node, file: string, next: int)
    requires t.New? && SettledBelow(t, parent)
    ensures Visit(t, parent, file, next) == Step(t, [])
    decreases t, 1
  {
    SettledUnchanged(t.callee, t, file, next);
    assert AllSettled(t.arguments);
    SettledListUnchanged(NewHost(t.callee), [], t.arguments, file, next);
    assert VisitNewChildren(t, file, next) == Step(t, []);
    assert RewriteNew(t, parent, file, next) == Step(t, []);
  }

  lemma SplitHead(done: seq<Node>, rest: seq<Node>)
    requires rest != []
    ensures done + [rest[0]] + rest[1..] == done + rest
  {
    assert [rest[0]] + rest[1..] == rest;
  }

  /** A settled list element, below its list host, is left as it is. */
  lemma SettledElementUnchanged(host: ListHost, items: seq<Node>, x: Node, file: string, next: int)
    requires Settled(x, false, false)
    ensures Visit(x, host.Build(items), file, next) == Step(x, [])
    decreases x, 3
  {
    assert SettledBelow(x, host.Build(items));
    SettledUnchanged(x, host.Build(items), file, next);
  }

  lemma {:induction false} SettledListUnchanged(host: ListHost, done: seq<Node>, rest: seq<Node>, file: string, next: int)
    requires AllSettled(rest)
    ensures VisitList(host, done, rest, file, next) == Steps(done + rest, [])
    decreases rest, 0
  {
    if rest != [] {
      AllSettledSplit(rest);
      var x := Visit(rest[0], host.Build(done + rest), file, next);
      SettledElementUnchanged(host, done + rest, rest[0], file, next);
      var tail := VisitList(host, done + [x.node], rest[1..], file, next + |x.entries|);
      SettledListUnchanged(host, done + [rest[0]], rest[1..], file, next);
      assert VisitList(host, done, rest, file, next) == Steps(tail.nodes, x.entries + tail.entries);
      SplitHead(done, rest);
    }
  }

  // ---------------------------------------------------------------------------
  // Conversely, a tree the walk leaves as it is was settled.

  lemma {:induction false} UnchangedIsSettled(t: Node, parent: Node, file: string, next: int)
    requires Visit(t, parent, file, next).node == t
    ensures SettledBelow(t, parent)
    decreases t, 2
  {
    match t
    case Ident(_) =>
    case StringLit(_) =>
    case NumLit(_) =>
    case Member(_, _, _) => UnchangedPairIsSettled(t, parent, file, next);
    case Call(_, _) => UnchangedCallIsSettled(t, parent, file, next);
    case New(_, _) => UnchangedNewIsSettled(t, parent, file, next);
    case Conditional(_, _, _) => UnchangedConditionalIsSettled(t, parent, file, next);
    case Logical(_, _, _) => UnchangedPairIsSettled(t, parent, file, next);
    case Binary(_, _, _) => UnchangedPairIsSettled(t, parent, file, next);
    case Other(kind, cs) =>
      assert VisitList(OtherHost(kind), [], cs, file, next).nodes == [] + cs;
      UnchangedListIsSettled(OtherHost(kind), [], cs, file, next);
  }

  lemma {:induction false} UnchangedPairIsSettled(t: Node, parent: Node, file: string, next: int)
    requires t.Member? || t.Logical? || t.Binary?
    requires Visit(t, parent, file, next).node == t
    ensures SettledBelow(t, parent)
    decreases t, 1
  {
    match t
    case Member(o, p, computed) =>
      var o' := Visit(o, t, file, next);
      var p' := Visit(p, Member(o'.node, p, computed), file, next + |o'.entries|);
      assert Visit(t, parent, file, next).node == Member(o'.node, p'.node, computed);
      UnchangedIsSettled(o, t, file, next);
      UnchangedIsSettled(p, t, file, next + |o'.entries|);
    case Logical(op, l, rt) =>
      var l' := Visit(l, t, file, next);
      var rt' := Visit(rt, Logical(op, l'.node, rt), file, next + |l'.entries|);
      assert Visit(t, parent, file, next).node == Logical(op, l'.node, rt'.node);
      UnchangedIsSettled(l, t, file, next);
      UnchangedIsSettled(rt, t, file, next + |l'.entries|);
    case Binary(op, l, rt) =>
      var l' := Visit(l, t, file, next);
      var rt' := Visit(rt, Binary(op, l'.node, rt), file, next + |l'.entries|);
      assert Visit(t, parent, file, next).node == Binary(op, l'.node, rt'.node);
      UnchangedIsSettled(l, t, file, next);
      UnchangedIsSettled(rt, t, file, next + |l'.entries|);
  }

  lemma {:induction false} UnchangedConditionalIsSettled(t: Node, parent: Node, file: string, next: int)
    requires t.Conditional? && Visit(t, parent, file, next).node == t
    ensures SettledBelow(t, parent)
    decreases t, 1
  {
    var t' := Visit(t.test, t, file, next);
    var c' := Visit(t.consequent, Conditional(t'.node, t.consequent, t.alternate), file, next + |t'.entries|);
    var a' := Visit(t.alternate, Conditional(t'.node, c'.node, t.alternate), file, next + |t'.entries| + |c'.entries|);
    assert Visit(t, parent, file, next).node == Conditional(t'.node, c'.node, a'.node);
    UnchangedIsSettled(t.test, t, file, next);
    UnchangedIsSettled(t.consequent, t, file, next + |t'.entries|);
    UnchangedIsSettled(t.alternate, t, file, next + |t'.entries| + |c'.entries|);
  }

  lemma {:induction false} UnchangedCallIsSettled(t: Node, parent: Node, file: string, next: int)
    requires t.Call? && Visit(t, parent, file, next).node == t
    ensures SettledBelow(t, parent)
    decreases t, 1
  {
    var ch := VisitCallChildren(t, file, next);
    var own := RewriteCall(ch.node, parent, file, next + |ch.entries|);
    assert Visit(t, parent, file, next).node == own.node;
    RewriteCallKept(ch.node, parent, file, next + |ch.entries|);
    UnchangedCallChildrenSettled(t, file, next);
  }

  lemma {:induction false} UnchangedCallChildrenSettled(t: Node, file: string, next: int)
    requires t.Call? && VisitCallChildren(t, file, next).node == t
    ensures Settled(t.callee, false, false) && AllSettled(t.arguments)
    decreases t, 0
  {
    var c' := Visit(t.callee, t, file, next);
    var args' := VisitList(CallHost(c'.node), [], t.arguments, file, next + |c'.entries|);
    assert VisitCallChildren(t, file, next).node == Call(c'.node, args'.nodes);
    assert args'.nodes == [] + t.arguments;
    UnchangedIsSettled(t.callee, t, file, next);
    UnchangedListIsSettled(CallHost(t.callee), [], t.arguments, file, next + |c'.entries|);
  }

  /** The call rule returns a call only when it leaves it as it is, which it does only at a guarded site or at no site. */
  lemma RewriteCallKept(m: Node, parent: Node, file: string, at: int)
    requires m.Call? && RewriteCall(m, parent, file, at).node.Call?
    ensures RewriteCall(m, parent, file, at) == Step(m, [])
    ensures (IsInvariantCall(m) ==> IsNodeEnvConditional(parent))
      && (IsWarnOrErrorCall(m) ==> IsNodeEnvLogicalOr(parent))
  {
  }

  lemma {:induction false} UnchangedNewIsSettled(t: Node, parent: Node, file: string, next: int)
    requires t.New? && Visit(t, parent, file, next).node == t
    ensures SettledBelow(t, parent)
    decreases t, 1
  {
    var ch := VisitNewChildren(t, file, next);
    var own := RewriteNew(ch.node, parent, file, next + |ch.entries|);
    assert Visit(t, parent, file, next).node == own.node;
    RewriteNewKept(ch.node, parent, file, next + |ch.entries|);
    UnchangedNewChildrenSettled(t, file, next);
  }

  lemma {:induction false} UnchangedNewChildrenSettled(t: Node, file: string, next: int)
    requires t.New? && VisitNewChildren(t, file, next).node == t
    ensures Settled(t.callee, false, false) && AllSettled(t.arguments)
    decreases t, 0
  {
    var c' := Visit(t.callee, t, file, next);
    var args' := VisitList(NewHost(c'.node), [], t.arguments, file, next + |c'.entries|);
    assert VisitNewChildren(t, file, next).node == New(c'.node, args'.nodes);
    assert args'.nodes == [] + t.arguments;
    UnchangedIsSettled(t.callee, t, file, next);
    UnchangedListIsSettled(NewHost(t.callee), [], t.arguments, file, next + |c'.entries|);
  }

  /** The construction rule returns a construction only when it leaves it as it is, which it does only at a guarded site or at no site. */
  lemma RewriteNewKept(m: Node, parent: Node, file: string, at: int)
    requires m.New? && RewriteNew(m, parent, file, at).node.New?
    ensures RewriteNew(m, parent, file, at) == Step(m, [])
    ensures (IsInvariantErrorNew(m) ==> IsNodeEnvConditional(parent))
  {
  }

  /** A list element the walk leaves as it is, below its list host, is settled. */
  lemma UnchangedElementIsSettled(host: ListHost, items: seq<Node>, x: Node, file: string, next: int)
    requires Visit(x, host.Build(items), file, next).node == x
    ensures Settled(x, false, false)
    decreases x, 3
  {
    UnchangedIsSettled(x, host.Build(items), file, next);
    assert SettledBelow(x, host.Build(items));
  }

  lemma {:induction false} UnchangedListIsSettled(host: ListHost, done: seq<Node>, rest: seq<Node>, file: string, next: int)
    requires VisitList(host, done, rest, file, next).nodes == done + rest
    ensures AllSettled(rest)
    decreases rest, 0
  {
    if rest != [] {
      var x := Visit(rest[0], host.Build(done + rest), file, next);
      var tail := VisitList(host, done + [x.node], rest[1..], file, next + |x.entries|);
      assert VisitList(host, done, rest, file, next).nodes == tail.nodes;
      assert tail.nodes[..|done| + 1] == done + [x.node];
      assert x.node == tail.nodes[|done|] == (done + rest)[|done|] == rest[0];
      UnchangedElementIsSettled(host, done + rest, rest[0], file, next);
      SplitHead(done, rest);
      UnchangedListIsSettled(host, done + [rest[0]], rest[1..], file, next + |x.entries|);
      AllSettledJoin(rest);
    }
  }

  /** The walk leaves a tree exactly as it is if and only if the tree is settled below its parent. */
  lemma UnchangedIffSettled(t: Node, parent: Node, file: string, next: int)
    ensures Visit(t, parent, file, next).node == t <==> SettledBelow(t, parent)
  {
    if Visit(t, parent, file, next).node == t {
      UnchangedIsSettled(t, parent, file, next);
    }
    if SettledBelow(t, parent) {
      SettledUnchanged(t, parent, file, next);
    }
  }

  // ---------------------------------------------------------------------------
  // Whatever the walk produces is settled below any parent that guards at
  // least as much as the parent it was produced under.

  /** The NODE_ENV test is left as it is, so a guard stays a guard while its children are rewritten. */
  lemma NodeEnvTestUnchanged(parent: Node, file: string, next: int)
    ensures Visit(NodeEnvTest(), parent, file, next) == Step(NodeEnvTest(), [])
  {
    NodeEnvTestSettled(IsNodeEnvConditional(parent), IsNodeEnvLogicalOr(parent));
    SettledUnchanged(NodeEnvTest(), parent, file, next);
  }

  lemma {:induction false} VisitSettles(n: Node, parent: Node, file: string, next: int, condGuard: bool, orGuard: bool)
    requires IsNodeEnvConditional(parent) ==> condGuard
    requires IsNodeEnvLogicalOr(parent) ==> orGuard
    ensures Settled(Visit(n, parent, file, next).node, condGuard, orGuard)
    decreases n, 2
  {
    match n
    case Ident(_) =>
    case StringLit(_) =>
    case NumLit(_) =>
    case Member(o, p, computed) =>
      var o' := Visit(o, n, file, next);
      VisitSettles(o, n, file, next, false, false);
      VisitSettles(p, Member(o'.node, p, computed), file, next + |o'.entries|, false, false);
    case Call(_, _) => VisitCallSettles(n, parent, file, next, condGuard, orGuard);
    case New(_, _) => VisitNewSettles(n, parent, file, next, condGuard, orGuard);
    case Conditional(_, _, _) => VisitConditionalSettles(n, parent, file, next, condGuard, orGuard);
    case Logical(_, _, _) => VisitLogicalSettles(n, parent, file, next, condGuard, orGuard);
    case Binary(op, l, rt) =>
      var l' := Visit(l, n, file, next);
      VisitSettles(l, n, file, next, false, false);
      VisitSettles(rt, Binary(op, l'.node, rt), file, next + |l'.entries|, false, false);
    case Other(kind, cs) =>
      VisitListSettles(OtherHost(kind), [], cs, file, next);
  }

  lemma {:induction false} VisitConditionalSettles(n: Node, parent: Node, file: string, next: int, condGuard: bool, orGuard: bool)
    requires n.Conditional?
    ensures Settled(Visit(n, parent, file, next).node, condGuard, orGuard)
    decreases n, 1
  {
    var t' := Visit(n.test, n, file, next);
    var c' := Visit(n.consequent, Conditional(t'.node, n.consequent, n.alternate), file, next + |t'.entries|);
    var a' := Visit(n.alternate, Conditional(t'.node, c'.node, n.alternate), file, next + |t'.entries| + |c'.entries|);
    assert Visit(n, parent, file, next).node == Conditional(t'.node, c'.node, a'.node);
    var g := t'.node == NodeEnvTest();
    if n.test == NodeEnvTest() {
      NodeEnvTestUnchanged(n, file, next);
    }
    VisitSettles(n.test, n, file, next, g, false);
    VisitSettles(n.consequent, Conditional(t'.node, n.consequent, n.alternate), file, next + |t'.entries|, g, false);
    VisitSettles(n.alternate, Conditional(t'.node, c'.node, n.alternate), file, next + |t'.entries| + |c'.entries|, g, false);
  }

  lemma {:induction false} VisitLogicalSettles(n: Node, parent: Node, file: string, next: int, condGuard: bool, orGuard: bool)
    requires n.Logical?
    ensures Settled(Visit(n, parent, file, next).node, condGuard, orGuard)
    decreases n, 1
  {
    var l' := Visit(n.left, n, file, next);
    var rt' := Visit(n.right, Logical(n.operator, l'.node, n.right), file, next + |l'.entries|);
    assert Visit(n, parent, file, next).node == Logical(n.operator, l'.node, rt'.node);
    var g := n.operator == "||" && l'.node == NodeEnvTest();
    if n.left == NodeEnvTest() {
      NodeEnvTestUnchanged(n, file, next);
    }
    VisitSettles(n.left, n, file, next, false, g);
    VisitSettles(n.right, Logical(n.operator, l'.node, n.right), file, next + |l'.entries|, false, g);
  }

  lemma {:induction false} VisitCallChildrenSettle(n: Node, file: string, next: int)
    requires n.Call?
    ensures var m := VisitCallChildren(n, file, next).node;
      Settled(m.callee, false, false) && AllSettled(m.arguments)
    decreases n, 0
  {
    var c' := Visit(n.callee, n, file, next);
    VisitSettles(n.callee, n, file, next, false, false);
    VisitListSettles(CallHost(c'.node), [], n.arguments, file, next + |c'.entries|);
  }

  /** The call rule leaves a settled tree when the children are settled. */
  lemma RewriteCallSettles(m: Node, parent: Node, file: string, at: int, condGuard: bool, orGuard: bool)
    requires m.Call? && Settled(m.callee, false, false) && AllSettled(m.arguments)
    requires IsNodeEnvConditional(parent) ==> condGuard
    requires IsNodeEnvLogicalOr(parent) ==> orGuard
    ensures Settled(RewriteCall(m, parent, file, at).node, condGuard, orGuard)
  {
    var own := RewriteCall(m, parent, file, at);
    if IsInvariantCall(m) && !IsNodeEnvConditional(parent) {
      var production := Call(m.callee, [m.arguments[0], NumLit(at)]);
      assert Settled(production, true, false) by {
        assert AllSettled(production.arguments);
      }
      assert Settled(m, true, false);
      NodeEnvTestSettled(true, false);
      assert own.node == Conditional(NodeEnvTest(), production, m);
    } else if IsWarnOrErrorCall(m) && !IsNodeEnvLogicalOr(parent) {
      assert Settled(m, false, true);
      NodeEnvTestSettled(false, true);
      assert own.node == Logical("||", NodeEnvTest(), m);
    } else {
      assert own.node == m;
    }
  }

  lemma {:induction false} VisitCallSettles(n: Node, parent: Node, file: string, next: int, condGuard: bool, orGuard: bool)
    requires n.Call?
    requires IsNodeEnvConditional(parent) ==> condGuard
    requires IsNodeEnvLogicalOr(parent) ==> orGuard
    ensures Settled(Visit(n, parent, file, next).node, condGuard, orGuard)
    decreases n, 1
  {
    var ch := VisitCallChildren(n, file, next);
    var at := next + |ch.entries|;
    var m := ch.node;
    var own := RewriteCall(m, parent, file, at);
    assert Visit(n, parent, file, next).node == own.node;
    VisitCallChildrenSettle(n, file, next);
    RewriteCallSettles(m, parent, file, at, condGuard, orGuard);
  }

  lemma {:induction false} VisitNewChildrenSettle(n: Node, file: string, next: int)
    requires n.New?
    ensures var m := VisitNewChildren(n, file, next).node;
      Settled(m.callee, false, false) && AllSettled(m.arguments)
    decreases n, 0
  {
    var c' := Visit(n.callee, n, file, next);
    VisitSettles(n.callee, n, file, next, false, false);
    VisitListSettles(NewHost(c'.node), [], n.arguments, file, next + |c'.entries|);
  }

  /** The construction rule leaves a settled tree when the children are settled. */
  lemma RewriteNewSettles(m: Node, parent: Node, file: string, at: int, condGuard: bool, orGuard: bool)
    requires m.New? && Settled(m.callee, false, false) && AllSettled(m.arguments)
    requires IsNodeEnvConditional(parent) ==> condGuard
    requires IsNodeEnvLogicalOr(parent) ==> orGuard
    ensures Settled(RewriteNew(m, parent, file, at).node, condGuard, orGuard)
  {
    var own := RewriteNew(m, parent, file, at);
    if IsInvariantErrorNew(m) && !IsNodeEnvConditional(parent) {
      var production := New(m.callee, [NumLit(at)]);
      assert Settled(production, true, false) by {
        assert AllSettled(production.arguments);
      }
      assert Settled(m, true, false);
      NodeEnvTestSettled(true, false);
      assert own.node == Conditional(NodeEnvTest(), production, m);
    } else {
      assert own.node == m;
    }
  }

  lemma {:induction false} VisitNewSettles(n: Node, parent: Node, file: string, next: int, condGuard: bool, orGuard: bool)
    requires n.New?
    requires IsNodeEnvConditional(parent) ==> condGuard
    requires IsNodeEnvLogicalOr(parent) ==> orGuard
    ensures Settled(Visit(n, parent, file, next).node, condGuard, orGuard)
    decreases n, 1
  {
    var ch := VisitNewChildren(n, file, next);
    var at := next + |ch.entries|;
    var m := ch.node;
    var own := RewriteNew(m, parent, file, at);
    assert Visit(n, parent, file, next).node == own.node;
    VisitNewChildrenSettle(n, file, next);
    RewriteNewSettles(m, parent, file, at, condGuard, orGuard);
  }

  lemma {:induction false} VisitListSettles(host: ListHost, done: seq<Node>, rest: seq<Node>, file: string, next: int)
    requires AllSettled(done)
    ensures AllSettled(VisitList(host, done, rest, file, next).nodes)
    decreases rest, 0
  {
    if rest != [] {
      var x := Visit(rest[0], host.Build(done + rest), file, next);
      VisitSettles(rest[0], host.Build(done + rest), file, next, false, false);
      assert AllSettled(done + [x.node]) by {
        forall i | 0 <= i < |done + [x.node]| ensures Settled((done + [x.node])[i], false, false) {
          if i < |done| {
            assert (done + [x.node])[i] == done[i];
          }
        }
      }
      VisitListSettles(host, done + [x.node], rest[1..], file, next + |x.entries|);
    }
  }

  // ---------------------------------------------------------------------------
  // Idempotence.

  /**
   * Rewriting the output again, below a parent that guards at least as much
   * as the original parent, changes nothing and hands out no code.
   */
  lemma RewriteIdempotent(n: Node, parent: Node, parent2: Node, file: string, next: int, file2: string, next2: int)
    requires IsNodeEnvConditional(parent) ==> IsNodeEnvConditional(parent2)
    requires IsNodeEnvLogicalOr(parent) ==> IsNodeEnvLogicalOr(parent2)
    ensures var out := Visit(n, parent, file, next).node;
      Visit(out, parent2, file2, next2) == Step(out, [])
  {
    var out := Visit(n, parent, file, next).node;
    VisitSettles(n, parent, file, next, IsNodeEnvConditional(parent2), IsNodeEnvLogicalOr(parent2));
    SettledUnchanged(out, parent2, file2, next2);
  }

  /** A whole parsed file: rewriting the rewritten program again changes nothing. */
  lemma ProgramIdempotent(program: Node, file: string, next: int, next2: int)
    ensures var out := Visit(program, FileNode(program), file, next).node;
      Visit(out, FileNode(out), file, next2) == Step(out, [])
  {
    RewriteIdempotent(program, FileNode(program), FileNode(Visit(program, FileNode(program), file, next).node),
                      file, next, file, next2);
  }
}
