/**
 * Manifest completeness: the walk hands out exactly one code per
 * `invariant(...)` and `new InvariantError(...)` site that is not directly
 * under a NODE_ENV conditional, and none for anything else.
 *
 * `PendingSites` counts those sites on the tree as it stands, without
 * reference to the walk; `VisitCount` proves the walk's entries match the
 * count, and `RunFilesCount` carries it over a whole run.
 */
module Completeness {
  import opened Ast
  import opened Manifest
  import opened Shapes
  import opened Rewrite
  import opened Idempotence
  import opened Prefilter
  import opened Transformer

  /**
   * The number of `invariant(...)` and `new InvariantError(...)` sites in
   * `t` that are not directly under a NODE_ENV conditional; `guarded` tells
   * whether `t`'s own parent is one. `invariant.warn/error` calls take no
   * code, so they are not counted.
   */
  ghost function PendingSites(t: Node, guarded: bool): nat
    decreases t, 1
  {
    match t
    case Ident(_) => 0
    case StringLit(_) => 0
    case NumLit(_) => 0
    case Member(o, p, _) => PendingSites(o, false) + PendingSites(p, false)
    case Call(callee, args) =>
      (if IsInvariantCall(t) && !guarded then 1 else 0) + PendingSites(callee, false) + PendingList(args)
    case New(callee, args) =>
      (if IsInvariantErrorNew(t) && !guarded then 1 else 0) + PendingSites(callee, false) + PendingList(args)
    case Conditional(test, c, a) =>
      var g := IsNodeEnvConditional(t);
      PendingSites(test, g) + PendingSites(c, g) + PendingSites(a, g)
    case Logical(_, l, rt) => PendingSites(l, false) + PendingSites(rt, false)
    case Binary(_, l, rt) => PendingSites(l, false) + PendingSites(rt, false)
    case Other(_, cs) => PendingList(cs)
  }

  /** The sites of a sequence of siblings, none of them below a guard. */
  ghost function PendingList(s: seq<Node>): nat
    decreases s, 0
  {
    if s == [] then 0 else PendingSites(s[0], false) + PendingList(s[1..])
  }

  // ---------------------------------------------------------------------------
  // What the walk's result reveals about its input.

  /**
   * The walk returns leaves as they are, and it never turns anything other
   * than an identifier, a string, a member access or a comparison into one.
   */
  lemma VisitKeepsKind(x: Node, parent: Node, file: string, next: int)
    ensures var y := Visit(x, parent, file, next).node;
      && (x.Ident? || x.StringLit? || x.NumLit? ==> y == x)
      && (y.Ident? ==> x.Ident?)
      && (y.StringLit? ==> x.StringLit?)
      && (y.Member? ==> x.Member?)
      && (y.Binary? ==> x.Binary?)
  {
    match x
    case Call(_, _) =>
      var ch := VisitCallChildren(x, file, next);
      var own := RewriteCall(ch.node, parent, file, next + |ch.entries|);
      assert Visit(x, parent, file, next).node == own.node;
    case New(_, _) =>
      var ch := VisitNewChildren(x, file, next);
      var own := RewriteNew(ch.node, parent, file, next + |ch.entries|);
      assert Visit(x, parent, file, next).node == own.node;
    case _ =>
  }

  /** A rewritten child equals a given identifier exactly when the child was that identifier. */
  lemma VisitIdent(x: Node, parent: Node, file: string, next: int, name: string)
    ensures Visit(x, parent, file, next).node == Ident(name) <==> x == Ident(name)
  {
    VisitKeepsKind(x, parent, file, next);
  }

  /** A member access the walk returns came from a member access whose parts were walked. */
  lemma VisitMemberShape(x: Node, parent: Node, file: string, next: int)
    requires Visit(x, parent, file, next).node.Member?
    ensures x.Member?
    ensures var o' := Visit(x.obj, x, file, next);
      var p' := Visit(x.property, Member(o'.node, x.property, x.computed), file, next + |o'.entries|);
      Visit(x, parent, file, next).node == Member(o'.node, p'.node, x.computed)
  {
    VisitKeepsKind(x, parent, file, next);
    assert Visit(x, parent, file, next) == VisitMember(x, file, next);
  }

  /**
   * The walk returns the NODE_ENV test exactly for the NODE_ENV test, so a
   * conditional is a guard after its test is rewritten exactly when it was
   * one before.
   */
  lemma VisitReflectsNodeEnvTest(x: Node, parent: Node, file: string, next: int)
    ensures Visit(x, parent, file, next).node == NodeEnvTest() <==> x == NodeEnvTest()
  {
    if x == NodeEnvTest() {
      NodeEnvTestUnchanged(parent, file, next);
    }
    if Visit(x, parent, file, next).node == NodeEnvTest() {
      VisitYieldsNodeEnvTest(x, parent, file, next);
    }
  }

  /** Only the NODE_ENV test itself is walked to the NODE_ENV test. */
  lemma VisitYieldsNodeEnvTest(x: Node, parent: Node, file: string, next: int)
    requires Visit(x, parent, file, next).node == NodeEnvTest()
    ensures x == NodeEnvTest()
  {
    VisitKeepsKind(x, parent, file, next);
    assert x.Binary?;
    var l' := Visit(x.left, x, file, next);
    var r' := Visit(x.right, Binary(x.operator, l'.node, x.right), file, next + |l'.entries|);
    assert Visit(x, parent, file, next) == VisitBinary(x, file, next);
    assert l'.node == Member(Member(Ident("process"), Ident("env"), false), Ident("NODE_ENV"), false);
    VisitMemberShape(x.left, x, file, next);
    var m := x.left;
    var o' := Visit(m.obj, m, file, next);
    var p' := Visit(m.property, Member(o'.node, m.property, m.computed), file, next + |o'.entries|);
    VisitIdent(m.property, Member(o'.node, m.property, m.computed), file, next + |o'.entries|, "NODE_ENV");
    VisitMemberShape(m.obj, m, file, next);
    var inner := m.obj;
    var io' := Visit(inner.obj, inner, file, next);
    VisitIdent(inner.obj, inner, file, next, "process");
    VisitIdent(inner.property, Member(io'.node, inner.property, inner.computed), file, next + |io'.entries|, "env");
    VisitKeepsKind(x.right, Binary(x.operator, l'.node, x.right), file, next + |l'.entries|);
  }

  // ---------------------------------------------------------------------------
  // One entry per pending site.

  /** The walk appends exactly one entry per pending site of the tree. */
  lemma {:induction false} VisitCount(n: Node, parent: Node, file: string, next: int)
    ensures |Visit(n, parent, file, next).entries| == PendingSites(n, IsNodeEnvConditional(parent))
    decreases n, 2
  {
    match n
    case Ident(_) =>
    case StringLit(_) =>
    case NumLit(_) =>
    case Member(o, p, computed) =>
      var o' := Visit(o, n, file, next);
      VisitCount(o, n, file, next);
      VisitCount(p, Member(o'.node, p, computed), file, next + |o'.entries|);
      assert Visit(n, parent, file, next) == VisitMember(n, file, next);
    case Call(_, _) => VisitCallCount(n, parent, file, next);
    case New(_, _) => VisitNewCount(n, parent, file, next);
    case Conditional(_, _, _) => VisitConditionalCount(n, parent, file, next);
    case Logical(op, l, rt) =>
      var l' := Visit(l, n, file, next);
      VisitCount(l, n, file, next);
      VisitCount(rt, Logical(op, l'.node, rt), file, next + |l'.entries|);
      assert Visit(n, parent, file, next) == VisitLogical(n, file, next);
    case Binary(op, l, rt) =>
      var l' := Visit(l, n, file, next);
      VisitCount(l, n, file, next);
      VisitCount(rt, Binary(op, l'.node, rt), file, next + |l'.entries|);
      assert Visit(n, parent, file, next) == VisitBinary(n, file, next);
    case Other(kind, cs) =>
      VisitListCount(OtherHost(kind), [], cs, file, next);
  }

  lemma {:induction false} VisitConditionalCount(n: Node, parent: Node, file: string, next: int)
    requires n.Conditional?
    ensures |Visit(n, parent, file, next).entries| == PendingSites(n, IsNodeEnvConditional(parent))
    decreases n, 1
  {
    var t' := Visit(n.test, n, file, next);
    var c' := Visit(n.consequent, Conditional(t'.node, n.consequent, n.alternate), file, next + |t'.entries|);
    var a' := Visit(n.alternate, Conditional(t'.node, c'.node, n.alternate), file, next + |t'.entries| + |c'.entries|);
    assert Visit(n, parent, file, next).entries == t'.entries + c'.entries + a'.entries;
    VisitReflectsNodeEnvTest(n.test, n, file, next);
    VisitCount(n.test, n, file, next);
    VisitCount(n.consequent, Conditional(t'.node, n.consequent, n.alternate), file, next + |t'.entries|);
    VisitCount(n.alternate, Conditional(t'.node, c'.node, n.alternate), file, next + |t'.entries| + |c'.entries|);
  }

  lemma {:induction false} VisitCallCount(n: Node, parent: Node, file: string, next: int)
    requires n.Call?
    ensures |Visit(n, parent, file, next).entries| == PendingSites(n, IsNodeEnvConditional(parent))
    decreases n, 1
  {
    var c' := Visit(n.callee, n, file, next);
    var args' := VisitList(CallHost(c'.node), [], n.arguments, file, next + |c'.entries|);
    var ch := VisitCallChildren(n, file, next);
    assert ch == Step(Call(c'.node, args'.nodes), c'.entries + args'.entries);
    VisitCount(n.callee, n, file, next);
    VisitListCount(CallHost(c'.node), [], n.arguments, file, next + |c'.entries|);
    VisitIdent(n.callee, n, file, next, "invariant");
    assert IsInvariantCall(ch.node) <==> IsInvariantCall(n);
    RewriteCallCount(ch.node, parent, file, next + |ch.entries|);
    assert Visit(n, parent, file, next).entries
        == ch.entries + RewriteCall(ch.node, parent, file, next + |ch.entries|).entries;
  }

  /** The call rule takes one code exactly at an unguarded site. */
  lemma RewriteCallCount(m: Node, parent: Node, file: string, at: int)
    requires m.Call?
    ensures |RewriteCall(m, parent, file, at).entries| == if IsInvariantCall(m) && !IsNodeEnvConditional(parent) then 1 else 0
  {
  }

  lemma {:induction false} VisitNewCount(n: Node, parent: Node, file: string, next: int)
    requires n.New?
    ensures |Visit(n, parent, file, next).entries| == PendingSites(n, IsNodeEnvConditional(parent))
    decreases n, 1
  {
    var c' := Visit(n.callee, n, file, next);
    var args' := VisitList(NewHost(c'.node), [], n.arguments, file, next + |c'.entries|);
    var ch := VisitNewChildren(n, file, next);
    assert ch == Step(New(c'.node, args'.nodes), c'.entries + args'.entries);
    VisitCount(n.callee, n, file, next);
    VisitListCount(NewHost(c'.node), [], n.arguments, file, next + |c'.entries|);
    VisitIdent(n.callee, n, file, next, "InvariantError");
    assert IsInvariantErrorNew(ch.node) <==> IsInvariantErrorNew(n);
    RewriteNewCount(ch.node, parent, file, next + |ch.entries|);
    assert Visit(n, parent, file, next).entries
        == ch.entries + RewriteNew(ch.node, parent, file, next + |ch.entries|).entries;
  }

  /** The construction rule takes one code exactly at an unguarded site. */
  lemma RewriteNewCount(m: Node, parent: Node, file: string, at: int)
    requires m.New?
    ensures |RewriteNew(m, parent, file, at).entries| == if IsInvariantErrorNew(m) && !IsNodeEnvConditional(parent) then 1 else 0
  {
  }

  /** Walking siblings appends one entry per pending site among them. */
  lemma {:induction false} VisitListCount(host: ListHost, done: seq<Node>, rest: seq<Node>, file: string, next: int)
    ensures |VisitList(host, done, rest, file, next).entries| == PendingList(rest)
    decreases rest, 0
  {
    if rest != [] {
      var x := Visit(rest[0], host.Build(done + rest), file, next);
      VisitCount(rest[0], host.Build(done + rest), file, next);
      VisitListCount(host, done + [x.node], rest[1..], file, next + |x.entries|);
    }
  }

  // ---------------------------------------------------------------------------
  // A whole run.

  /** The pending sites of every file of a run that mentions "invariant". */
  ghost function RunPending(files: seq<SourceFile>): nat
    decreases |files|
  {
    if files == [] then 0
    else
      var f := files[|files| - 1];
      RunPending(files[..|files| - 1]) + (if MentionsInvariant(f.code) then PendingSites(f.program, false) else 0)
  }

  /**
   * A run appends one manifest entry per pending site of the files it
   * parses: the manifest holds, after its version entry, exactly as many
   * entries as call sites were rewritten to take a code.
   */
  lemma {:induction false} RunFilesCount(files: seq<SourceFile>, next: int)
    ensures |RunFiles(files, next).entries| == RunPending(files)
    decreases |files|
  {
    if files != [] {
      var init := files[..|files| - 1];
      var f := files[|files| - 1];
      RunFilesCount(init, next);
      var prev := RunFiles(init, next);
      VisitCount(f.program, FileNode(f.program), f.relPath, next + |prev.entries|);
    }
  }
}
