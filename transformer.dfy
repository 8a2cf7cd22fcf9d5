/**
 * The visitor of the invariant-processing build step as it runs: a
 * post-order walk that substitutes each rewritten node for the original and
 * takes its codes from the run's `ErrorCodeRegistry`. Every method is proved
 * against the pure rewrite of module `Rewrite`.
 */
module Transformer {
  import opened Ast
  import opened Manifest
  import opened Shapes
  import opened Rewrite
  import opened Registry
  import opened Prefilter

  /**
   * What `transform` returns: the source text itself when the prefilter
   * skips the file, otherwise the rewritten tree that is printed back.
   */
  datatype Output = Unparsed(text: string) | Reprinted(program: Node)

  /** `visitCallExpression` once the call's children are rewritten. */
  method VisitCallExpression(n: Node, parent: Node, file: string, reg: ErrorCodeRegistry) returns (r: Node)
    requires n.Call?
    modifies reg
    ensures var s := RewriteCall(n, parent, file, old(reg.nextErrorCode));
      && r == s.node
      && reg.manifest == old(reg.manifest) + s.entries
      && reg.nextErrorCode == old(reg.nextErrorCode) + |s.entries|
  {
    if IsCallWithLength(n, "invariant", 1) {
      if IsNodeEnvConditional(parent) {
        return n;
      }
      var newArgs := n.arguments[..1];
      var numLit := reg.GetErrorCode(file, n);
      newArgs := newArgs + [numLit];
      return Conditional(NodeEnvTest(), Call(n.callee, newArgs), n);
    }
    if n.callee.Member? && IsIdWithName(n.callee.obj, ["invariant"])
       && IsIdWithName(n.callee.property, ["warn", "error"]) {
      if IsNodeEnvLogicalOr(parent) {
        return n;
      }
      return Logical("||", NodeEnvTest(), n);
    }
    return n;
  }

  /** `visitNewExpression` once the construction's children are rewritten. */
  method VisitNewExpression(n: Node, parent: Node, file: string, reg: ErrorCodeRegistry) returns (r: Node)
    requires n.New?
    modifies reg
    ensures var s := RewriteNew(n, parent, file, old(reg.nextErrorCode));
      && r == s.node
      && reg.manifest == old(reg.manifest) + s.entries
      && reg.nextErrorCode == old(reg.nextErrorCode) + |s.entries|
  {
    if IsCallWithLength(n, "InvariantError", 0) {
      if IsNodeEnvConditional(parent) {
        return n;
      }
      var numLit := reg.GetErrorCode(file, n);
      var newArgs := [numLit];
      return Conditional(NodeEnvTest(), New(n.callee, newArgs), n);
    }
    return n;
  }

  /** Walks `n` below `parent`: children first, then the rule for `n` itself. */
  method WalkNode(n: Node, parent: Node, file: string, reg: ErrorCodeRegistry) returns (r: Node)
    modifies reg
    ensures var s := Visit(n, parent, file, old(reg.nextErrorCode));
      && r == s.node
      && reg.manifest == old(reg.manifest) + s.entries
      && reg.nextErrorCode == old(reg.nextErrorCode) + |s.entries|
    decreases n, 2
  {
    match n
    case Ident(_) => r := n;
    case StringLit(_) => r := n;
    case NumLit(_) => r := n;
    case Member(_, _, _) => r := WalkMember(n, file, reg);
    case Call(_, _) => r := WalkCall(n, parent, file, reg);
    case New(_, _) => r := WalkNew(n, parent, file, reg);
    case Conditional(_, _, _) => r := WalkConditional(n, file, reg);
    case Logical(_, _, _) => r := WalkLogical(n, file, reg);
    case Binary(_, _, _) => r := WalkBinary(n, file, reg);
    case Other(kind, cs) =>
      var cs' := WalkNodes(OtherHost(kind), [], cs, file, reg);
      r := Other(kind, cs');
  }

  method WalkMember(n: Node, file: string, reg: ErrorCodeRegistry) returns (r: Node)
    requires n.Member?
    modifies reg
    ensures var s := VisitMember(n, file, old(reg.nextErrorCode));
      && r == s.node
      && reg.manifest == old(reg.manifest) + s.entries
      && reg.nextErrorCode == old(reg.nextErrorCode) + |s.entries|
    decreases n, 1
  {
    ghost var k0, m0 := reg.nextErrorCode, reg.manifest;
    var o' := WalkNode(n.obj, n, file, reg);
    ghost var s1 := Visit(n.obj, n, file, k0);
    ghost var m1 := reg.manifest;
    var p' := WalkNode(n.property, Member(o', n.property, n.computed), file, reg);
    ghost var s2 := Visit(n.property, Member(s1.node, n.property, n.computed), file, k0 + |s1.entries|);
    r := Member(o', p', n.computed);
    AppendChain2(m0, m1, reg.manifest, s1.entries, s2.entries);
  }

  method WalkLogical(n: Node, file: string, reg: ErrorCodeRegistry) returns (r: Node)
    requires n.Logical?
    modifies reg
    ensures var s := VisitLogical(n, file, old(reg.nextErrorCode));
      && r == s.node
      && reg.manifest == old(reg.manifest) + s.entries
      && reg.nextErrorCode == old(reg.nextErrorCode) + |s.entries|
    decreases n, 1
  {
    ghost var k0, m0 := reg.nextErrorCode, reg.manifest;
    var l' := WalkNode(n.left, n, file, reg);
    ghost var s1 := Visit(n.left, n, file, k0);
    ghost var m1 := reg.manifest;
    var r' := WalkNode(n.right, Logical(n.operator, l', n.right), file, reg);
    ghost var s2 := Visit(n.right, Logical(n.operator, s1.node, n.right), file, k0 + |s1.entries|);
    r := Logical(n.operator, l', r');
    AppendChain2(m0, m1, reg.manifest, s1.entries, s2.entries);
  }

  method WalkBinary(n: Node, file: string, reg: ErrorCodeRegistry) returns (r: Node)
    requires n.Binary?
    modifies reg
    ensures var s := VisitBinary(n, file, old(reg.nextErrorCode));
      && r == s.node
      && reg.manifest == old(reg.manifest) + s.entries
      && reg.nextErrorCode == old(reg.nextErrorCode) + |s.entries|
    decreases n, 1
  {
    ghost var k0, m0 := reg.nextErrorCode, reg.manifest;
    var l' := WalkNode(n.left, n, file, reg);
    ghost var s1 := Visit(n.left, n, file, k0);
    ghost var m1 := reg.manifest;
    var r' := WalkNode(n.right, Binary(n.operator, l', n.right), file, reg);
    ghost var s2 := Visit(n.right, Binary(n.operator, s1.node, n.right), file, k0 + |s1.entries|);
    r := Binary(n.operator, l', r');
    AppendChain2(m0, m1, reg.manifest, s1.entries, s2.entries);
  }

  method WalkCall(n: Node, parent: Node, file: string, reg: ErrorCodeRegistry) returns (r: Node)
    requires n.Call?
    modifies reg
    ensures var s := VisitCall(n, parent, file, old(reg.nextErrorCode));
      && r == s.node
      && reg.manifest == old(reg.manifest) + s.entries
      && reg.nextErrorCode == old(reg.nextErrorCode) + |s.entries|
    decreases n, 1
  {
    ghost var k0, m0 := reg.nextErrorCode, reg.manifest;
    var ch := WalkCallChildren(n, file, reg);
    ghost var s1 := VisitCallChildren(n, file, k0);
    ghost var m1 := reg.manifest;
    r := VisitCallExpression(ch, parent, file, reg);
    ghost var s2 := RewriteCall(s1.node, parent, file, k0 + |s1.entries|);
    AppendChain2(m0, m1, reg.manifest, s1.entries, s2.entries);
  }

  method WalkCallChildren(n: Node, file: string, reg: ErrorCodeRegistry) returns (r: Node)
    requires n.Call?
    modifies reg
    ensures var s := VisitCallChildren(n, file, old(reg.nextErrorCode));
      && r == s.node
      && reg.manifest == old(reg.manifest) + s.entries
      && reg.nextErrorCode == old(reg.nextErrorCode) + |s.entries|
    decreases n, 0
  {
    ghost var k0, m0 := reg.nextErrorCode, reg.manifest;
    var c' := WalkNode(n.callee, n, file, reg);
    ghost var s1 := Visit(n.callee, n, file, k0);
    ghost var m1 := reg.manifest;
    var args' := WalkNodes(CallHost(c'), [], n.arguments, file, reg);
    ghost var s2 := VisitList(CallHost(s1.node), [], n.arguments, file, k0 + |s1.entries|);
    r := Call(c', args');
    AppendChain2(m0, m1, reg.manifest, s1.entries, s2.entries);
  }

  method WalkNew(n: Node, parent: Node, file: string, reg: ErrorCodeRegistry) returns (r: Node)
    requires n.New?
    modifies reg
    ensures var s := VisitNew(n, parent, file, old(reg.nextErrorCode));
      && r == s.node
      && reg.manifest == old(reg.manifest) + s.entries
      && reg.nextErrorCode == old(reg.nextErrorCode) + |s.entries|
    decreases n, 1
  {
    ghost var k0, m0 := reg.nextErrorCode, reg.manifest;
    var ch := WalkNewChildren(n, file, reg);
    ghost var s1 := VisitNewChildren(n, file, k0);
    ghost var m1 := reg.manifest;
    r := VisitNewExpression(ch, parent, file, reg);
    ghost var s2 := RewriteNew(s1.node, parent, file, k0 + |s1.entries|);
    AppendChain2(m0, m1, reg.manifest, s1.entries, s2.entries);
  }

  method WalkNewChildren(n: Node, file: string, reg: ErrorCodeRegistry) returns (r: Node)
    requires n.New?
    modifies reg
    ensures var s := VisitNewChildren(n, file, old(reg.nextErrorCode));
      && r == s.node
      && reg.manifest == old(reg.manifest) + s.entries
      && reg.nextErrorCode == old(reg.nextErrorCode) + |s.entries|
    decreases n, 0
  {
    ghost var k0, m0 := reg.nextErrorCode, reg.manifest;
    var c' := WalkNode(n.callee, n, file, reg);
    ghost var s1 := Visit(n.callee, n, file, k0);
    ghost var m1 := reg.manifest;
    var args' := WalkNodes(NewHost(c'), [], n.arguments, file, reg);
    ghost var s2 := VisitList(NewHost(s1.node), [], n.arguments, file, k0 + |s1.entries|);
    r := New(c', args');
    AppendChain2(m0, m1, reg.manifest, s1.entries, s2.entries);
  }

  method WalkConditional(n: Node, file: string, reg: ErrorCodeRegistry) returns (r: Node)
    requires n.Conditional?
    modifies reg
    ensures var s := VisitConditional(n, file, old(reg.nextErrorCode));
      && r == s.node
      && reg.manifest == old(reg.manifest) + s.entries
      && reg.nextErrorCode == old(reg.nextErrorCode) + |s.entries|
    decreases n, 1
  {
    ghost var k0, m0 := reg.nextErrorCode, reg.manifest;
    var t' := WalkNode(n.test, n, file, reg);
    ghost var s1 := Visit(n.test, n, file, k0);
    ghost var m1 := reg.manifest;
    var c' := WalkNode(n.consequent, Conditional(t', n.consequent, n.alternate), file, reg);
    ghost var s2 := Visit(n.consequent, Conditional(s1.node, n.consequent, n.alternate), file, k0 + |s1.entries|);
    ghost var m2 := reg.manifest;
    var a' := WalkNode(n.alternate, Conditional(t', c', n.alternate), file, reg);
    ghost var s3 := Visit(n.alternate, Conditional(s1.node, s2.node, n.alternate), file, k0 + |s1.entries| + |s2.entries|);
    r := Conditional(t', c', a');
    AppendChain3(m0, m1, m2, reg.manifest, s1.entries, s2.entries, s3.entries);
  }

  /** A manifest grown by `a`, then `b`, then `c` has grown by `a + b + c`. */
  lemma AppendChain3<T>(m0: seq<T>, m1: seq<T>, m2: seq<T>, m3: seq<T>, a: seq<T>, b: seq<T>, c: seq<T>)
    requires m1 == m0 + a && m2 == m1 + b && m3 == m2 + c
    ensures m3 == m0 + (a + b + c)
  {
    calc {
      m3;
      m0 + a + b + c;
      { assert m0 + a + b == m0 + (a + b); }
      m0 + (a + b) + c;
    }
  }

  /** A manifest grown by `a`, then `b`, has grown by `a + b`. */
  lemma AppendChain2<T>(m0: seq<T>, m1: seq<T>, m2: seq<T>, a: seq<T>, b: seq<T>)
    requires m1 == m0 + a && m2 == m1 + b
    ensures m2 == m0 + (a + b)
  {
  }

  /** Walks the siblings `rest` below `host`, after the already rewritten `done`. */
  method WalkNodes(host: ListHost, done: seq<Node>, rest: seq<Node>, file: string, reg: ErrorCodeRegistry)
    returns (rs: seq<Node>)
    modifies reg
    ensures var s := VisitList(host, done, rest, file, old(reg.nextErrorCode));
      && rs == s.nodes
      && reg.manifest == old(reg.manifest) + s.entries
      && reg.nextErrorCode == old(reg.nextErrorCode) + |s.entries|
    decreases rest, 0
  {
    if rest == [] {
      return done;
    }
    ghost var k0, m0 := reg.nextErrorCode, reg.manifest;
    var x := WalkNode(rest[0], host.Build(done + rest), file, reg);
    ghost var s1 := Visit(rest[0], host.Build(done + rest), file, k0);
    ghost var m1 := reg.manifest;
    rs := WalkNodes(host, done + [x], rest[1..], file, reg);
    ghost var s2 := VisitList(host, done + [s1.node], rest[1..], file, k0 + |s1.entries|);
    AppendChain2(m0, m1, reg.manifest, s1.entries, s2.entries);
  }

  /**
   * `transform(code, file)`: a file whose text does not mention "invariant"
   * in any case is returned as it is and hands out no code; otherwise its
   * parsed program is walked below the file node.
   */
  method Transform(code: string, file: string, program: Node, reg: ErrorCodeRegistry) returns (out: Output)
    requires reg.Valid()
    modifies reg
    ensures reg.Valid()
    ensures !MentionsInvariant(code) ==>
      out == Unparsed(code) && reg.manifest == old(reg.manifest) && reg.nextErrorCode == old(reg.nextErrorCode)
    ensures MentionsInvariant(code) ==>
      var s := Visit(program, FileNode(program), file, old(reg.nextErrorCode));
      && out == Reprinted(s.node)
      && reg.manifest == old(reg.manifest) + s.entries
      && reg.nextErrorCode == old(reg.nextErrorCode) + |s.entries|
  {
    if !MentionsInvariant(code) {
      return Unparsed(code);
    }
    ghost var m0 := reg.manifest;
    var ast := WalkNode(program, FileNode(program), file, reg);
    VisitNumbered(program, FileNode(program), file, |m0|);
    AppendKeepsWellFormed(m0, reg.manifest[|m0|..], FilePrefix + file);
    return Reprinted(ast);
  }

  /** One source file of the build output, with the program its text parses to. */
  datatype SourceFile = SourceFile(code: string, relPath: string, program: Node)

  /** What a run over a sequence of files yields: one output per file and the entries appended. */
  datatype Run = Run(outputs: seq<Output>, entries: seq<ManifestEntry>)

  /**
   * `transform` on each of `files` in turn, codes handed out from `next`:
   * each file starts at the code after the last one its predecessors took.
   */
  function RunFiles(files: seq<SourceFile>, next: int): (r: Run)
    ensures |r.outputs| == |files|
    ensures forall i :: 0 <= i < |files| && !MentionsInvariant(files[i].code) ==>
      r.outputs[i] == Unparsed(files[i].code)
    decreases |files|
  {
    if files == [] then Run([], [])
    else
      var init := files[..|files| - 1];
      var prev := RunFiles(init, next);
      var f := files[|files| - 1];
      if !MentionsInvariant(f.code) then Run(prev.outputs + [Unparsed(f.code)], prev.entries)
      else
        var s := Visit(f.program, FileNode(f.program), f.relPath, next + |prev.entries|);
        Run(prev.outputs + [Reprinted(s.node)], prev.entries + s.entries)
  }

  /**
   * A file that mentions "invariant" comes back as the walk's tree, its codes
   * continuing from the last one the files before it took.
   */
  lemma {:induction false} RunFilesReprinted(files: seq<SourceFile>, next: int, i: int)
    requires 0 <= i < |files| && MentionsInvariant(files[i].code)
    ensures RunFiles(files, next).outputs[i]
         == Reprinted(Visit(files[i].program, FileNode(files[i].program), files[i].relPath,
                            next + |RunFiles(files[..i], next).entries|).node)
    decreases |files|
  {
    var init := files[..|files| - 1];
    if i < |init| {
      assert files[i] == init[i] && files[..i] == init[..i];
      RunFilesReprinted(init, next, i);
    } else {
      assert files[..i] == init;
    }
  }

  /**
   * A whole run: one fresh registry, then `transform` on every file in the
   * order the directory walk yields them. The manifest is the version entry
   * followed by the entries of `RunFiles` from code 1, and it stays well
   * formed, so the codes handed out are 1, 2, ... with no gap.
   */
  method ProcessFiles(version: string, files: seq<SourceFile>) returns (outs: seq<Output>, reg: ErrorCodeRegistry)
    ensures fresh(reg) && reg.Valid()
    ensures var run := RunFiles(files, 1);
      && outs == run.outputs
      && reg.manifest == [VersionEntry(version)] + run.entries
      && reg.nextErrorCode == 1 + |run.entries|
  {
    reg := new ErrorCodeRegistry(version);
    outs := [];
    for i := 0 to |files|
      invariant reg.Valid()
      invariant var run := RunFiles(files[..i], 1);
        && outs == run.outputs
        && reg.manifest == [VersionEntry(version)] + run.entries
        && reg.nextErrorCode == 1 + |run.entries|
    {
      assert files[..i + 1][..i] == files[..i];
      var out := Transform(files[i].code, files[i].relPath, files[i].program, reg);
      outs := outs + [out];
    }
    assert files[..|files|] == files;
  }
}
