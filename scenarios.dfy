/**
 * The three rewrites on call sites whose arguments hold no site themselves,
 * stated exactly, and a worked run on a program whose statements are an
 * assertion, a warning and an error construction, in that order.
 */
module Scenarios {
  import opened Ast
  import opened Manifest
  import opened Shapes
  import opened Rewrite
  import opened Idempotence

  /**
   * An unguarded `invariant(cond, message, ...)` whose arguments hold no
   * site becomes `test ? invariant(cond, next) : invariant(cond, message, ...)`
   * and takes the code `next`.
   */
  lemma InvariantCallExact(args: seq<Node>, parent: Node, file: string, next: int)
    requires |args| >= 2 && AllSettled(args) && !IsNodeEnvConditional(parent)
    ensures var n := Call(Ident("invariant"), args);
      Visit(n, parent, file, next)
      == Step(Conditional(NodeEnvTest(), Call(Ident("invariant"), [args[0], NumLit(next)]), n),
              [CodeEntry(next, FilePrefix + file, n)])
  {
    var n := Call(Ident("invariant"), args);
    assert Visit(n.callee, n, file, next) == Step(n.callee, []);
    SettledListUnchanged(CallHost(n.callee), [], args, file, next);
    assert [] + args == args;
    assert VisitCallChildren(n, file, next) == Step(n, []);
    assert IsInvariantCall(n);
    var out := Step(Conditional(NodeEnvTest(), Call(n.callee, [args[0], NumLit(next)]), n), [CodeEntry(next, FilePrefix + file, n)]);
    assert RewriteCall(n, parent, file, next) == out;
    assert Visit(n, parent, file, next) == VisitCall(n, parent, file, next);
  }

  /**
   * An unguarded `invariant.warn(...)` or `invariant.error(...)` whose
   * arguments hold no site becomes `test || invariant.warn(...)` and takes
   * no code.
   */
  lemma WarnOrErrorCallExact(level: string, args: seq<Node>, parent: Node, file: string, next: int)
    requires level == "warn" || level == "error"
    requires AllSettled(args) && !IsNodeEnvLogicalOr(parent)
    ensures var n := Call(Member(Ident("invariant"), Ident(level), false), args);
      Visit(n, parent, file, next) == Step(Logical("||", NodeEnvTest(), n), [])
  {
    var n := Call(Member(Ident("invariant"), Ident(level), false), args);
    assert IsWarnOrErrorCall(n);
    WarnOrErrorSite(n, parent, file, next);
    SettledListUnchanged(CallHost(n.callee), [], args, file, next);
    assert [] + args == args;
  }

  /**
   * An unguarded `new InvariantError(message, ...)` whose arguments hold no
   * site becomes `test ? new InvariantError(next) : new InvariantError(message, ...)`
   * and takes the code `next`.
   */
  lemma InvariantErrorExact(args: seq<Node>, parent: Node, file: string, next: int)
    requires |args| >= 1 && AllSettled(args) && !IsNodeEnvConditional(parent)
    ensures var n := New(Ident("InvariantError"), args);
      Visit(n, parent, file, next)
      == Step(Conditional(NodeEnvTest(), New(Ident("InvariantError"), [NumLit(next)]), n),
              [CodeEntry(next, FilePrefix + file, n)])
  {
    var n := New(Ident("InvariantError"), args);
    assert Visit(n.callee, n, file, next) == Step(n.callee, []);
    SettledListUnchanged(NewHost(n.callee), [], args, file, next);
    assert [] + args == args;
    assert VisitNewChildren(n, file, next) == Step(n, []);
    assert IsInvariantErrorNew(n);
    var out := Step(Conditional(NodeEnvTest(), New(n.callee, [NumLit(next)]), n), [CodeEntry(next, FilePrefix + file, n)]);
    assert RewriteNew(n, parent, file, next) == out;
    assert Visit(n, parent, file, next) == VisitNew(n, parent, file, next);
  }

  function Statement(e: Node): Node
  {
    Other("ExpressionStatement", [e])
  }

  /** A list is rewritten by rewriting its first remaining sibling, then the rest. */
  lemma ListCons(host: ListHost, done: seq<Node>, rest: seq<Node>, file: string, next: int,
                 x: Step, tail: Steps)
    requires rest != []
    requires Visit(rest[0], host.Build(done + rest), file, next) == x
    requires VisitList(host, done + [x.node], rest[1..], file, next + |x.entries|) == tail
    ensures VisitList(host, done, rest, file, next) == Steps(tail.nodes, x.entries + tail.entries)
  {
  }

  /** A statement is rewritten by rewriting its expression below it. */
  lemma StatementVisit(e: Node, parent: Node, file: string, next: int)
    ensures var r := Visit(e, Statement(e), file, next);
      Visit(Statement(e), parent, file, next) == Step(Statement(r.node), r.entries)
  {
    var r := Visit(e, Statement(e), file, next);
    var host := OtherHost("ExpressionStatement");
    assert [] + [e] == [e] && [e][1..] == [] && [] + [r.node] == [r.node];
    ListCons(host, [], [e], file, next, r, Steps([r.node], []));
    assert r.entries + [] == r.entries;
  }

  /** `invariant(cond, message)`, `invariant.warn(note)` and `new InvariantError(reason)`. */
  function Assertion(cond: Node, message: Node): Node { Call(Ident("invariant"), [cond, message]) }
  function Warning(note: Node): Node { Call(Member(Ident("invariant"), Ident("warn"), false), [note]) }
  function Failure(reason: Node): Node { New(Ident("InvariantError"), [reason]) }

  /** The three statements as the rewrite leaves them, with the codes `code` and `code + 1`. */
  function GuardedAssertion(cond: Node, message: Node, code: int): Node
  {
    Statement(Conditional(NodeEnvTest(), Call(Ident("invariant"), [cond, NumLit(code)]), Assertion(cond, message)))
  }
  function GuardedWarning(note: Node): Node { Statement(Logical("||", NodeEnvTest(), Warning(note))) }
  function GuardedFailure(reason: Node, code: int): Node
  {
    Statement(Conditional(NodeEnvTest(), New(Ident("InvariantError"), [NumLit(code)]), Failure(reason)))
  }

  /**
   * A program `invariant(cond, message); invariant.warn(note);
   * new InvariantError(reason);` whose arguments hold no site, below its
   * file node, with the counter at 1: the assertion takes code 1, the
   * warning none, and the construction, which comes after it, code 2.
   */
  lemma ProgramScenario(cond: Node, message: Node, note: Node, reason: Node, file: string)
    requires AllSettled([cond, message]) && AllSettled([note]) && AllSettled([reason])
    ensures var program := Other("Program", [Statement(Assertion(cond, message)), Statement(Warning(note)), Statement(Failure(reason))]);
      Visit(program, FileNode(program), file, 1)
      == Step(Other("Program", [GuardedAssertion(cond, message, 1), GuardedWarning(note), GuardedFailure(reason, 2)]),
              [CodeEntry(1, FilePrefix + file, Assertion(cond, message)), CodeEntry(2, FilePrefix + file, Failure(reason))])
  {
    ProgramListScenario(cond, message, note, reason, file);
  }

  lemma ProgramListScenario(cond: Node, message: Node, note: Node, reason: Node, file: string)
    requires AllSettled([cond, message]) && AllSettled([note]) && AllSettled([reason])
    ensures VisitList(OtherHost("Program"), [], [Statement(Assertion(cond, message)), Statement(Warning(note)), Statement(Failure(reason))], file, 1)
      == Steps([GuardedAssertion(cond, message, 1), GuardedWarning(note), GuardedFailure(reason, 2)],
               [CodeEntry(1, FilePrefix + file, Assertion(cond, message)), CodeEntry(2, FilePrefix + file, Failure(reason))])
  {
    var host := OtherHost("Program");
    var s1, s2, s3 := Statement(Assertion(cond, message)), Statement(Warning(note)), Statement(Failure(reason));
    var t1, t2, t3 := GuardedAssertion(cond, message, 1), GuardedWarning(note), GuardedFailure(reason, 2);
    var c1, c2 := CodeEntry(1, FilePrefix + file, Assertion(cond, message)), CodeEntry(2, FilePrefix + file, Failure(reason));
    ProgramTailScenario(cond, message, note, reason, file);
    StatementsScenario(cond, message, note, reason, file);
    assert [] + [s1, s2, s3] == [s1, s2, s3] && [s1, s2, s3][1..] == [s2, s3] && [] + [t1] == [t1];
    ListCons(host, [], [s1, s2, s3], file, 1, Step(t1, [c1]), Steps([t1, t2, t3], [c2]));
  }

  /** The second and third statements, once the first is rewritten. */
  lemma ProgramTailScenario(cond: Node, message: Node, note: Node, reason: Node, file: string)
    requires AllSettled([cond, message]) && AllSettled([note]) && AllSettled([reason])
    ensures VisitList(OtherHost("Program"), [GuardedAssertion(cond, message, 1)], [Statement(Warning(note)), Statement(Failure(reason))], file, 2)
      == Steps([GuardedAssertion(cond, message, 1), GuardedWarning(note), GuardedFailure(reason, 2)],
               [CodeEntry(2, FilePrefix + file, Failure(reason))])
  {
    var host := OtherHost("Program");
    var s2, s3 := Statement(Warning(note)), Statement(Failure(reason));
    var t1, t2, t3 := GuardedAssertion(cond, message, 1), GuardedWarning(note), GuardedFailure(reason, 2);
    var c2 := CodeEntry(2, FilePrefix + file, Failure(reason));
    StatementsScenario(cond, message, note, reason, file);
    assert [t1, t2] + [s3] == [t1, t2, s3] && [s3][1..] == [] && [t1, t2] + [t3] == [t1, t2, t3];
    ListCons(host, [t1, t2], [s3], file, 2, Step(t3, [c2]), Steps([t1, t2, t3], []));
    assert [t1] + [s2, s3] == [t1, s2, s3] && [s2, s3][1..] == [s3] && [t1] + [t2] == [t1, t2];
    ListCons(host, [t1], [s2, s3], file, 2, Step(t2, []), Steps([t1, t2, t3], [c2] + []));
  }

  /** The three statements, each below the program as it stands when its turn comes. */
  lemma StatementsScenario(cond: Node, message: Node, note: Node, reason: Node, file: string)
    requires AllSettled([cond, message]) && AllSettled([note]) && AllSettled([reason])
    ensures var host := OtherHost("Program");
      var s1, s2, s3 := Statement(Assertion(cond, message)), Statement(Warning(note)), Statement(Failure(reason));
      var t1, t2 := GuardedAssertion(cond, message, 1), GuardedWarning(note);
      && Visit(s1, host.Build([s1, s2, s3]), file, 1)
         == Step(t1, [CodeEntry(1, FilePrefix + file, Assertion(cond, message))])
      && Visit(s2, host.Build([t1, s2, s3]), file, 2) == Step(t2, [])
      && Visit(s3, host.Build([t1, t2, s3]), file, 2)
         == Step(GuardedFailure(reason, 2), [CodeEntry(2, FilePrefix + file, Failure(reason))])
  {
    var host := OtherHost("Program");
    var a, w, e := Assertion(cond, message), Warning(note), Failure(reason);
    var t1, t2 := GuardedAssertion(cond, message, 1), GuardedWarning(note);
    InvariantCallExact([cond, message], Statement(a), file, 1);
    WarnOrErrorCallExact("warn", [note], Statement(w), file, 2);
    InvariantErrorExact([reason], Statement(e), file, 2);
    StatementVisit(a, host.Build([Statement(a), Statement(w), Statement(e)]), file, 1);
    StatementVisit(w, host.Build([t1, Statement(w), Statement(e)]), file, 2);
    StatementVisit(e, host.Build([t1, t2, Statement(e)]), file, 2);
  }
}
