# Invariant processing of the apollo-client build

This project models the build step in `config/processInvariants.ts` and proves properties of the model. The step walks the syntax tree of every built file and guards each diagnostic call site by the test `process.env.NODE_ENV === "production"`. There are three kinds of site:

- `invariant(condition, message, ...)` becomes `test ? invariant(condition, code) : invariant(condition, message, ...)`.
- `invariant.warn(...)` and `invariant.error(...)` become `test || invariant.warn(...)`.
- `new InvariantError(message, ...)` becomes `test ? new InvariantError(code) : new InvariantError(message, ...)`.

Each `code` is a number from one counter that runs across the whole build. Each code is recorded in a manifest together with the file and the original expression. A file whose text does not mention "invariant" in some letter case is not parsed at all.

The modules follow the parts of the source file:

- `Ast`: the syntax tree. It has the node kinds the step looks at or builds, plus a generic `Other` node that keeps its children.
- `Shapes`: the shape predicates (`isIdWithName`, `isCallWithLength`, `isNodeEnvConditional`, `isNodeEnvLogicalOr`, `isNodeEnvExpr`) and the test fragment `makeNodeEnvTest` builds. Three reference predicates describe the three site shapes directly on the node.
- `Prefilter`: the `/invariant/i` test, as an ASCII case-insensitive substring search.
- `Manifest`: manifest entries and what a well-formed manifest is. A well-formed manifest has the version entry first and the entry for code `i` at position `i`.
- `Registry`: the class `ErrorCodeRegistry`. It holds the run's `nextErrorCode` and manifest, and its method `GetErrorCode` is `getErrorCode`.
- `Rewrite`: the visitor's rules and its post-order walk, as pure functions that thread the counter.
  - recast substitutes each rewritten child into its parent in place. So the parent a child sees is its own parent with the earlier siblings already rewritten.
  - A node that a rule returns is not walked again.
  - recast sees a null parent for the program root; here the root sits below a `File` node, which no rule treats as a guard.
- `Completeness`: a count `PendingSites` of the `invariant(...)` and `new InvariantError(...)` sites not directly under a NODE_ENV conditional. The walk appends exactly one manifest entry per counted site, and a run appends one per counted site of the files it parses.
- `Idempotence`: a characterisation `Settled` of the trees that hold no site the walk would rewrite. The walk leaves a tree as it is exactly when the tree is settled, and whatever the walk returns is settled. So running the step again on its own output changes nothing and hands out no code.
- `Transformer`: the visitor as an imperative walk over the registry, proved equal to the pure rewrite. Around it come `transform` (prefilter, then the walk) and a whole run over a sequence of files.
- `Scenarios`: the three rewrites on sites whose arguments hold no site, stated exactly, and a three-statement program rewritten end to end.

## Model

| member | source | states |
|---|---|---|
| Shapes.SomeNameIs | config/processInvariants.ts:128 | the `names.some(...)` scan holds exactly when the name is in the list |
| Shapes.IsIdWithName | config/processInvariants.ts:126-129 | holds exactly when the node is an identifier whose name is one of those listed |
| Shapes.IsCallWithLength | config/processInvariants.ts:131-138 | holds exactly when the callee is the identifier `name` and there are strictly more than `length` arguments |
| Shapes.NodeEnvTest | config/processInvariants.ts:151-167 | `makeNodeEnvTest` builds `process.env.NODE_ENV === "production"`, and that fragment is recognised by the guard test `isNodeEnvExpr` |
| Shapes.IsNodeEnvExprExact | config/processInvariants.ts:165-168 | the guard test recognises the NODE_ENV fragment and nothing else: it holds exactly when the node equals `NodeEnvTest()` |
| Shapes.IsNodeEnvConditional | config/processInvariants.ts:140-143 | holds exactly for a conditional whose test is the NODE_ENV fragment |
| Shapes.IsNodeEnvLogicalOr | config/processInvariants.ts:145-149 | holds exactly for an `\|\|` expression whose left operand is the NODE_ENV fragment |
| Prefilter.ContainsIgnoringCase | config/processInvariants.ts:62 | true exactly when the pattern occurs at some position of the text up to ASCII letter case |
| Manifest.AppendKeepsWellFormed | config/processInvariants.ts:45-57 | appending entries numbered from the next free code keeps the manifest well formed and leaves every earlier entry unchanged |
| Manifest.WellFormedCodes | config/processInvariants.ts:27-34 | in a well-formed manifest the codes after the version entry are strictly ascending and lie in 1 .. N, so no code repeats |
| Registry.ErrorCodeRegistry.constructor | config/processInvariants.ts:27-34 | a run starts with the counter at 1 and a manifest holding only the version entry, which is well formed |
| Registry.ErrorCodeRegistry.GetErrorCode | config/processInvariants.ts:45-57 | returns the current counter as a numeric literal and raises the counter by exactly one. It appends exactly one entry `{code, "@apollo/client/" + file, expr}`, leaves the earlier entries unchanged and keeps the manifest well formed |
| Rewrite.RewriteCall | config/processInvariants.ts:73-98 | an unguarded `invariant` call with more than one argument becomes the NODE_ENV conditional. Its production branch keeps the first argument only and adds the code, and exactly one entry records the original call. An unguarded `warn`/`error` call becomes `test \|\| call` with no entry. A guarded site, or a call of no rule's shape, is returned as it is with no entry |
| Rewrite.RewriteNew | config/processInvariants.ts:104-118 | an unguarded `new InvariantError` with at least one argument becomes the NODE_ENV conditional whose production branch has the code as its only argument, with exactly one entry. Anything else, or a guarded site, is returned as it is with no entry |
| Rewrite.Visit | config/processInvariants.ts:68-121 | the walk `recast.visit` with its two visitor methods: children first, then the rule for the node itself. Its properties are stated by `VisitNumbered`, `InvariantCallSite`, `InvariantErrorSite`, `WarnOrErrorSite`, `Completeness.VisitCount` and the `Idempotence` lemmas |
| Rewrite.VisitList | config/processInvariants.ts:70 | the rewritten siblings replace the originals one for one: the already rewritten prefix is kept and the number of children is preserved |
| Rewrite.VisitCallChildren | config/processInvariants.ts:70 | `this.traverse(path)` before the call rule: the callee and arguments are rewritten, and the result is a call with as many arguments |
| Rewrite.VisitNewChildren | config/processInvariants.ts:102 | the same for a construction before its rule |
| Rewrite.VisitNumbered | config/processInvariants.ts:45-57 | walking any tree hands out the codes `next`, `next + 1`, ... with no gap, each entry for this file |
| Rewrite.InvariantCallSite | config/processInvariants.ts:69-88 | below a parent that is no NODE_ENV conditional, an `invariant` site becomes the conditional over its rewritten arguments. The last code handed out while visiting it is its own code, recorded with the debug branch |
| Rewrite.InvariantErrorSite | config/processInvariants.ts:101-118 | the same for `new InvariantError`: the production branch is `new InvariantError(code)` and the last entry is its own |
| Rewrite.WarnOrErrorSite | config/processInvariants.ts:91-98 | an unguarded `invariant.warn/error` site becomes `test \|\| call` over its rewritten arguments, and the entries are exactly those of its arguments: it takes no code itself |
| Rewrite.IdentMemberUnchanged | config/processInvariants.ts:91-93 | a callee `invariant.warn` between two identifiers is not changed by the walk |
| Idempotence.SettledUnchanged | config/processInvariants.ts:74-76 | a settled tree, one whose sites are all directly under their guards, is returned as it is with no entry |
| Idempotence.UnchangedIsSettled | config/processInvariants.ts:73-119 | conversely, a tree the walk returns unchanged is settled below its parent, so every site in it is already guarded |
| Idempotence.UnchangedIffSettled | config/processInvariants.ts:73-119 | both directions: the walk leaves a tree as it is if and only if the tree is settled below its parent |
| Idempotence.RewriteCallKept | config/processInvariants.ts:73-98 | when the call rule returns a call, it returned the call it was given, with no entry, and the call was a guarded site or no site |
| Idempotence.NodeEnvTestUnchanged | config/processInvariants.ts:151-163 | the NODE_ENV fragment itself holds no site, so the walk leaves a guard's test as it is |
| Idempotence.VisitSettles | config/processInvariants.ts:74-76 | whatever the walk returns is settled below any parent that guards at least as much as the one it was walked under |
| Idempotence.RewriteCallSettles | config/processInvariants.ts:94-96 | a call whose children are settled is settled after the call rule: each site it produces sits directly under its own guard |
| Idempotence.RewriteNewSettles | config/processInvariants.ts:105-107 | the same for the construction rule |
| Idempotence.RewriteIdempotent | config/processInvariants.ts:140-149 | rewriting the output again, below a parent that guards at least as much, returns it unchanged and hands out no code |
| Idempotence.ProgramIdempotent | config/processInvariants.ts:165-168 | a whole program below its file node: the second rewrite changes nothing and allocates nothing |
| Transformer.VisitCallExpression | config/processInvariants.ts:69-99 | `visitCallExpression` after its children are rewritten: it returns the call rule's node and appends exactly the rule's entries to the registry |
| Transformer.VisitNewExpression | config/processInvariants.ts:101-120 | `visitNewExpression`: the construction rule's node and entries |
| Transformer.WalkNode | config/processInvariants.ts:68-121 | the imperative walk returns the pure walk's node, appends exactly its entries to the manifest and advances the counter by their number |
| Transformer.WalkNodes | config/processInvariants.ts:68-121 | the same for a sequence of siblings |
| Transformer.Transform | config/processInvariants.ts:59-124 | a file not mentioning "invariant" in any case comes back as its text and the registry is unchanged. Otherwise the program is replaced by the walk's result and the manifest grows by the walk's entries. The manifest stays well formed either way |
| Transformer.RunFiles | config/processInvariants.ts:5-11 | one output per file, and a file that does not mention "invariant" comes back as its text |
| Transformer.RunFilesReprinted | config/processInvariants.ts:5-7 | any other file comes back as the walk's tree, with its codes continuing from the last code the files before it took |
| Transformer.ProcessFiles | config/processInvariants.ts:5-34 | a whole run from a fresh registry. Its outputs and manifest are those of `RunFiles` from code 1 after the version entry, so the codes handed out are 1 .. N with no gap |
| Completeness.VisitReflectsNodeEnvTest | config/processInvariants.ts:140-143 | the walk returns the NODE_ENV test exactly for the NODE_ENV test, so a conditional is a guard after its test is rewritten exactly when it was one before |
| Completeness.VisitCount | config/processInvariants.ts:73-118 | the walk appends exactly one manifest entry per `invariant(...)` or `new InvariantError(...)` site of the tree that is not directly under a NODE_ENV conditional, and none for `warn`/`error` calls or anything else |
| Completeness.RunFilesCount | config/processInvariants.ts:5-11 | over a run, the number of manifest entries after the version entry equals the number of such sites in the files that mention "invariant" |
| Scenarios.InvariantCallExact | config/processInvariants.ts:73-88 | `invariant(a, b, ...)` whose arguments hold no site becomes `test ? invariant(a, next) : invariant(a, b, ...)` with exactly the entry for `next` |
| Scenarios.WarnOrErrorCallExact | config/processInvariants.ts:91-98 | `invariant.warn(...)` or `invariant.error(...)` whose arguments hold no site becomes `test \|\| call` with no entry |
| Scenarios.InvariantErrorExact | config/processInvariants.ts:104-118 | `new InvariantError(m, ...)` whose arguments hold no site becomes `test ? new InvariantError(next) : new InvariantError(m, ...)` with exactly the entry for `next` |
| Scenarios.ProgramScenario | config/processInvariants.ts:68-124 | the program `invariant(c, m); invariant.warn(w); new InvariantError(e);` with the counter at 1 gives codes 1 and 2 to the first and third statements, none to the warning, and exactly those two entries in that order |

## Left out

- Reading and writing files, the directory walk `eachFile(distDir, ...)` and its promise, and the write-only-if-changed check (lines 1-18). These are I/O. A run takes the files as a sequence of (text, relative path, parsed program) in the order the walk yields them.
- Parsing and printing (`reparse`, `reprint`, `recast.print`) and the manifest's comment header (lines 14-16, 36-43, 66, 123). The helpers module is not part of this model. A file that mentions "invariant" comes with its parsed program, and the output is the rewritten tree, not its printed text.
- The package version (line 32) is a string parameter of the run.
- recast's general structural equivalence `astNodesAreEquivalent` (line 167) is modelled as equality with the one fixed NODE_ENV fragment. Source positions, comments, parentheses and the difference between `StringLiteral` and `Literal` nodes are not modelled.
- Fields of a call other than its callee and arguments (`optional`, `typeArguments`). The spread `{...node, arguments}` is modelled as keeping the callee.
- The in-place substitution done by recast's path machinery. It is modelled by returning the new node and passing each child its parent with the earlier siblings rewritten. Aliasing between tree nodes is not modelled.
- The `/invariant/i` regular expression is modelled as ASCII case folding. For this all-ASCII pattern without the `u` flag that is what a JavaScript engine does.
- Transform: requires the registry to be valid on entry. The module-level counter and manifest are only ever changed through `getErrorCode`, which keeps that invariant from the start of the run.
- ProgramIdempotent: the second run is stated on the rewritten tree, not on the text printed from it and parsed back, because printing and parsing are not modelled.
- VisitNumbered: states that the codes of one walk are consecutive, not that they follow post-order in general. The order is stated for each site (its own entry comes after those of its arguments, in `InvariantCallSite` and `InvariantErrorSite`) and for the worked program of `Scenarios.ProgramScenario`.
- Three points of `processInvariants.ts` that are easy to misread:
  - `invariant.warn/error` sites take no code and add no manifest entry (lines 91-98).
  - The production branch of an `invariant` call keeps its first argument, the condition, and drops the rest (lines 78-79).
  - A manifest entry records the whole call or construction, as it stands after its arguments are rewritten (line 70 runs before line 79), not only its message argument (line 53).
