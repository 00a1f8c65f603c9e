# rework-modules, modelled in Dafny

This project models the module-resolution engine of rework-modules
(`lib/modules.js`). It merges a table of named style-sheet modules into one
rule tree, starting from an entry module. The engine works in five parts:

- **Load and cache.** A session `Parser` loads modules through a cache. A
  missing name is retried under `<parent>/deps/`, and a string entry is an
  alias for another name.
- **Resolve.** Relative specifiers (`./x`, `../x`) are resolved against the
  requiring module's path.
- **Walk.** A module's rules are walked at most once per requested path.
  The cache is keyed by the path asked for, not by the module-table entry,
  so one entry reached under two paths is walked twice. `:require` fills the
  require table. `:exports` and `:locals` fill the export and locals tables.
  `:content` splices in a required module's rules between begin and end
  comments. `%` rules are namespaced and collected session-wide. Every other
  rule has its declaration values rewritten.
- **Substitute.** Variable tokens `$name` and `$alias/name` are looked up in
  the locals table and in the exports of required modules.
- **Hoist.** The collected placeholders are put in front of the entry
  module's rules.

The model has ten modules:

| file | module | models |
|---|---|---|
| `wrappers.dfy` | `Wrappers` | `Option` and `Result`; failures propagate with `:-` |
| `strings.dfy` | `Strings` | `indexOf(p) === 0`, `split`, `join`, decimal rendering |
| `paths.dfy` | `Paths` | `resolve`, with Node's `dirname` and `path.resolve` re-specified as a segment normaliser |
| `css.dfy` | `Css` | the rule tree, `select`, handler dispatch, the "no directive left" invariant |
| `errors.dfy` | `Errors` | `ParseError` and its message |
| `variables.dfy` | `Variables` | the `$[-.\w/]+` scan, `substituteValues`, `resolveValue`, `resolveLocal`, `resolveExported` |
| `tables.dfy` | `Tables` | what each handler computes, as functions: export and locals tables, content splices, declaration rewriting, namespacing |
| `session.dfy` | `Session` | a whole parsing session as functions of the parser's tables: what `load`, `parse`, each handler and the exported function return and leave behind |
| `reentry.dfy` | `Reentry` | a session that walks one module-table entry twice, under two source names, and still finishes |
| `parser.dfy` | `Modules` | the `Parser` class: its tables, `load`, `parse` and every handler as methods proved against the `Session` functions; the exported entry point |

Each handler that loops in the source is a `method` with a loop. Its
contract ties the result, or the new table, to a function of the same
inputs:

- `Parse` is tied to `Session.ParseResult`, and `ParseRequire` to
  `Session.RequireResult`;
- `ParseContent`, `ParseExports`, `ParseLocals`, `ParseDeclarations` and
  `ParseKeyframes` are tied to the folds `Tables.Splice`,
  `Tables.ExportsTable`, `Tables.LocalsTable`, `Tables.RewriteDecls` and
  `Tables.RewriteRules`.

`ParsePlaceholders` has no loop of its own. It appends `Session.Placeholder`
of the rule, whose selectors `Session.NamespaceAll` namespaces one by one.
The lemmas about the table semantics are stated and proved about the fold
functions:

- the key sets of the tables;
- the last declaration wins;
- the first failure decides the error;
- locals may use earlier locals only;
- the export round trip;
- splice concatenation.

The recursive part of the session (`load` calls `parse`, whose
`:require` handler calls `load` again) is stated as four mutually recursive
functions in `Session`: `LoadResult`, `ParseResult`, `RuleResult` and
`RequireResult`. Each takes the tables before the call and returns the
result together with the tables after it. Each method of `Parser` is proved
to return exactly what its function returns, and on success to leave the
fields equal to the function's new tables. So the exact output of a walk,
the records bound in a require table and the record cached for a path are
all fixed by these functions. The lemmas next to them state what they
promise: a cached path is answered from the cache, an alias is loaded in
its place, a producer's walked record is the one cached and returned, a
second load changes nothing, and the first failing rule or specifier
decides the error. The four functions only add to the tables
(`Session.Grows`): the cache gains paths, placeholders and producer calls
are only appended, and every appended placeholder is namespaced.

The walk is also proved to leave no directive rule in its output (`Clean`),
and to keep every other rule in place with the same shape: the same kind,
selectors, properties and positions (`Contributes`, `Skeleton`). A group's
walked contents and the rewritten values are fixed by `Session.ParseResult`.

Nested loads are bounded by a stack budget, `depth`. The source has no
check for circular requires: a module that requires itself, directly or
through others, before it is cached recurses until JavaScript's stack
overflows. The model gives every call a budget of nested loads and fails
with "Maximum call stack size exceeded" when a load finds the budget spent.
`Session.SelfRequireOverflows` proves that a module fails this way under
every budget when its first rule is a `:require` block of one declaration
naming the module's own path, a path that does not start with `.`. Longer
cycles through other modules, and self-requires later in a module, are not
covered by a lemma. Re-entering a module-table entry is not in
itself an error: `Reentry.SharedPackageCompiles` proves that a session which
walks `p/deps/x` a second time, under its full path, while its first walk
under the name `x` is still running, compiles once the budget allows six
nested loads. The budget only cuts runs off: `Session.LoadMono` and its
companions prove that a call which does not run out of stack under one
budget gives the same result and the same tables under every larger one.

Because the cache is keyed by the requested path, two packages that each
vendor a module under the same name collide. Once `p` has loaded `x` as
`p/deps/x` under the path `x`, a later require of `x` from package `q`
finds `x` in the cache and gets `p`'s record without looking under
`q/deps/` (lib/modules.js:70-75). The model does the same: `Session.LoadCached`
answers any cached path with its record, whatever the parent.

## Model

| member | source | states |
|---|---|---|
| Modules.Parser.constructor | lib/modules.js:54-60 | A new parser has the given module table, empty require, export, locals and cache tables, and no placeholders. |
| Session.Find | lib/modules.js:70-75 | The lookup tries `modules[path]` first. Only when that entry is missing or falsy, and a parent is given, does it try `modules[parent + '/deps/' + path]`. It finds nothing exactly when both fail, and a found entry is truthy. |
| Modules.Parser.Load | lib/modules.js:69-91 | The result is exactly `Session.LoadResult` from the fields before the call, and on success the fields afterwards are its new tables. A cached path returns the identical record and changes nothing: no producer runs and no table changes. A path found nowhere fails with "could not find module" at the given position and changes nothing. The cache only grows. Placeholders and producer calls are only appended. A successful load has no directive rule left in it, and its record is in the cache. |
| Modules.Parser.LoadSource | lib/modules.js:80-90 | The producer branch of `load`. It logs the producer's key as invoked and walks the tree under the source name. It fails iff that `Session.ParseResult` fails, with its error. On success it returns the record of the source name and the walked rules, and the fields become the walk's new tables with that record cached under `path`. The cache only grows, placeholders and producer calls are only appended, and the returned record is walked and cached. |
| Session.LoadResult | lib/modules.js:69-91 | No contract of its own: it defines `load` from given tables and a stack budget. A cached path gives the cached record. A path found nowhere gives "could not find module" at the position. A spent budget gives the stack error. An alias entry loads its target without position or parent. A producer entry is walked under its source name with its key logged, and the walked record is cached under `path`. `LoadCached`, `LoadAlias`, `LoadProducer`, `LoadTwice` and `LoadGrows` state its properties. |
| Session.LoadCached | lib/modules.js:70 | A cached path is answered with the cached record and the tables are left as they were, whatever the position, parent or budget. |
| Session.LoadAlias | lib/modules.js:71-78 | A string entry is loaded in its place with no position and no parent. When the target is neither cached nor in the table, the error names the target and has no position. |
| Session.LoadProducer | lib/modules.js:80-90 | A producer entry is walked under `fn.source`, or the path when that is empty, with its key logged as invoked. The load succeeds iff the walk does, and then returns the record of the source name and the walked rules. That same record is cached under `path`, on top of the tables the walk left. A failed walk's error is the load's error. |
| Session.LoadTwice | lib/modules.js:69-90 | After a producer path loads, loading it again from any position, parent or budget returns the same record and changes nothing, so each producer runs at most once per path. |
| Session.LoadGrows | lib/modules.js:69-91 | Whatever it returns, a load leaves tables that grow those it started from (`Session.Grows`). The cache keeps every path and may gain more. Placeholders and producer calls are only appended, and every appended placeholder is namespaced. |
| Session.LoadMono | lib/modules.js:69-91 | A load that does not fail with the stack error under one budget gives the same result and the same tables under every larger budget. |
| Session.Truthy | lib/modules.js:71-76 | No contract of its own: the `!fn` test. Only an empty alias string is falsy, and a producer always counts as found. |
| Session.SelfRequireStep | lib/modules.js:126-134 | When a module's first rule is a one-declaration `:require` of the module's own path, a path not starting with `.`, the nested load of that specifier decides the outer load: its error becomes the module's error. |
| Session.RequireFirstStep | lib/modules.js:80-134 | For any rule that dispatch sends to `:require`, whose one declaration names the module's own path, a path that does not start with `.`: when that rule comes first in the module, the nested load's error is the outer load's error. |
| Session.RequireRuleFails | lib/modules.js:126-134 | A `:require` rule whose one specifier does not start with `.` fails with the error of loading that specifier, from a require table reset to empty. |
| Reentry.SharedPackageCompiles | lib/modules.js:69-91 | A package whose entry module requires `x`, found as `p/deps/x`, where `x` requires `./y`, the top-level `y`, and `y` requires `p/deps/x` by its full path, compiles under any budget of six or more nested loads. The second walk of `p/deps/x` runs under the source name `p/deps/x`, where `./y` names the existing `p/deps/y`. |
| Reentry.ResolveInDeps | lib/modules.js:144-148 | From `p/deps/x`, `./y` resolves to `p/deps/y`. |
| Session.SelfRequireOverflows | lib/modules.js:69-91 | A module whose first rule is a one-declaration `:require` of the module's own path, a path not starting with `.`, fails with "Maximum call stack size exceeded" under every stack budget, because it is never cached before it is loaded again. |
| Modules.Parser.Parse | lib/modules.js:100-117 | The result is exactly `Session.ParseResult` from the fields before the call, and on success the fields afterwards are its new tables. The output is the concatenation, in input order, of what each rule contributes. Directive rules contribute nothing. A `:content` rule contributes a splice. Every other rule contributes itself at its place, with the same shape. The output is clean. |
| Session.ParseResult | lib/modules.js:100-117 | No contract of its own: it defines `parse`. Each rule is walked from the tables the previous one left, and the outputs are concatenated in order. The first failing rule ends the walk. `ParseStep`, `ParseFirstFails` and `ParseGrows` state its properties. |
| Session.ParseGrows | lib/modules.js:100-117 | A walk leaves tables that grow those it started from, whether it succeeds or fails. |
| Session.ParseMono | lib/modules.js:100-117 | A walk that does not fail with the stack error under one budget gives the same result and tables under every larger budget. |
| Session.ParseStep | lib/modules.js:103-116 | One step of the rule loop: the first rule's output is appended to what is already produced and the walk goes on from the tables it left, or its error ends the walk with those tables. |
| Session.ParseFirstFails | lib/modules.js:103-115 | A rule whose handler fails ends the walk with that rule's error. |
| Modules.Parser.ParseRule | lib/modules.js:101-114 | The result is exactly `Session.RuleResult` from the fields before the call, and on success the fields afterwards are its new tables. One rule goes to one handler. A group is walked recursively and then re-emitted by the variables fallback. `:require`, `:exports`, `:locals` and `%` rules put nothing in the output. |
| Session.RuleResult | lib/modules.js:101-114 | No contract of its own: it defines one rule's handler, in the source's order. A group is walked and re-emitted. `:require` runs on a require table reset to empty. `:exports` and `:locals` replace the module's table. `%` appends a placeholder. Every other rule goes to `Session.Output`. `RequireRule`, `RuleGrows` and `HandlerGrows` state its properties. |
| Session.RuleGrows | lib/modules.js:101-114 | Every handler leaves tables that grow those it started from. |
| Session.RuleMono | lib/modules.js:101-114 | The same for one rule's handler. |
| Session.HandlerMono | lib/modules.js:181-233 | The handlers that load nothing give the same result and tables under every budget. |
| Session.HandlerGrows | lib/modules.js:181-233 | `:exports`, `:locals` and the output handlers leave the cache, the placeholders and the producer log as they were. `%` leaves the cache and the log as they were and appends exactly its own rule, namespaced by `Session.Placeholder`. |
| Modules.Parser.ParseOutput | lib/modules.js:101-114 | The result is exactly `Session.Output` under the module's current scope. Keyframes, `:content` and ordinary rules produce output whose shape matches their input, and that output is clean. |
| Session.Output | lib/modules.js:101-114 | For keyframes, `:content` and ordinary rules, a successful output has the shape `Session.Contributes` describes. `:content` gives a splice of the block, and the others give one rule with the input's kind, selectors, frame values, properties and positions. |
| Css.Classify | lib/modules.js:101-114 | A rule goes to keyframes iff it is a keyframes rule, and to a group iff it is a media, supports, host or document rule. It goes to `:require`, `:content`, `:exports`, `:locals` or `%` iff `select` matches that prefix. Everything else goes to the variables fallback. |
| Css.SelectExclusive | lib/modules.js:106-113 | The five directive prefixes exclude one another, so the priority order never has to choose between two of them. |
| Css.Select | lib/modules.js:361-363 | Only a rule with selectors can match. For a non-empty prefix, a rule matches iff its first selector starts with the prefix. The test that the first selector is non-empty matters only for the empty prefix. |
| Modules.Parser.ParseRequire | lib/modules.js:126-135 | The result is exactly `Session.RequireResult` from the fields before the call with the module's require table reset to empty, and on success the fields afterwards are its new tables. |
| Session.RequireResult | lib/modules.js:128-134 | No contract of its own: it defines the `:require` loop. Each specifier is resolved against `source` and loaded with `parent` and the declaration's position. The loaded record is bound under `'$' + property` and the table is stored for `source` after each binding. The first failing load ends the block. `RequireFirstFails`, `RequireKeys` and `RequireGrows` state its properties. |
| Session.RequireGrows | lib/modules.js:128-134 | The rest of a `:require` block leaves tables that grow those it started from, whether it succeeds or fails. |
| Session.RequireMono | lib/modules.js:128-134 | The same for the rest of a `:require` block. |
| Modules.Parser.RequireOne | lib/modules.js:130-134 | One binding loads `resolve(source, value)` with the given `parent` and the declaration's position (`ParseRequire` passes the first segment of `source`). It succeeds iff that `Session.LoadResult` does, with the same error otherwise. On success it binds exactly the loaded record under `'$' + property` in the module's require table, on top of the tables the load left. |
| Session.RequireRule | lib/modules.js:109 | A `:require` rule fails iff its block fails, with the same error, and otherwise puts nothing in the output and leaves the block's tables. |
| Session.RequireFirstFails | lib/modules.js:130-134 | A specifier that fails to load ends the block with its error. A first specifier that is neither cached nor in the module table fails with "could not find module" at its declaration. |
| Session.RequireKeys | lib/modules.js:128-134 | After a successful block the module's require table binds exactly `'$' + property` of each declaration, on top of the bindings it started with. |
| Session.AliasesMembers | lib/modules.js:130-134 | A name is a bound alias iff it is `'$' + property` of some declaration in the block. |
| Session.Aliases | lib/modules.js:130-134 | No contract of its own: the set of `'$' + property` over a block's declarations, the keys one `:require` block binds. `Session.AliasesMembers` states its membership. |
| Modules.Parser.ParseContent | lib/modules.js:158-172 | The result equals `Tables.Splice` over the module's current require table. |
| Tables.Splice | lib/modules.js:158-172 | A successful block gives at least two rules, the begin and end comments, per declaration. A failing block fails with "could not resolve content" at a declaration whose alias is not required. |
| Tables.SpliceLast | lib/modules.js:161-171 | A block with one more declaration splices to the block's splice followed by that declaration's. The first failure wins. |
| Tables.SpliceOne | lib/modules.js:161-171 | One `:content` declaration succeeds iff its value is a required alias. Its splice has two more entries than the required module has rules, with the required module's rules unwalked in the middle. It opens with the begin comment and closes with the end comment, both naming the required module's source name and `source`. An unknown alias fails with "could not resolve content" at that declaration. |
| Tables.BeginMarker | lib/modules.js:166 | The begin comment reads "begin content from", the required module's source name, "in" and the including module's name. Dispatch sends it to the variables fallback, which keeps it. |
| Tables.EndMarker | lib/modules.js:170 | The end comment reads "end content from", the required module's source name, "in" and the including module's name. It goes to the variables fallback, and it never equals a begin comment. |
| Tables.SpliceConcat | lib/modules.js:158-172 | Splicing a block is splicing its first part and then its second. It fails iff either part fails. |
| Tables.SpliceOk | lib/modules.js:161-164 | A block splices iff every declaration names a required alias. |
| Tables.SpliceClean | lib/modules.js:158-172 | Splicing walked modules gives walked rules. |
| Tables.SpliceFirstError | lib/modules.js:161-164 | The first unknown alias decides the error of the whole block. |
| Modules.Parser.ParseExports | lib/modules.js:181-201 | The export table for `source` is replaced by `Tables.ExportsTable` of the block under the module's current locals. Other modules' tables are unchanged. It fails iff that table fails, with the same error. |
| Tables.ExportsTable | lib/modules.js:181-201 | A failing block fails with "cannot export undefined variable" at a declaration whose value starts with `$`, naming that value. |
| Tables.ExportValue | lib/modules.js:187-199 | One `:exports` declaration fails iff its value starts with `$` and has no non-empty local, and then with "cannot export undefined variable" naming that value at its position. A `$` value that succeeds yields its local's non-empty value. |
| Tables.ExportsTableOk | lib/modules.js:184-200 | The block succeeds iff every declaration can be exported. Only a `$x` value whose local is missing or empty cannot. |
| Tables.ExportsTableKeys | lib/modules.js:182-186 | The keys of the new table are exactly `'$' + property` of the declarations. |
| Tables.ExportsTableEntry | lib/modules.js:184-200 | The last declaration of a property decides its entry. The entry is that declaration's exported value: `%`, the source name, a bar and the rest for a `%` value, the local's value for `$x`, and the value itself otherwise. |
| Tables.ExportsTableFirstError | lib/modules.js:194-195 | The first undefined exported variable decides the error of the whole block. |
| Tables.ExportOfLocal | lib/modules.js:191-196 | Exporting `$x` stores the value `x` has in the locals table. |
| Modules.Parser.ParseLocals | lib/modules.js:210-217 | The locals table for `source` is replaced by `Tables.LocalsTable` of the block. Each value is substituted against the entries made so far. |
| Tables.LocalsTable | lib/modules.js:210-217 | A successful block binds `'$' + property` for every declaration. A failure carries the position of one of the block's declarations. |
| Tables.LocalsTableFresh | lib/modules.js:212 | The result does not depend on any earlier `:locals` block of the module, because the table is reset first. |
| Tables.LocalsUseEarlier | lib/modules.js:214-216 | A local can use a local declared before it in the same block. |
| Tables.LocalsNotLater | lib/modules.js:214-216 | A local cannot use one declared after it. The block fails with "could not resolve variable" at the using declaration. |
| Tables.LocalsTableFirstError | lib/modules.js:214-216 | The first failing substitution decides the error of the whole block. |
| Modules.Parser.ParsePlaceholders | lib/modules.js:227-233 | Every selector of the `%` rule becomes `%`, the source name, a bar and `selector.substr(1)`. The rule is appended to the session-wide list and not to the output. Every collected placeholder stays namespaced. |
| Session.Placeholder | lib/modules.js:227-233 | The collected rule is the `%` rule with every selector namespaced, so it is a hoistable placeholder. |
| Session.NamespaceAll | lib/modules.js:229-231 | Each selector is namespaced, at its own index. |
| Tables.Namespace | lib/modules.js:229-231 | A namespaced name starts with `%` and contains a bar. |
| Tables.NamespaceInjective | lib/modules.js:229-231 | For module names without a bar, two namespaced names are equal iff the module names are equal and the names agree after their first character. Placeholders of different modules never clash. |
| Modules.Parser.InsertPlaceholders | lib/modules.js:241-245 | The collected placeholders, in encounter order, come first, followed by the root rules unchanged. With no placeholders, the record is returned as it was. |
| Modules.Parser.ParseVariables | lib/modules.js:255-268 | A rule or frame gets its declarations rewritten by `Tables.RewriteRule`. A rule without declarations is kept as it is. |
| Modules.Parser.ParseDeclarations | lib/modules.js:261-266 | The declaration loop equals `Tables.RewriteDecls` and stops at the first failure. |
| Tables.RewriteDecls | lib/modules.js:261-266 | A successful rewrite keeps the number of declarations. A failure carries the position of one of them. |
| Tables.RewriteDecl | lib/modules.js:262-265 | Only the value changes. A `%` value is namespaced and never scanned. A value with no `$` and no `%` is kept. A failure carries the declaration's position. |
| Tables.RewriteDeclsShape | lib/modules.js:261-266 | Rewriting keeps the number, order, properties and positions of the declarations. |
| Tables.RewriteRuleShape | lib/modules.js:255-268 | Rewriting a rule keeps its shape. |
| Tables.RewriteRule | lib/modules.js:255-268 | A rule without declarations (keyframes, group, comment, other at-rule) is kept as it is and never fails. A failure carries the position of one of the rule's declarations. |
| Tables.RewriteRules | lib/modules.js:290-298 | A successful rewrite keeps the number of frames. A failure is the failure of one of the frames. |
| Tables.RewriteRulesShape | lib/modules.js:290-298 | Rewriting frames keeps their number, their order and the shape of each. |
| Tables.RewriteDeclsFirstError | lib/modules.js:261-266 | The first failing declaration decides the error of the rule. |
| Tables.RewriteRulesFirstError | lib/modules.js:293-295 | The first failing frame decides the error of the keyframes rule. |
| Modules.Parser.ParseKeyframes | lib/modules.js:290-298 | Every frame goes through the variables fallback, in order. The keyframes rule is kept with the rewritten frames, and it fails iff a frame fails. |
| Variables.Scan | lib/modules.js:281 | Tokenisation of the `/\$([-.\w/]+)/g` replace: text without `$` passes through as itself. Every variable token is a maximal run of name characters after `$`. |
| Variables.ScanRoundTrip | lib/modules.js:281-283 | Putting the tokens back together gives the input, so text between tokens is left unchanged. |
| Variables.NameRun | lib/modules.js:281 | The token after `$` is the longest prefix of name characters (`-`, `.`, `/` and word characters). |
| Variables.NameRunOfName | lib/modules.js:281 | A string made only of name characters is read as a single token. |
| Variables.SubstituteLiteral | lib/modules.js:279-284 | A value without `$` is returned unchanged. |
| Variables.SubstituteToken | lib/modules.js:279-284 | A value that is exactly one `$name` token is replaced by the lookup of that token. |
| Variables.SubstituteOk | lib/modules.js:279-284 | Substitution succeeds iff every token in the value resolves. |
| Variables.SubstitutePieces | lib/modules.js:281-283 | The replace callback over the scanned pieces: each `$name` token becomes `resolveValue('$' + name)` and text passes through. Any failure carries the declaration's position. |
| Variables.SubstitutePiecesOk | lib/modules.js:281-283 | Over a token list, substitution succeeds iff every variable token resolves. |
| Variables.SubstituteValues | lib/modules.js:279-284 | A substitution error carries the position of the declaration being rewritten. |
| Variables.ResolveValue | lib/modules.js:308-312 | A key containing `/` is looked up as an export and any other key as a local. A found value is never empty. |
| Variables.ResolveLocal | lib/modules.js:322-327 | The lookup succeeds iff the key is a non-empty local of the module, and then returns it. Otherwise it fails with "could not resolve variable" at the given position. |
| Variables.ResolveExported | lib/modules.js:337-351 | The lookup fails with "has not been required" iff the part before the first `/` is not a required alias. Otherwise it reads `'$'` plus the second part, or `$undefined` when there is none, in the export table of the required module's source name (empty when that module exported nothing). It succeeds iff that entry exists and is non-empty, and then returns it. Any other failure is "has not been exported", naming the whole key. |
| Variables.ExportsOf | lib/modules.js:346 | No contract of its own: the export table of the required module's source name or `{}`, that is the export table of the module bound under the alias, empty when that module exported nothing. |
| Variables.Imported | lib/modules.js:345 | No contract of its own: `'$' + parts[1]`, with `$undefined` when the key has no second part, as JavaScript renders a missing element. |
| Session.ScopeIn | lib/modules.js:323-346 | No contract of its own: the tables a walk of `source` reads. These are the module's require table and locals table, each `{}` when the module has none, and every module's exports. |
| Modules.Parser.ScopeOf | lib/modules.js:323-346 | No contract of its own: `Session.ScopeIn` over the parser's current require, locals and export fields. |
| Tables.ExportedLookup | lib/modules.js:337-351 | `$alias/name` returns what the required module exports under `$name` when that value is non-empty. |
| Tables.ExportedNested | lib/modules.js:337-351 | Only the first two parts of a key count: `$a/b/c` succeeds iff the module required as `$a` exports a non-empty `$b`, and returns it. Its failure names the whole key `$a/b/c`. |
| Tables.AliasKey | lib/modules.js:338-345 | `$dep/color` splits into the alias `$dep` and the name `color`. |
| Tables.ResolveAlias | lib/modules.js:308-351 | Resolving `$dep/color` gives the value the required module exports under `$color`. |
| Tables.NamePath | lib/modules.js:281 | `dep/color` is a single variable token. |
| Tables.ResolveThroughExport | lib/modules.js:279-351 | Substituting `$dep/color` gives the value the required module exports under `$color`. |
| Tables.ExportRoundTrip | lib/modules.js:181-217 | A module sets `:locals { x: v }` and `:exports { color: $x }`. A module that requires it as `dep` then reads `v` back from `$dep/color`. |
| Paths.Resolve | lib/modules.js:144-148 | A target that does not start with `.` is returned unchanged. Any other target resolves to a canonical path, with no empty, `.` or `..` segment. |
| Paths.ResolveCanonical | lib/modules.js:144-148 | From a top-level module, `./p` resolves to `p` for any canonical path `p`. |
| Paths.ResolveSibling | lib/modules.js:144-148 | From `pkg/file`, `./name` resolves to `pkg/name`. |
| Paths.ResolveParent | lib/modules.js:144-148 | From `pkg/file`, `../name` resolves to `name`. |
| Paths.ResolveAboveRoot | lib/modules.js:144-148 | From a top-level `pkg`, `../name` resolves to `name`, because `..` never climbs above the root. |
| Paths.DirOfFile | lib/modules.js:146 | The directory of `pkg/file` is `pkg`. |
| Paths.DirOfPackage | lib/modules.js:146 | The directory of a top-level name is the root. |
| Paths.Normalize | lib/modules.js:147 | Normalising plain segments onto a canonical stack gives a canonical path. |
| Paths.NormalizeCanonical | lib/modules.js:147 | Normalising canonical segments onto a canonical stack appends them unchanged. |
| Paths.Dir | lib/modules.js:146 | `dirname('/' + source)` as segments. No directory segment contains `/`, so the segments can be normalised. |
| Paths.CanonicalJoin | lib/modules.js:147 | Joining canonical segments gives a canonical path whose segments are exactly those. |
| Strings.Split | lib/modules.js:133 | `split` gives at least one piece, and no piece contains the separator. |
| Strings.SplitJoin | lib/modules.js:338 | Splitting a join of separator-free pieces gives the pieces back. |
| Strings.SplitAfter | lib/modules.js:338 | Splitting at the first separator separates off the text before it. |
| Strings.StartsWith | lib/modules.js:362 | No contract of its own: `s.indexOf(prefix) === 0`, which holds iff `prefix` is a prefix of `s`. |
| Errors.Message | lib/modules.js:388-393 | The message starts with the description. It is exactly the description iff no position is known. Otherwise ` at source:line:column` follows. |
| Errors.Describe | lib/modules.js:343-348 | The stack error is the only kind whose message is "Maximum call stack size exceeded". The "has not been required" and "has not been exported" messages start with the quoted alias or key. |
| Modules.Compile | lib/modules.js:26-31 | The result is exactly `Session.CompileResult`: the entry module, `index` when none is given, loaded by a fresh parser, with the placeholders of the whole session in front of its walked rules. A missing entry module fails with "could not find module" and no position. On success the hoisted placeholders come first, all namespaced, followed by a walked tree with no directive left. |
| Session.CompileResult | lib/modules.js:26-31 | A missing entry module fails with "could not find module" and no position. Otherwise the result succeeds iff the entry load does. It keeps the entry's source name and ends with the entry's walked rules, and every rule in front of them is a namespaced placeholder. |
| Session.EntryName | lib/modules.js:28 | `index` or else `'index'`: the entry name is never empty, and a given non-empty index is used as it is. |

## Left out

- Raw text is not modelled. The modules' producers (`fn()`), `lib/whitespace.js` and the rework parser and printer are outside the model. Each module-table entry carries the rule tree the parser would build, and the printed CSS is not modelled. `Parser.invoked` records which producers ran.
- Object identity is not modelled. Module records, rules and tables are values, so two walks that share one JavaScript object by reference hold equal copies here. In place, `parseVariables` and `parsePlaceholders` overwrite `dec.value` and `rule.selectors`. The model returns the rewritten rule instead.
- Node's `path.resolve` and `dirname` are not called. They are re-specified as a POSIX segment normaliser (`Paths.Normalize`, `Paths.Dir`).
- The size of JavaScript's call stack is not modelled. The stack budget `depth` counts nested loads, while the real limit counts frames of every function. A session that needs more nested loads than its budget fails with "Maximum call stack size exceeded" in the model, which is where the source overflows only if the budget matches its stack. The budget is also the recursion's termination measure. `Session.LoadMono` proves that a larger budget never changes a run that fits in a smaller one.
- Error-path state is not stated. When a method fails with a `ParseError`, its contract says nothing about the tables it leaves, because no caller in the source catches the error and the session is discarded.
- Session.RequireResult: the source fills the object it stored as `this.requires[source]` through a local reference. If a nested load walks another path with the same `fn.source` and resets that table, the source keeps writing into the detached object, while the model writes the outer block's bindings back into the table.
- Comments inside declaration lists are not modelled. Declarations are always `property: value` pairs. In the source, a comment there would make `dec.value.indexOf` throw.
- The begin and end content comments do not carry the `position: {source}` object that `comment` attaches.
- Keys inherited through the JavaScript prototype chain, such as `constructor` in `this.cache`, are not modelled. Every table is a finite map.
- Source-name collisions are not modelled. Two module paths with the same `fn.source` share one require, export and locals table in the source. The model keys its tables the same way, but no lemma is stated about such sharing.
- `ParseError.prototype = Error.prototype` and the error's `name` field are JavaScript plumbing. Only the kind, the position and the message text are modelled.
- The test harness `test/rework-modules.test.js` reads fixture files and compares printed output. It is not part of this model.
- Session.Contributes: states only the shape of what a rule puts into the output. For a `:content` rule it states that the piece is the splice of the block under some require table. The exact output, under the module's table at that moment, is stated by the equality of `Modules.Parser.Parse` with `Session.ParseResult`.
