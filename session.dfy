/** A parsing session of lib/modules.js as functions of its tables: what
    `load`, `parse`, each handler and the exported entry point compute,
    given the module table, the state of the tables before the call and the
    stack budget left. The `Parser` class runs the source's loops and field
    updates and is proved to compute these. */
module Session {
  import opened Wrappers
  import opened Strings
  import opened Paths
  import opened Css
  import opened Errors
  import opened Variables
  import opened Tables

  /** An entry of the caller's module table: either another name to load
      instead (a string entry), or a producer of source text, here the tree
      the external parser makes of that text, with an optional source name
      (`fn.source`; empty when absent). */
  datatype Entry = Alias(target: string) | Source(name: string, tree: seq<Rule>)

  /** Only the empty string is a falsy entry; a producer always counts. */
  predicate Truthy(e: Entry) {
    e != Alias("")
  }

  /** The lookup at the start of `load`: `modules[path]`, or when that is
      missing and a parent package is known, `modules[parent + '/deps/' + path]`.
      The answer names the key whose entry was found. */
  function Find(modules: map<string, Entry>, path: string, parent: string): (found: Option<(string, Entry)>)
    ensures found.Some? ==> found.value.0 in modules && modules[found.value.0] == found.value.1 && Truthy(found.value.1)
    ensures path in modules && Truthy(modules[path]) ==> found == Some((path, modules[path]))
    ensures found.Some? && found.value.0 != path ==> parent != "" && found.value.0 == parent + "/deps/" + path
    ensures found.None? <==>
            !(path in modules && Truthy(modules[path])) &&
            !(parent != "" && parent + "/deps/" + path in modules && Truthy(modules[parent + "/deps/" + path]))
  {
    if path in modules && Truthy(modules[path]) then Some((path, modules[path]))
    else
      var key := parent + "/deps/" + path;
      if parent != "" && key in modules && Truthy(modules[key]) then Some((key, modules[key]))
      else None
  }

  /** `index || 'index'`. */
  function EntryName(index: string): (name: string)
    ensures name != "" && (index != "" ==> name == index)
  {
    if index == "" then "index" else index
  }

  /** A hoisted placeholder: a rule whose every selector is namespaced. */
  predicate IsPlaceholderRule(r: Rule) {
    r.Style? && forall i :: 0 <= i < |r.selectors| ==> IsNamespaced(r.selectors[i])
  }

  function NamespaceAll(source: string, selectors: seq<string>): (r: seq<string>)
    ensures |r| == |selectors|
    ensures forall i :: 0 <= i < |r| ==> r[i] == Namespace(source, selectors[i])
  {
    seq(|selectors|, i requires 0 <= i < |selectors| => Namespace(source, selectors[i]))
  }

  /** The rule `parsePlaceholders` collects: the `%` rule with its selectors
      namespaced. */
  function Placeholder(rule: Rule, source: string): (r: Rule)
    requires rule.Style?
    ensures IsPlaceholderRule(r)
  {
    Style(NamespaceAll(source, rule.selectors), rule.declarations)
  }

  function Flatten(pieces: seq<seq<Rule>>): seq<Rule> {
    if pieces == [] then [] else Flatten(pieces[..|pieces| - 1]) + pieces[|pieces| - 1]
  }

  /** The shape of what one input rule puts into the walked output: nothing
      for a `:require`, `:exports`, `:locals` or `%` rule; a splice for
      `:content`; otherwise one rule of the same kind, with the same
      selectors, frame values, properties and positions. */
  ghost predicate Contributes(rule: Rule, piece: seq<Rule>, source: string) {
    match Classify(rule)
    case OnRequire => piece == []
    case OnExports => piece == []
    case OnLocals => piece == []
    case OnPlaceholder => piece == []
    case OnContent => exists deps :: Splice(rule.declarations, deps, source) == Ok(piece)
    case _ => |piece| == 1 && Skeleton(piece[0]) == Skeleton(rule)
  }

  /** The aliases a `:require` block binds: `$` and each declaration's
      property. */
  function Aliases(decls: seq<Decl>): set<string>
    decreases |decls|
  {
    if decls == [] then {} else {"$" + decls[0].property} + Aliases(decls[1..])
  }

  lemma {:induction false} AliasesMembers(decls: seq<Decl>, alias: string)
    ensures alias in Aliases(decls) <==> exists i :: 0 <= i < |decls| && alias == "$" + decls[i].property
    decreases |decls|
  {
    if decls != [] {
      var tail := decls[1..];
      AliasesMembers(tail, alias);
      if alias in Aliases(tail) {
        var i :| 0 <= i < |tail| && alias == "$" + tail[i].property;
        assert decls[i + 1] == tail[i];
      }
      if exists i :: 0 <= i < |decls| && alias == "$" + decls[i].property {
        var i :| 0 <= i < |decls| && alias == "$" + decls[i].property;
        if i > 0 {
          assert tail[i - 1] == decls[i];
        }
      }
    }
  }

  /** Every module in the table is walked. */
  ghost predicate CleanTable(table: map<string, Sheet>) {
    forall k :: k in table ==> Clean(table[k].rules)
  }

  /** The tables a walk of module `source` reads: `this.requires[source] || {}`,
      `this.locals[source] || {}` and every module's exports. */
  function ScopeIn(required: map<string, map<string, Sheet>>, locals: map<string, map<string, string>>,
                   exports: map<string, map<string, string>>, source: string): Scope
  {
    Scope(if source in required then required[source] else map[],
          if source in locals then locals[source] else map[],
          exports)
  }

  /** The parser's fields at one moment, with the log of the module-table
      keys whose producer ran. */
  datatype State = State(required: map<string, map<string, Sheet>>,
                         exports: map<string, map<string, string>>,
                         locals: map<string, map<string, string>>,
                         cache: map<string, Sheet>,
                         placeholders: seq<Rule>,
                         invoked: seq<string>)
  {
    function ScopeFor(source: string): Scope {
      ScopeIn(required, locals, exports, source)
    }
  }

  /** `new Parser(modules)`: every table empty. */
  const Initial := State(map[], map[], map[], map[], [], [])

  /** What a call leaves behind only adds to the tables before it: the
      cache gains paths and loses none, the placeholder list and the log of
      producer calls are only appended to, and every placeholder appended is
      namespaced. */
  ghost predicate Grows(st: State, st': State) {
    && st.cache.Keys <= st'.cache.Keys
    && |st.invoked| <= |st'.invoked| && st'.invoked[..|st.invoked|] == st.invoked
    && |st.placeholders| <= |st'.placeholders| && st'.placeholders[..|st.placeholders|] == st.placeholders
    && forall i :: |st.placeholders| <= i < |st'.placeholders| ==> IsPlaceholderRule(st'.placeholders[i])
  }

  lemma GrowsTrans(s1: State, s2: State, s3: State)
    requires Grows(s1, s2) && Grows(s2, s3)
    ensures Grows(s1, s3)
  {
    assert s3.placeholders[..|s1.placeholders|] == s2.placeholders[..|s1.placeholders|];
    assert s3.invoked[..|s1.invoked|] == s2.invoked[..|s1.invoked|];
  }

  /* ---------------- The tables only grow ---------------- */

  /** `load`, `parse`, one rule and the rest of a `:require` block each
      leave tables that grow those they started from; a failing call
      included. */
  lemma {:induction false} LoadGrows(modules: map<string, Entry>, st: State, path: string, position: Option<Position>,
                                     parent: string, depth: nat)
    ensures Grows(st, LoadResult(modules, st, path, position, parent, depth).1)
    decreases depth, 0, 0, 0
  {
    if path !in st.cache && Find(modules, path, parent).Some? && depth > 0 {
      var (key, entry) := Find(modules, path, parent).value;
      match entry
      case Alias(target) =>
        LoadGrows(modules, st, target, None, "", depth - 1);
      case Source(name, tree) =>
        var source := if name == "" then path else name;
        var st0 := st.(invoked := st.invoked + [key]);
        ParseGrows(modules, st0, tree, source, depth - 1);
        var (walked, st') := ParseResult(modules, st0, tree, source, depth - 1);
        GrowsTrans(st, st0, st');
        if walked.Ok? {
          GrowsTrans(st, st', st'.(cache := st'.cache[path := Sheet(source, walked.value)]));
        }
    }
  }

  lemma {:induction false} ParseGrows(modules: map<string, Entry>, st: State, rules: seq<Rule>, source: string, depth: nat)
    ensures Grows(st, ParseResult(modules, st, rules, source, depth).1)
    decreases depth, Size(rules), 2, 0
  {
    if rules != [] {
      assert [rules[0]][1..] == [];
      assert Size([rules[0]]) + Size(rules[1..]) == Size(rules);
      RuleGrows(modules, st, rules[0], source, depth);
      var (piece, st1) := RuleResult(modules, st, rules[0], source, depth);
      if piece.Ok? {
        ParseGrows(modules, st1, rules[1..], source, depth);
        GrowsTrans(st, st1, ParseResult(modules, st1, rules[1..], source, depth).1);
      }
    }
  }

  lemma {:induction false} RuleGrows(modules: map<string, Entry>, st: State, rule: Rule, source: string, depth: nat)
    ensures Grows(st, RuleResult(modules, st, rule, source, depth).1)
    decreases depth, Size([rule]), 1, 0
  {
    assert [rule][1..] == [];
    match Classify(rule)
    case OnGroup =>
      ParseGrows(modules, st, rule.rules, source, depth);
    case OnRequire =>
      RequireGrows(modules, st.(required := st.required[source := map[]]), rule.declarations,
                   source, Split(source, '/')[0], depth, map[]);
    case _ =>
      HandlerGrows(modules, st, rule, source, depth);
  }

  /** The handlers that load nothing: `:exports` and `:locals` replace one
      module's table, `%` appends one namespaced placeholder, and the rest
      leave the tables as they were. */
  lemma HandlerGrows(modules: map<string, Entry>, st: State, rule: Rule, source: string, depth: nat)
    requires Classify(rule) != OnGroup && Classify(rule) != OnRequire
    ensures Grows(st, RuleResult(modules, st, rule, source, depth).1)
    ensures var st' := RuleResult(modules, st, rule, source, depth).1;
            st'.cache == st.cache && st'.invoked == st.invoked &&
            st'.placeholders == if Classify(rule) == OnPlaceholder then st.placeholders + [Placeholder(rule, source)]
                                else st.placeholders
  {
    if Classify(rule) == OnPlaceholder {
      assert IsPlaceholderRule(Placeholder(rule, source));
    }
  }

  lemma {:induction false} RequireGrows(modules: map<string, Entry>, st: State, decls: seq<Decl>, source: string,
                                        parent: string, depth: nat, deps: map<string, Sheet>)
    ensures Grows(st, RequireResult(modules, st, decls, source, parent, depth, deps).1)
    decreases depth, 0, 2, |decls|
  {
    if decls != [] {
      var d := decls[0];
      LoadGrows(modules, st, Resolve(source, d.value), d.position, parent, depth);
      var (dep, st1) := LoadResult(modules, st, Resolve(source, d.value), d.position, parent, depth);
      if dep.Ok? {
        var bound := deps["$" + d.property := dep.value];
        var st2 := st1.(required := st1.required[source := bound]);
        RequireGrows(modules, st2, decls[1..], source, parent, depth, bound);
        GrowsTrans(st, st2, RequireResult(modules, st2, decls[1..], source, parent, depth, bound).1);
      }
    }
  }

  /* ---------------- The budget only cuts runs off ---------------- */

  /** A call that ran out of stack. */
  predicate Overflowed<T>(o: Outcome<T>) {
    o.Err? && o.error.kind.StackOverflow?
  }

  /** A call that does not run out of stack under budget `depth` gives the
      same result and the same tables under any larger budget `more`: the
      budget never changes a run that fits in it. */
  lemma {:induction false} LoadMono(modules: map<string, Entry>, st: State, path: string, position: Option<Position>,
                                    parent: string, depth: nat, more: nat)
    requires depth <= more
    ensures var r := LoadResult(modules, st, path, position, parent, depth);
            !Overflowed(r.0) ==> LoadResult(modules, st, path, position, parent, more) == r
    decreases depth, 0, 0, 1
  {
    if path !in st.cache && Find(modules, path, parent).Some? && depth > 0 {
      var (key, entry) := Find(modules, path, parent).value;
      match entry
      case Alias(target) =>
        LoadMono(modules, st, target, None, "", depth - 1, more - 1);
      case Source(name, tree) =>
        LoadSourceMono(modules, st, path, key, name, tree, depth, more);
    }
  }

  /** The producer branch of `LoadMono`. */
  lemma LoadSourceMono(modules: map<string, Entry>, st: State, path: string, key: string, name: string,
                       tree: seq<Rule>, depth: nat, more: nat)
    requires 0 < depth <= more
    ensures var source := if name == "" then path else name;
            var walk := ParseResult(modules, st.(invoked := st.invoked + [key]), tree, source, depth - 1);
            !Overflowed(walk.0) ==> ParseResult(modules, st.(invoked := st.invoked + [key]), tree, source, more - 1) == walk
    decreases depth, 0, 0, 0
  {
    var source := if name == "" then path else name;
    ParseMono(modules, st.(invoked := st.invoked + [key]), tree, source, depth - 1, more - 1);
  }

  lemma {:induction false} ParseMono(modules: map<string, Entry>, st: State, rules: seq<Rule>, source: string,
                                     depth: nat, more: nat)
    requires depth <= more
    ensures var r := ParseResult(modules, st, rules, source, depth);
            !Overflowed(r.0) ==> ParseResult(modules, st, rules, source, more) == r
    decreases depth, Size(rules), 2, 0
  {
    if rules != [] {
      assert [rules[0]][1..] == [];
      assert Size([rules[0]]) + Size(rules[1..]) == Size(rules);
      RuleMono(modules, st, rules[0], source, depth, more);
      var (piece, st1) := RuleResult(modules, st, rules[0], source, depth);
      if piece.Ok? {
        ParseMono(modules, st1, rules[1..], source, depth, more);
      }
    }
  }

  lemma {:induction false} RuleMono(modules: map<string, Entry>, st: State, rule: Rule, source: string,
                                    depth: nat, more: nat)
    requires depth <= more
    ensures var r := RuleResult(modules, st, rule, source, depth);
            !Overflowed(r.0) ==> RuleResult(modules, st, rule, source, more) == r
    decreases depth, Size([rule]), 1, 0
  {
    assert [rule][1..] == [];
    match Classify(rule)
    case OnGroup =>
      ParseMono(modules, st, rule.rules, source, depth, more);
    case OnRequire =>
      RequireMono(modules, st.(required := st.required[source := map[]]), rule.declarations,
                  source, Split(source, '/')[0], depth, more, map[]);
    case _ =>
      HandlerMono(modules, st, rule, source, depth, more);
  }

  /** The handlers that load nothing do not look at the budget. */
  lemma HandlerMono(modules: map<string, Entry>, st: State, rule: Rule, source: string, depth: nat, more: nat)
    requires Classify(rule) != OnGroup && Classify(rule) != OnRequire
    ensures RuleResult(modules, st, rule, source, more) == RuleResult(modules, st, rule, source, depth)
  {
  }

  lemma {:induction false} RequireMono(modules: map<string, Entry>, st: State, decls: seq<Decl>, source: string,
                                       parent: string, depth: nat, more: nat, deps: map<string, Sheet>)
    requires depth <= more
    ensures var r := RequireResult(modules, st, decls, source, parent, depth, deps);
            !Overflowed(r.0) ==> RequireResult(modules, st, decls, source, parent, more, deps) == r
    decreases depth, 0, 2, |decls|
  {
    if decls != [] {
      var d := decls[0];
      LoadMono(modules, st, Resolve(source, d.value), d.position, parent, depth, more);
      var (dep, st1) := LoadResult(modules, st, Resolve(source, d.value), d.position, parent, depth);
      if dep.Ok? {
        var bound := deps["$" + d.property := dep.value];
        RequireMono(modules, st1.(required := st1.required[source := bound]), decls[1..], source, parent, depth, more, bound);
      }
    }
  }

  /** The handlers that only produce output: keyframes (every frame through
      the variables fallback), `:content` (the splice) and the variables
      fallback itself. */
  function Output(rule: Rule, sc: Scope, source: string): (r: Outcome<seq<Rule>>)
    ensures r.Ok? && Classify(rule) in {OnKeyframes, OnContent, OnVariables} ==> Contributes(rule, r.value, source)
  {
    if rule.Keyframes? then
      var frames :- RewriteRules(rule.frames, sc, source);
      RewriteRulesShape(rule.frames, sc, source);
      Ok([Keyframes(rule.name, frames)])
    else if Classify(rule) == OnContent then Splice(rule.declarations, sc.deps, source)
    else
      var r :- RewriteRule(rule, sc, source);
      RewriteRuleShape(rule, sc, source);
      Ok([r])
  }

  /** `load(path, position, parent)` from state `st` with `depth` nested
      calls left before the stack overflows: the cached record, or the
      not-found error, or the alias target loaded without position or
      parent, or the producer's tree walked under its source name and
      cached under `path`. */
  function LoadResult(modules: map<string, Entry>, st: State, path: string, position: Option<Position>,
                      parent: string, depth: nat): (Outcome<Sheet>, State)
    decreases depth, 0, 0, 0
  {
    if path in st.cache then (Ok(st.cache[path]), st)
    else match Find(modules, path, parent)
      case None => (Err(ParseError(ModuleNotFound(path), position)), st)
      case Some((key, entry)) =>
        if depth == 0 then (Err(ParseError(StackOverflow(path), None)), st)
        else match entry
          case Alias(target) => LoadResult(modules, st, target, None, "", depth - 1)
          case Source(name, tree) =>
            var source := if name == "" then path else name;
            var (walked, st') := ParseResult(modules, st.(invoked := st.invoked + [key]), tree, source, depth - 1);
            if walked.Err? then (Err(walked.error), st')
            else (Ok(Sheet(source, walked.value)), st'.(cache := st'.cache[path := Sheet(source, walked.value)]))
  }

  /** `parse(style, source)`: the rules one after the other, each from the
      state the previous one left, their outputs concatenated. */
  function ParseResult(modules: map<string, Entry>, st: State, rules: seq<Rule>, source: string,
                       depth: nat): (Outcome<seq<Rule>>, State)
    decreases depth, Size(rules), 2, 0
  {
    if rules == [] then (Ok([]), st)
    else
      assert [rules[0]][1..] == [];
      assert Size([rules[0]]) + Size(rules[1..]) == Size(rules);
      var (piece, st1) := RuleResult(modules, st, rules[0], source, depth);
      if piece.Err? then (Err(piece.error), st1)
      else
        var (rest, st2) := ParseResult(modules, st1, rules[1..], source, depth);
        if rest.Err? then (Err(rest.error), st2) else (Ok(piece.value + rest.value), st2)
  }

  /** One rule through the handler `Classify` picks. A conditional group is
      walked and then re-emitted by the variables fallback, which keeps it
      as it is since it has no declarations. */
  function RuleResult(modules: map<string, Entry>, st: State, rule: Rule, source: string,
                      depth: nat): (Outcome<seq<Rule>>, State)
    decreases depth, Size([rule]), 1, 0
  {
    assert [rule][1..] == [];
    match Classify(rule)
    case OnGroup =>
      var (inner, st1) := ParseResult(modules, st, rule.rules, source, depth);
      if inner.Err? then (Err(inner.error), st1) else (Ok([Group(rule.kind, inner.value)]), st1)
    case OnRequire =>
      var (done, st1) := RequireResult(modules, st.(required := st.required[source := map[]]), rule.declarations,
                                       source, Split(source, '/')[0], depth, map[]);
      (if done.Err? then Err(done.error) else Ok([]), st1)
    case OnExports =>
      var table := ExportsTable(rule.declarations, source, st.ScopeFor(source).locals);
      if table.Err? then (Err(table.error), st)
      else (Ok([]), st.(exports := st.exports[source := table.value]))
    case OnLocals =>
      var table := LocalsTable(rule.declarations, st.ScopeFor(source));
      if table.Err? then (Err(table.error), st)
      else (Ok([]), st.(locals := st.locals[source := table.value]))
    case OnPlaceholder =>
      (Ok([]), st.(placeholders := st.placeholders + [Placeholder(rule, source)]))
    case _ =>
      (Output(rule, st.ScopeFor(source), source), st)
  }

  /** The rest of a `:require` block: each specifier, resolved against
      `source`, is loaded with `parent` and the declaration's position, and
      the record `load` returns is bound under `$` and the property in the
      table `deps`, which is the module's require table. */
  function RequireResult(modules: map<string, Entry>, st: State, decls: seq<Decl>, source: string, parent: string,
                         depth: nat, deps: map<string, Sheet>): (Outcome<()>, State)
    decreases depth, 0, 2, |decls|
  {
    if decls == [] then (Ok(()), st)
    else
      var d := decls[0];
      var (dep, st1) := LoadResult(modules, st, Resolve(source, d.value), d.position, parent, depth);
      if dep.Err? then (Err(dep.error), st1)
      else
        var bound := deps["$" + d.property := dep.value];
        RequireResult(modules, st1.(required := st1.required[source := bound]), decls[1..], source, parent, depth, bound)
  }

  /** The exported function: the entry module loaded by a fresh parser,
      with every placeholder collected on the way put in front of its
      rules. */
  function CompileResult(modules: map<string, Entry>, index: string, depth: nat): (r: Outcome<Sheet>)
    ensures Find(modules, EntryName(index), "").None? ==> r == Err(ParseError(ModuleNotFound(EntryName(index)), None))
    ensures var loaded := LoadResult(modules, Initial, EntryName(index), None, "", depth).0;
            (r.Ok? <==> loaded.Ok?) &&
            (r.Ok? ==> var n := |r.value.rules| - |loaded.value.rules|;
                       r.value.source == loaded.value.source && 0 <= n && r.value.rules[n..] == loaded.value.rules &&
                       forall i :: 0 <= i < n ==> IsPlaceholderRule(r.value.rules[i]))
  {
    var (out, st) := LoadResult(modules, Initial, EntryName(index), None, "", depth);
    LoadGrows(modules, Initial, EntryName(index), None, "", depth);
    if out.Err? then Err(out.error)
    else
      assert (st.placeholders + out.value.rules)[|st.placeholders|..] == out.value.rules;
      Ok(Sheet(out.value.source, st.placeholders + out.value.rules))
  }

  /** A walk result with `out` already produced in front of it. */
  function Prepend(out: seq<Rule>, s: (Outcome<seq<Rule>>, State)): (Outcome<seq<Rule>>, State) {
    (if s.0.Ok? then Ok(out + s.0.value) else s.0, s.1)
  }

  /** One step of `parse`'s loop: the first rule's output joins what is
      already produced, or its error ends the walk. */
  lemma ParseStep(modules: map<string, Entry>, st: State, rules: seq<Rule>, source: string, depth: nat, out: seq<Rule>)
    requires rules != []
    ensures var one := RuleResult(modules, st, rules[0], source, depth);
            Prepend(out, ParseResult(modules, st, rules, source, depth)) ==
            if one.0.Err? then (Err(one.0.error), one.1)
            else Prepend(out + one.0.value, ParseResult(modules, one.1, rules[1..], source, depth))
  {
    var one := RuleResult(modules, st, rules[0], source, depth);
    if one.0.Ok? {
      var rest := ParseResult(modules, one.1, rules[1..], source, depth);
      if rest.0.Ok? {
        assert out + (one.0.value + rest.0.value) == out + one.0.value + rest.0.value;
      }
    }
  }

  /* ---------------- Properties of `load` ---------------- */

  /** A cached path is answered from the cache and nothing changes. */
  lemma LoadCached(modules: map<string, Entry>, st: State, path: string, position: Option<Position>,
                   parent: string, depth: nat)
    requires path in st.cache
    ensures LoadResult(modules, st, path, position, parent, depth) == (Ok(st.cache[path]), st)
  {
  }

  /** A string entry is loaded in its place, with no position and no
      parent; when the target is missing too, the error names the target
      and has no position. */
  lemma LoadAlias(modules: map<string, Entry>, st: State, path: string, position: Option<Position>,
                  parent: string, depth: nat, target: string)
    requires path !in st.cache && depth > 0
    requires Find(modules, path, parent).Some? && Find(modules, path, parent).value.1 == Alias(target)
    ensures LoadResult(modules, st, path, position, parent, depth) == LoadResult(modules, st, target, None, "", depth - 1)
    ensures target !in st.cache && !(target in modules && Truthy(modules[target])) ==>
            LoadResult(modules, st, path, position, parent, depth) == (Err(ParseError(ModuleNotFound(target), None)), st)
  {
  }

  /** A producer entry is walked under `fn.source || path` with the
      producer logged, and on success the walked record is returned and
      cached under `path`. */
  lemma LoadProducer(modules: map<string, Entry>, st: State, path: string, position: Option<Position>,
                     parent: string, depth: nat, key: string, name: string, tree: seq<Rule>)
    requires path !in st.cache && depth > 0
    requires Find(modules, path, parent) == Some((key, Source(name, tree)))
    ensures var source := if name == "" then path else name;
            var walked := ParseResult(modules, st.(invoked := st.invoked + [key]), tree, source, depth - 1);
            var loaded := LoadResult(modules, st, path, position, parent, depth);
            && (loaded.0.Ok? <==> walked.0.Ok?)
            && (loaded.0.Ok? ==>
                  && loaded.0.value == Sheet(source, walked.0.value)
                  && loaded.1 == walked.1.(cache := walked.1.cache[path := loaded.0.value]))
            && (loaded.0.Err? ==> loaded.0.error == walked.0.error)
  {
  }

  /** Loading a producer's path a second time, from any position, parent
      or stack depth, returns the same record and changes nothing: the
      producer runs at most once per path. */
  lemma LoadTwice(modules: map<string, Entry>, st: State, path: string, position: Option<Position>,
                  parent: string, depth: nat, position': Option<Position>, parent': string, depth': nat)
    requires path !in st.cache
    requires Find(modules, path, parent).Some? && Find(modules, path, parent).value.1.Source?
    requires LoadResult(modules, st, path, position, parent, depth).0.Ok?
    ensures var first := LoadResult(modules, st, path, position, parent, depth);
            LoadResult(modules, first.1, path, position', parent', depth') == first
  {
    var first := LoadResult(modules, st, path, position, parent, depth);
    var (key, entry) := Find(modules, path, parent).value;
    LoadProducer(modules, st, path, position, parent, depth, key, entry.name, entry.tree);
    LoadCached(modules, first.1, path, position', parent', depth');
  }

  /* ---------------- Properties of `parse` and `parseRequire` ---------------- */

  /** A rule that fails ends the walk with its error. */
  lemma ParseFirstFails(modules: map<string, Entry>, st: State, rules: seq<Rule>, source: string, depth: nat)
    requires rules != [] && RuleResult(modules, st, rules[0], source, depth).0.Err?
    ensures ParseResult(modules, st, rules, source, depth).0 == RuleResult(modules, st, rules[0], source, depth).0
  {
  }

  /** A `:require` rule fails exactly as its block does and otherwise puts
      nothing in the output. */
  lemma RequireRule(modules: map<string, Entry>, st: State, rule: Rule, source: string, depth: nat)
    requires Classify(rule) == OnRequire
    ensures var block := RequireResult(modules, st.(required := st.required[source := map[]]), rule.declarations,
                                       source, Split(source, '/')[0], depth, map[]);
            var one := RuleResult(modules, st, rule, source, depth);
            && (one.0.Ok? <==> block.0.Ok?)
            && (one.0.Ok? ==> one.0.value == [] && one.1 == block.1)
            && (one.0.Err? ==> one.0.error == block.0.error)
  {
  }

  /** A specifier that fails to load ends the `:require` block with its
      error; in particular a first specifier that is neither cached nor in
      the module table fails with "could not find module" at its
      declaration. */
  lemma RequireFirstFails(modules: map<string, Entry>, st: State, decls: seq<Decl>, source: string, parent: string,
                          depth: nat, deps: map<string, Sheet>)
    requires decls != []
    requires LoadResult(modules, st, Resolve(source, decls[0].value), decls[0].position, parent, depth).0.Err?
    ensures var block := RequireResult(modules, st, decls, source, parent, depth, deps).0;
            block.Err? && block.error ==
            LoadResult(modules, st, Resolve(source, decls[0].value), decls[0].position, parent, depth).0.error
    ensures var target := Resolve(source, decls[0].value);
            target !in st.cache && Find(modules, target, parent).None? ==>
            RequireResult(modules, st, decls, source, parent, depth, deps).0 ==
            Err(ParseError(ModuleNotFound(target), decls[0].position))
  {
  }

  /** After a successful `:require` block the module's require table binds
      exactly `$` and the property of each declaration, on top of what
      `deps` already bound. */
  lemma {:induction false} RequireKeys(modules: map<string, Entry>, st: State, decls: seq<Decl>, source: string,
                                       parent: string, depth: nat, deps: map<string, Sheet>)
    requires source in st.required && st.required[source] == deps
    requires RequireResult(modules, st, decls, source, parent, depth, deps).0.Ok?
    ensures var after := RequireResult(modules, st, decls, source, parent, depth, deps).1;
            source in after.required && after.required[source].Keys == deps.Keys + Aliases(decls)
    decreases |decls|
  {
    if decls != [] {
      var d := decls[0];
      var loaded := LoadResult(modules, st, Resolve(source, d.value), d.position, parent, depth);
      var bound := deps["$" + d.property := loaded.0.value];
      RequireKeys(modules, loaded.1.(required := loaded.1.required[source := bound]), decls[1..], source, parent, depth, bound);
    }
  }

  /** When a module's first rule requires the module itself, the nested
      load decides the outer one: its error is the module's error. */
  lemma SelfRequireStep(modules: map<string, Entry>, st: State, p: string, name: string, alias: string,
                        at: Option<Position>, rest: seq<Rule>, position: Option<Position>, parent: string, depth: nat)
    requires p in modules && modules[p] == Source(name, [Style([":require"], [Decl(alias, p, at)])] + rest)
    requires !StartsWith(p, ".") && p !in st.cache && depth > 0
    ensures var source := if name == "" then p else name;
            var inner := LoadResult(modules, st.(invoked := st.invoked + [p]).(required := st.required[source := map[]]),
                                    p, at, Split(source, '/')[0], depth - 1);
            inner.0.Err? ==> LoadResult(modules, st, p, position, parent, depth).0 == Err(inner.0.error)
  {
    var rule := Style([":require"], [Decl(alias, p, at)]);
    assert Select(rule, ":require");
    RequireFirstStep(modules, st, p, name, rule, alias, at, rest, position, parent, depth);
  }

  lemma RequireFirstStep(modules: map<string, Entry>, st: State, p: string, name: string, rule: Rule, alias: string,
                         at: Option<Position>, rest: seq<Rule>, position: Option<Position>, parent: string, depth: nat)
    requires Classify(rule) == OnRequire && rule.declarations == [Decl(alias, p, at)]
    requires p in modules && modules[p] == Source(name, [rule] + rest)
    requires !StartsWith(p, ".") && p !in st.cache && depth > 0
    ensures var source := if name == "" then p else name;
            var inner := LoadResult(modules, st.(invoked := st.invoked + [p]).(required := st.required[source := map[]]),
                                    p, at, Split(source, '/')[0], depth - 1);
            inner.0.Err? ==> LoadResult(modules, st, p, position, parent, depth).0 == Err(inner.0.error)
  {
    var source := if name == "" then p else name;
    var tree := [rule] + rest;
    var st1 := st.(invoked := st.invoked + [p]);
    RequireRuleFails(modules, st1, rule, source, p, alias, at, depth - 1);
    var one := RuleResult(modules, st1, rule, source, depth - 1);
    if one.0.Err? {
      assert tree[0] == rule;
      ParseFirstFails(modules, st1, tree, source, depth - 1);
      LoadProducer(modules, st, p, position, parent, depth, p, name, tree);
    }
  }

  /** A `:require` rule whose one specifier is a top-level name fails with
      the error of loading that name. */
  lemma RequireRuleFails(modules: map<string, Entry>, st: State, rule: Rule, source: string, p: string, alias: string,
                         at: Option<Position>, depth: nat)
    requires Classify(rule) == OnRequire && rule.declarations == [Decl(alias, p, at)]
    requires !StartsWith(p, ".")
    ensures var inner := LoadResult(modules, st.(required := st.required[source := map[]]), p, at, Split(source, '/')[0], depth);
            inner.0.Err? ==> RuleResult(modules, st, rule, source, depth).0 == Err(inner.0.error)
  {
    var st2 := st.(required := st.required[source := map[]]);
    var up := Split(source, '/')[0];
    if LoadResult(modules, st2, p, at, up, depth).0.Err? {
      assert Resolve(source, p) == p;
      RequireFirstFails(modules, st2, rule.declarations, source, up, depth, map[]);
      RequireRule(modules, st, rule, source, depth);
    }
  }

  /** A module whose first rule requires the module itself never finishes
      loading: each nested load starts the same walk again before anything
      is cached, so every stack budget runs out. */
  lemma {:induction false} SelfRequireOverflows(modules: map<string, Entry>, st: State, p: string, name: string,
                                                 alias: string, at: Option<Position>, rest: seq<Rule>,
                                                 position: Option<Position>, parent: string, depth: nat)
    requires p in modules && modules[p] == Source(name, [Style([":require"], [Decl(alias, p, at)])] + rest)
    requires !StartsWith(p, ".") && p !in st.cache
    ensures LoadResult(modules, st, p, position, parent, depth).0 == Err(ParseError(StackOverflow(p), None))
    decreases depth
  {
    if depth > 0 {
      var source := if name == "" then p else name;
      var st2 := st.(invoked := st.invoked + [p]).(required := st.required[source := map[]]);
      SelfRequireOverflows(modules, st2, p, name, alias, at, rest, at, Split(source, '/')[0], depth - 1);
      SelfRequireStep(modules, st, p, name, alias, at, rest, position, parent, depth);
    }
  }
}
