/** The module-resolution engine of lib/modules.js: the `Parser` object
    that loads modules through a session cache, walks each module's rules,
    fills the require, export and locals tables, splices content, collects
    placeholders, and the exported entry point that hoists them. */
module Modules {
  import opened Wrappers
  import opened Strings
  import opened Paths
  import opened Css
  import opened Errors
  import opened Variables
  import opened Tables
  import opened Session

  class Parser {
    const modules: map<string, Entry>
    var required: map<string, map<string, Sheet>>   // source -> `$alias` -> module
    var exports: map<string, map<string, string>>   // source -> `$name` -> value
    var locals: map<string, map<string, string>>    // source -> `$name` -> value
    var cache: map<string, Sheet>                   // path -> loaded module
    var placeholders: seq<Rule>                     // session-wide, in encounter order
    ghost var invoked: seq<string>                  // module-table keys whose producer ran, in order

    /** Every module in the cache or in a require table is walked (no
        directive rule left in it), and every collected placeholder is
        namespaced. */
    ghost predicate Valid()
      reads this`cache, this`required, this`placeholders
    {
      && CleanTable(cache)
      && (forall s :: s in required ==> CleanTable(required[s]))
      && (forall i :: 0 <= i < |placeholders| ==> IsPlaceholderRule(placeholders[i]))
    }

    /** The fields as one value, the state the functions of `Session` take. */
    ghost function St(): State
      reads this
    {
      State(required, exports, locals, cache, placeholders, invoked)
    }

    constructor (modules: map<string, Entry>)
      ensures Valid()
      ensures this.modules == modules
      ensures St() == Initial
    {
      this.modules := modules;
      required, exports, locals, cache := map[], map[], map[], map[];
      placeholders, invoked := [], [];
    }

    /** The tables a walk of module `source` reads. */
    function ScopeOf(source: string): Scope
      reads this`required, this`locals, this`exports
    {
      ScopeIn(required, locals, exports, source)
    }

    /** A path that is neither cached nor in the module table. */
    ghost predicate Missing(path: string, parent: string)
      reads this`cache
    {
      path !in cache && Find(modules, path, parent).None?
    }

    /** `load(path, position, parent)`. A cached path is answered from the
        cache and nothing else happens; otherwise the entry is found (or the
        load fails with "could not find module" at `position`), a string
        entry is loaded in its place without position or parent, and a
        producer's tree is walked under its source name and cached under
        `path`. `depth` is the number of nested loads the stack still
        allows; a circular require uses it up. */
    method Load(path: string, position: Option<Position>, parent: string, depth: nat)
      returns (r: Outcome<Sheet>)
      requires Valid()
      modifies this
      decreases depth, 0, 0
      ensures Valid()
      ensures old(cache).Keys <= cache.Keys && old(placeholders) <= placeholders && old(invoked) <= invoked
      ensures var s := LoadResult(modules, old(St()), path, position, parent, depth);
              r == s.0 && (r.Ok? ==> St() == s.1)
      ensures path in old(cache) ==> r == Ok(old(cache)[path]) && unchanged(this)
      ensures old(Missing(path, parent)) ==>
              r == Err(ParseError(ModuleNotFound(path), position)) && unchanged(this)
      ensures r.Ok? ==> Clean(r.value.rules) && r.value in cache.Values
    {
      if path in cache {
        assert cache[path] in cache.Values;
        return Ok(cache[path]);
      }
      var found := Find(modules, path, parent);
      if found.None? {
        return Err(ParseError(ModuleNotFound(path), position));
      }
      var (key, entry) := found.value;
      if depth == 0 {
        return Err(ParseError(StackOverflow(path), None));
      }
      match entry
      case Alias(target) =>
        r := Load(target, None, "", depth - 1);
      case Source(name, tree) =>
        r := LoadSource(path, key, if name == "" then path else name, tree, depth - 1);
    }

    /** The producer branch of `load`: the producer found under `key` runs
        (logged in `invoked`), its tree is walked under `source`, and the
        walked record is cached under `path`. */
    method LoadSource(path: string, key: string, source: string, tree: seq<Rule>, depth: nat)
      returns (r: Outcome<Sheet>)
      requires Valid()
      modifies this
      decreases depth, Size(tree), 3
      ensures Valid()
      ensures old(cache).Keys <= cache.Keys && old(placeholders) <= placeholders && old(invoked) <= invoked
      ensures var walk := ParseResult(modules, old(St()).(invoked := old(invoked) + [key]), tree, source, depth);
              (walk.0.Err? ==> r == Err(walk.0.error)) &&
              (walk.0.Ok? ==> r == Ok(Sheet(source, walk.0.value)) &&
                              St() == walk.1.(cache := walk.1.cache[path := Sheet(source, walk.0.value)]))
      ensures r.Ok? ==> Clean(r.value.rules) && r.value in cache.Values
    {
      ghost var before := St();
      invoked := invoked + [key];
      assert St() == before.(invoked := before.invoked + [key]);
      var walked, _ := Parse(tree, source, depth);
      if walked.Err? {
        return Err(walked.error);
      }
      var out := Sheet(source, walked.value);
      ghost var walkedState := St();
      cache := cache[path := out];
      assert St() == walkedState.(cache := walkedState.cache[path := out]);
      assert cache[path] in cache.Values;
      r := Ok(out);
    }

    /** `parse(style, source)`: every rule goes to the one handler
        `Classify` picks, and the output is the concatenation, in input
        order, of what each rule contributes. */
    method Parse(rules: seq<Rule>, source: string, depth: nat)
      returns (r: Outcome<seq<Rule>>, ghost pieces: seq<seq<Rule>>)
      requires Valid()
      modifies this
      decreases depth, Size(rules), 2
      ensures Valid()
      ensures old(cache).Keys <= cache.Keys && old(placeholders) <= placeholders && old(invoked) <= invoked
      ensures var s := ParseResult(modules, old(St()), rules, source, depth);
              r == s.0 && (r.Ok? ==> St() == s.1)
      ensures r.Ok? ==> Clean(r.value)
      ensures r.Ok? ==> |pieces| == |rules| && r.value == Flatten(pieces)
      ensures r.Ok? ==> forall i :: 0 <= i < |rules| ==> Contributes(rules[i], pieces[i], source)
    {
      var out: seq<Rule> := [];
      pieces := [];
      assert rules[0..] == rules;
      ghost var whole := ParseResult(modules, St(), rules, source, depth);
      assert whole.0.Ok? ==> [] + whole.0.value == whole.0.value;
      for i := 0 to |rules|
        invariant Valid()
        invariant old(cache).Keys <= cache.Keys && old(placeholders) <= placeholders && old(invoked) <= invoked
        invariant ParseResult(modules, old(St()), rules, source, depth) ==
                  Prepend(out, ParseResult(modules, St(), rules[i..], source, depth))
        invariant |pieces| == i && out == Flatten(pieces) && Clean(out)
        invariant forall j :: 0 <= j < i ==> Contributes(rules[j], pieces[j], source)
      {
        SizeOfElement(rules, i);
        ParseStep(modules, St(), rules[i..], source, depth, out);
        assert rules[i..][0] == rules[i] && rules[i..][1..] == rules[i + 1..];
        var piece := ParseRule(rules[i], source, depth);
        if piece.Err? {
          return Err(piece.error), pieces;
        }
        CleanConcat(out, piece.value);
        assert (pieces + [piece.value])[..i] == pieces;
        pieces := pieces + [piece.value];
        out := out + piece.value;
      }
      assert out + [] == out;
      r := Ok(out);
    }

    /** The body of `parse`'s loop for one rule: the handlers that write
        the session's tables are called here, the others produce output
        only. */
    method ParseRule(rule: Rule, source: string, depth: nat) returns (r: Outcome<seq<Rule>>)
      requires Valid()
      modifies this
      decreases depth, Size([rule]), 1
      ensures Valid()
      ensures old(cache).Keys <= cache.Keys && old(placeholders) <= placeholders && old(invoked) <= invoked
      ensures var s := RuleResult(modules, old(St()), rule, source, depth);
              r == s.0 && (r.Ok? ==> St() == s.1)
      ensures r.Ok? ==> Contributes(rule, r.value, source) && Clean(r.value)
    {
      match Classify(rule)
      case OnGroup =>
        assert [rule][1..] == [];
        var inner, _ := Parse(rule.rules, source, depth);
        if inner.Err? {
          return Err(inner.error);
        }
        var g := ParseVariables(Group(rule.kind, inner.value), source);
        r := Ok([g.value]);
      case OnRequire =>
        var done := ParseRequire(rule.declarations, source, depth);
        if done.Err? {
          return Err(done.error);
        }
        r := Ok([]);
      case OnExports =>
        var done := ParseExports(rule.declarations, source);
        if done.Err? {
          return Err(done.error);
        }
        r := Ok([]);
      case OnLocals =>
        var done := ParseLocals(rule.declarations, source);
        if done.Err? {
          return Err(done.error);
        }
        r := Ok([]);
      case OnPlaceholder =>
        ParsePlaceholders(rule, source);
        r := Ok([]);
      case _ =>
        r := ParseOutput(rule, source);
    }

    /** The handlers that only produce output: keyframes, `:content` and the
        variables fallback. */
    method ParseOutput(rule: Rule, source: string) returns (r: Outcome<seq<Rule>>)
      requires Valid()
      requires Classify(rule) in {OnKeyframes, OnContent, OnVariables}
      ensures r == Output(rule, ScopeOf(source), source)
      ensures r.Ok? ==> Contributes(rule, r.value, source) && Clean(r.value)
    {
      if rule.Keyframes? {
        var k := ParseKeyframes(rule.name, rule.frames, source);
        if k.Err? {
          return Err(k.error);
        }
        RewriteRulesShape(rule.frames, ScopeOf(source), source);
        r := Ok([k.value]);
      } else if Classify(rule) == OnContent {
        r := ParseContent(rule.declarations, source);
        if r.Ok? {
          SpliceClean(rule.declarations, ScopeOf(source).deps, source);
        }
      } else {
        var v := ParseVariables(rule, source);
        if v.Err? {
          return Err(v.error);
        }
        RewriteRuleShape(rule, ScopeOf(source), source);
        SkeletonClassify(rule, v.value);
        r := Ok([v.value]);
      }
    }

    /** `parseRequire`: the module's require table is replaced by a fresh
        one, and each declaration `alias: specifier` loads the specifier,
        resolved against `source`, with the first segment of `source` as the
        parent package, and binds the loaded record under `$alias`. */
    method ParseRequire(decls: seq<Decl>, source: string, depth: nat) returns (r: Outcome<()>)
      requires Valid()
      modifies this
      decreases depth, 0, 2
      ensures Valid()
      ensures old(cache).Keys <= cache.Keys && old(placeholders) <= placeholders && old(invoked) <= invoked
      ensures var s := RequireResult(modules, old(St()).(required := old(required)[source := map[]]), decls,
                                     source, Split(source, '/')[0], depth, map[]);
              r == s.0 && (r.Ok? ==> St() == s.1)
    {
      var deps: map<string, Sheet> := map[];
      required := required[source := deps];
      var parent := Split(source, '/')[0];
      assert decls[0..] == decls;
      for i := 0 to |decls|
        invariant Valid()
        invariant old(cache).Keys <= cache.Keys && old(placeholders) <= placeholders && old(invoked) <= invoked
        invariant source in required && required[source] == deps
        invariant RequireResult(modules, old(St()).(required := old(required)[source := map[]]), decls,
                                source, parent, depth, map[]) ==
                  RequireResult(modules, St(), decls[i..], source, parent, depth, deps)
      {
        assert decls[i..][0] == decls[i] && decls[i..][1..] == decls[i + 1..];
        var bound := RequireOne(decls[i], source, parent, depth, deps);
        if bound.Err? {
          return Err(bound.error);
        }
        deps := bound.value;
      }
      r := Ok(());
    }

    /** One declaration of a `:require` block: its specifier, resolved
        against the requiring module, is loaded with the requiring module's
        package as parent and the declaration's position for errors, and the
        record `load` returns is bound under `$` and the property in the
        module's require table. */
    method RequireOne(d: Decl, source: string, parent: string, depth: nat, deps: map<string, Sheet>)
      returns (r: Outcome<map<string, Sheet>>)
      requires Valid() && source in required && required[source] == deps
      modifies this
      decreases depth, 0, 1
      ensures Valid()
      ensures old(cache).Keys <= cache.Keys && old(placeholders) <= placeholders && old(invoked) <= invoked
      ensures var s := LoadResult(modules, old(St()), Resolve(source, d.value), d.position, parent, depth);
              && (r.Ok? <==> s.0.Ok?)
              && (r.Err? ==> r.error == s.0.error)
              && (r.Ok? ==> && r.value == deps["$" + d.property := s.0.value]
                            && St() == s.1.(required := s.1.required[source := r.value]))
    {
      var dep := Load(Resolve(source, d.value), d.position, parent, depth);
      if dep.Err? {
        return Err(dep.error);
      }
      assert CleanTable(deps);
      var bound := deps["$" + d.property := dep.value];
      required := required[source := bound];
      r := Ok(bound);
    }

    /** `parseContent`: each declaration's value names a required alias
        whose module's rules are spliced in between begin and end comments. */
    method ParseContent(decls: seq<Decl>, source: string) returns (r: Outcome<seq<Rule>>)
      ensures r == Splice(decls, ScopeOf(source).deps, source)
    {
      var deps := ScopeOf(source).deps;
      var out: seq<Rule> := [];
      for i := 0 to |decls|
        invariant Splice(decls[..i], deps, source) == Ok(out)
      {
        assert decls[..i + 1] == decls[..i] + [decls[i]];
        SpliceLast(decls[..i], decls[i], deps, source);
        var content := decls[i];
        if content.value !in deps {
          SpliceFirstError(decls, deps, source, i + 1);
          return Err(ParseError(ContentNotFound(content.value), content.position));
        }
        var dep := deps[content.value];
        out := out + ([BeginMarker(dep.source, source)] + dep.rules + [EndMarker(dep.source, source)]);
      }
      assert decls[..|decls|] == decls;
      r := Ok(out);
    }

    /** `parseExports`: the module's export table is replaced by the one its
        `:exports` block describes. */
    method ParseExports(decls: seq<Decl>, source: string) returns (r: Outcome<()>)
      modifies this`exports
      ensures var table := ExportsTable(decls, source, ScopeOf(source).locals);
              && (r.Ok? <==> table.Ok?)
              && (r.Ok? ==> exports == old(exports)[source := table.value])
              && (r.Err? ==> r.error == table.error)
    {
      var exps: map<string, string> := map[];
      var lcls := ScopeOf(source).locals;
      for i := 0 to |decls|
        invariant ExportsTable(decls[..i], source, lcls) == Ok(exps)
      {
        assert decls[..i + 1][..i] == decls[..i];
        var exp := decls[i];
        var v := ExportValue(exp, source, lcls);
        if v.Err? {
          ExportsTableFirstError(decls, source, lcls, i + 1);
          exports := exports[source := exps];
          return Err(v.error);
        }
        exps := exps["$" + exp.property := v.value];
      }
      assert decls[..|decls|] == decls;
      exports := exports[source := exps];
      r := Ok(());
    }

    /** `parseLocals`: the module's locals table is reset and each
        declaration is substituted against the entries made so far and
        stored, in declaration order. */
    method ParseLocals(decls: seq<Decl>, source: string) returns (r: Outcome<()>)
      modifies this`locals
      ensures var table := LocalsTable(decls, old(ScopeOf(source)));
              && (r.Ok? <==> table.Ok?)
              && (r.Ok? ==> locals == old(locals)[source := table.value])
              && (r.Err? ==> r.error == table.error)
    {
      var sc := ScopeOf(source);
      var lcls: map<string, string> := map[];
      for i := 0 to |decls|
        invariant LocalsTable(decls[..i], sc) == Ok(lcls)
      {
        assert decls[..i + 1][..i] == decls[..i];
        var local := decls[i];
        // the table being filled is the one lookups see
        var v := SubstituteValues(local.value, sc.(locals := lcls), local.position);
        if v.Err? {
          LocalsTableFirstError(decls, sc, i + 1);
          locals := locals[source := lcls];
          return Err(v.error);
        }
        lcls := lcls["$" + local.property := v.value];
      }
      assert decls[..|decls|] == decls;
      locals := locals[source := lcls];
      r := Ok(());
    }

    /** `parsePlaceholders`: the rule's selectors are namespaced and the rule
        is appended to the session-wide list, never to the module's output. */
    method ParsePlaceholders(rule: Rule, source: string)
      requires rule.Style?
      requires Valid()
      modifies this`placeholders
      ensures Valid()
      ensures placeholders == old(placeholders) + [Placeholder(rule, source)]
    {
      placeholders := placeholders + [Placeholder(rule, source)];
    }

    /** `parseVariables` on one rule. */
    method ParseVariables(rule: Rule, source: string) returns (r: Outcome<Rule>)
      ensures r == RewriteRule(rule, ScopeOf(source), source)
    {
      match rule
      case Style(selectors, decls) =>
        var out :- ParseDeclarations(decls, source);
        r := Ok(Style(selectors, out));
      case Frame(values, decls) =>
        var out :- ParseDeclarations(decls, source);
        r := Ok(Frame(values, out));
      case _ =>
        r := Ok(rule);
    }

    /** The loop of `parseVariables` over one rule's declarations: a value
        starting with `%` is namespaced, any other has its variables
        substituted; the first failure stops the walk. */
    method ParseDeclarations(decls: seq<Decl>, source: string) returns (r: Outcome<seq<Decl>>)
      ensures r == RewriteDecls(decls, ScopeOf(source), source)
    {
      var sc := ScopeOf(source);
      var out: seq<Decl> := [];
      for i := 0 to |decls|
        invariant RewriteDecls(decls[..i], sc, source) == Ok(out)
      {
        assert decls[..i + 1][..i] == decls[..i];
        var d := RewriteDecl(decls[i], sc, source);
        if d.Err? {
          RewriteDeclsFirstError(decls, sc, source, i + 1);
          return Err(d.error);
        }
        out := out + [d.value];
      }
      assert decls[..|decls|] == decls;
      r := Ok(out);
    }

    /** `parseKeyframes`: every frame goes through the variables fallback and
        the keyframes rule is kept with the rewritten frames. */
    method ParseKeyframes(name: string, frames: seq<Rule>, source: string) returns (r: Outcome<Rule>)
      ensures var walked := RewriteRules(frames, ScopeOf(source), source);
              && (r.Ok? <==> walked.Ok?)
              && (r.Ok? ==> r.value == Keyframes(name, walked.value))
              && (r.Err? ==> r.error == walked.error)
    {
      var sc := ScopeOf(source);
      var out: seq<Rule> := [];
      for i := 0 to |frames|
        invariant RewriteRules(frames[..i], sc, source) == Ok(out)
      {
        assert frames[..i + 1][..i] == frames[..i];
        var frame := ParseVariables(frames[i], source);
        if frame.Err? {
          RewriteRulesFirstError(frames, sc, source, i + 1);
          return Err(frame.error);
        }
        out := out + [frame.value];
      }
      assert frames[..|frames|] == frames;
      r := Ok(Keyframes(name, out));
    }

    /** `insertPlaceholders`: the collected placeholders, in encounter order,
        in front of the root module's rules, which are otherwise unchanged. */
    method InsertPlaceholders(out: Sheet) returns (r: Sheet)
      ensures r == Sheet(out.source, placeholders + out.rules)
      ensures placeholders == [] ==> r == out
    {
      if placeholders == [] {
        assert placeholders + out.rules == out.rules;
        return out;
      }
      r := Sheet(out.source, placeholders + out.rules);
    }
  }

  /** The exported function: load the entry module (`index` by default)
      with a fresh parser and hoist the placeholders collected on the way.
      `depth` is the number of nested loads the stack allows. The result is
      the entry module's walked record with every placeholder of the
      session in front of its rules. */
  method Compile(modules: map<string, Entry>, index: string, depth: nat) returns (r: Outcome<Sheet>, ghost hoisted: seq<Rule>)
    ensures r == CompileResult(modules, index, depth)
    ensures Find(modules, EntryName(index), "").None? ==>
            r == Err(ParseError(ModuleNotFound(EntryName(index)), None))
    ensures r.Ok? ==> hoisted == LoadResult(modules, Initial, EntryName(index), None, "", depth).1.placeholders
    ensures r.Ok? ==> |hoisted| <= |r.value.rules| && r.value.rules[..|hoisted|] == hoisted
    ensures r.Ok? ==> forall i :: 0 <= i < |hoisted| ==> IsPlaceholderRule(hoisted[i])
    ensures r.Ok? ==> Clean(r.value.rules[|hoisted|..])
  {
    var parser := new Parser(modules);
    var out := parser.Load(EntryName(index), None, "", depth);
    if out.Err? {
      return Err(out.error), [];
    }
    var sheet := parser.InsertPlaceholders(out.value);
    assert sheet.rules[|parser.placeholders|..] == out.value.rules;
    return Ok(sheet), parser.placeholders;
  }
}
