/** The symbol-table builders and the per-rule rewrites of the rule walker,
    as functions of their inputs: the export table (`parseExports`,
    lib/modules.js:181-201), the locals table (`parseLocals`, 210-217), the
    content splice (`parseContent`, 158-172), placeholder namespacing
    (227-233, 263) and the variables fallback (`parseVariables`, 255-268;
    `parseKeyframes`, 290-298). The Parser class runs the loops of the
    source and is proved to compute these. */
module Tables {
  import opened Wrappers
  import opened Strings
  import opened Css
  import opened Errors
  import opened Variables

  /* ---------------- Placeholder namespacing ---------------- */

  /** `'%' + source + '|' + name.substr(1)`: the first character (the `%`)
      is dropped and the module's source name put in front. */
  function Namespace(source: string, name: string): (r: string)
    ensures IsNamespaced(r)
  {
    var r := "%" + source + "|" + (if name == "" then "" else name[1..]);
    assert r[|source| + 1] == '|';
    r
  }

  predicate IsNamespaced(s: string) {
    |s| > 0 && s[0] == '%' && '|' in s
  }

  /** Two modules whose source names hold no `|` never produce the same
      namespaced placeholder unless they are the same module and the same
      name: `%base` of `a` and `%base` of `b` stay apart. */
  lemma NamespaceInjective(s1: string, n1: string, s2: string, n2: string)
    requires '|' !in s1 && '|' !in s2
    ensures Namespace(s1, n1) == Namespace(s2, n2) <==>
            s1 == s2 && (if n1 == "" then "" else n1[1..]) == (if n2 == "" then "" else n2[1..])
  {
    var x, y := Namespace(s1, n1), Namespace(s2, n2);
    if x == y {
      assert x[|s1| + 1] == '|' && y[|s2| + 1] == '|';
      assert |s1| == |s2|;
      assert s1 == x[1..|s1| + 1] == y[1..|s2| + 1] == s2;
      assert x[|s1| + 2..] == y[|s2| + 2..];
    }
  }

  /* ---------------- Export table ---------------- */

  /** The value one `:exports` declaration stores: a `%` placeholder is
      namespaced, a `$local` is copied from the locals table (and must be
      there and not empty), anything else is stored as written. */
  function ExportValue(d: Decl, source: string, locals: map<string, string>): (r: Outcome<string>)
    ensures r.Err? <==> StartsWith(d.value, "$") && !StartsWith(d.value, "%") && !(d.value in locals && locals[d.value] != "")
    ensures r.Err? ==> r.error == ParseError(ExportUndefined(d.value), d.position)
    ensures r.Ok? && StartsWith(d.value, "$") ==> r.value == locals[d.value] && r.value != ""
  {
    if StartsWith(d.value, "%") then Ok(Namespace(source, d.value))
    else if StartsWith(d.value, "$") then
      if d.value in locals && locals[d.value] != "" then Ok(locals[d.value])
      else Err(ParseError(ExportUndefined(d.value), d.position))
    else Ok(d.value)
  }

  /** The export table a `:exports` block builds, declaration by declaration
      (a later declaration of the same property replaces an earlier one). */
  function ExportsTable(decls: seq<Decl>, source: string, locals: map<string, string>): (r: Outcome<map<string, string>>)
    ensures r.Err? ==> exists i :: 0 <= i < |decls| && StartsWith(decls[i].value, "$") &&
                                   r.error == ParseError(ExportUndefined(decls[i].value), decls[i].position)
    decreases |decls|
  {
    if decls == [] then Ok(map[])
    else
      var init := decls[..|decls| - 1];
      assert forall i :: 0 <= i < |init| ==> init[i] == decls[i];
      var m :- ExportsTable(init, source, locals);
      var last := decls[|decls| - 1];
      var v :- ExportValue(last, source, locals);
      Ok(m["$" + last.property := v])
  }

  /** The export table fails exactly when some `$local` export is
      undefined ... */
  lemma {:induction false} ExportsTableOk(decls: seq<Decl>, source: string, locals: map<string, string>)
    ensures ExportsTable(decls, source, locals).Ok? <==>
            forall i :: 0 <= i < |decls| ==> ExportValue(decls[i], source, locals).Ok?
    decreases |decls|
  {
    if decls != [] {
      var init := decls[..|decls| - 1];
      ExportsTableOk(init, source, locals);
      assert forall i :: 0 <= i < |init| ==> init[i] == decls[i];
    }
  }

  /** ... and otherwise holds `$property` for every declaration and nothing
      else. */
  lemma {:induction false} ExportsTableKeys(decls: seq<Decl>, source: string, locals: map<string, string>)
    requires ExportsTable(decls, source, locals).Ok?
    ensures ExportsTable(decls, source, locals).value.Keys == set i | 0 <= i < |decls| :: "$" + decls[i].property
    decreases |decls|
  {
    if decls != [] {
      var init := decls[..|decls| - 1];
      ExportsTableKeys(init, source, locals);
      var keys := set i | 0 <= i < |decls| :: "$" + decls[i].property;
      var initKeys := set i | 0 <= i < |init| :: "$" + init[i].property;
      assert keys == initKeys + {"$" + decls[|decls| - 1].property} by {
        forall k | k in keys ensures k in initKeys + {"$" + decls[|decls| - 1].property} {
          var i :| 0 <= i < |decls| && k == "$" + decls[i].property;
          if i < |init| { assert init[i] == decls[i]; }
        }
        forall k | k in initKeys ensures k in keys {
          var i :| 0 <= i < |init| && k == "$" + init[i].property;
          assert init[i] == decls[i];
        }
      }
    }
  }

  /** The entry of a property is the value of its last declaration. */
  lemma {:induction false} ExportsTableEntry(decls: seq<Decl>, source: string, locals: map<string, string>, i: nat)
    requires i < |decls|
    requires forall j :: i < j < |decls| ==> decls[j].property != decls[i].property
    requires ExportsTable(decls, source, locals).Ok?
    ensures "$" + decls[i].property in ExportsTable(decls, source, locals).value
    ensures ExportValue(decls[i], source, locals).Ok?
    ensures ExportsTable(decls, source, locals).value["$" + decls[i].property] == ExportValue(decls[i], source, locals).value
    decreases |decls|
  {
    var init := decls[..|decls| - 1];
    if i < |decls| - 1 {
      assert forall j :: i < j < |init| ==> init[j] == decls[j];
      ExportsTableEntry(init, source, locals, i);
      assert "$" + decls[|decls| - 1].property != "$" + decls[i].property by {
        assert ("$" + decls[|decls| - 1].property)[1..] == decls[|decls| - 1].property;
        assert ("$" + decls[i].property)[1..] == decls[i].property;
      }
    }
  }

  /* ---------------- Locals table ---------------- */

  /** The locals table a `:locals` block builds: it starts empty and each
      value is substituted against the entries made so far, then stored
      under `$property`. */
  function LocalsTable(decls: seq<Decl>, sc: Scope): (r: Outcome<map<string, string>>)
    ensures r.Ok? ==> forall i :: 0 <= i < |decls| ==> "$" + decls[i].property in r.value
    ensures r.Err? ==> exists i :: 0 <= i < |decls| && r.error.position == decls[i].position
    decreases |decls|
  {
    if decls == [] then Ok(map[])
    else
      var init := decls[..|decls| - 1];
      assert forall i :: 0 <= i < |init| ==> init[i] == decls[i];
      var m :- LocalsTable(init, sc);
      var last := decls[|decls| - 1];
      var v :- SubstituteValues(last.value, sc.(locals := m), last.position);
      Ok(m["$" + last.property := v])
  }

  /** A `:locals` block does not see the locals of an earlier block: the
      table it builds does not depend on the locals in scope before it. */
  lemma {:induction false} LocalsTableFresh(decls: seq<Decl>, sc: Scope, earlier: map<string, string>)
    ensures LocalsTable(decls, sc) == LocalsTable(decls, sc.(locals := earlier))
    decreases |decls|
  {
    if decls != [] {
      LocalsTableFresh(decls[..|decls| - 1], sc, earlier);
    }
  }

  /** A local may use one declared before it in the same block ... */
  lemma LocalsUseEarlier(x: string, v: string, y: string, p1: Option<Position>, p2: Option<Position>, sc: Scope)
    requires IsName(x) && '/' !in x
    requires v != "" && '$' !in v
    ensures LocalsTable([Decl(x, v, p1), Decl(y, "$" + x, p2)], sc) == Ok(map["$" + x := v, "$" + y := v])
  {
    var decls := [Decl(x, v, p1), Decl(y, "$" + x, p2)];
    assert decls[..1] == [Decl(x, v, p1)];
    assert decls[..1][..0] == [];
    SubstituteLiteral(v, sc.(locals := map[]), p1);
    var m := map["$" + x := v];
    assert LocalsTable(decls[..1], sc) == Ok(m);
    SubstituteToken(x, sc.(locals := m), p2);
    assert '/' !in "$" + x;
  }

  /** ... but not one declared after it. */
  lemma LocalsNotLater(x: string, v: string, y: string, p1: Option<Position>, p2: Option<Position>, sc: Scope)
    requires IsName(x) && '/' !in x
    ensures LocalsTable([Decl(y, "$" + x, p2), Decl(x, v, p1)], sc) == Err(ParseError(VariableUndefined("$" + x), p2))
  {
    var decls := [Decl(y, "$" + x, p2), Decl(x, v, p1)];
    assert decls[..1] == [Decl(y, "$" + x, p2)];
    assert decls[..1][..0] == [];
    SubstituteToken(x, sc.(locals := map[]), p2);
    assert '/' !in "$" + x;
    var e := ParseError(VariableUndefined("$" + x), p2);
    assert SubstituteValues("$" + x, sc.(locals := map[]), p2) == Err(e);
    assert LocalsTable([], sc) == Ok(map[]);
    assert LocalsTable(decls[..1], sc) == Err(e);
  }

  /** Exporting a local: `:exports { color: $x }` stores the value `x`
      has in the locals table. */
  lemma ExportOfLocal(a: string, x: string, v: string, color: string, pc: Option<Position>)
    requires v != ""
    ensures ExportsTable([Decl(color, "$" + x, pc)], a, map["$" + x := v]) == Ok(map["$" + color := v])
  {
    var d := Decl(color, "$" + x, pc);
    assert [d][..0] == [];
    assert !StartsWith(d.value, "%") && StartsWith(d.value, "$");
  }

  lemma NamePath(dep: string, color: string)
    requires IsName(dep) && IsName(color)
    ensures IsName(dep + "/" + color)
  {
    var key := dep + "/" + color;
    forall i | 0 <= i < |key| ensures NameChar(key[i]) {
      if i < |dep| { assert key[i] == dep[i]; }
      else if i > |dep| { assert key[i] == color[i - |dep| - 1]; }
    }
  }

  lemma ExportedLookup(key: string, alias: string, name: string, v: string, sc: Scope, pos: Option<Position>)
    requires Split(key, '/') == [alias, name]
    requires alias in sc.deps && sc.deps[alias].source in sc.exports
    requires "$" + name in sc.exports[sc.deps[alias].source] && sc.exports[sc.deps[alias].source]["$" + name] == v
    requires v != ""
    ensures ResolveExported(key, sc, pos) == Ok(v)
  {
  }

  /** Only the first two `/`-separated parts of the key count: `$a/b/c` is
      looked up as `$b` in the export table of the module bound under `$a`,
      and the rest shows only in the error, which names the whole key. */
  lemma ExportedNested(alias: string, name: string, rest: string, sc: Scope, pos: Option<Position>)
    requires '/' !in alias && '/' !in name
    requires alias in sc.deps
    ensures var r := ResolveExported(alias + "/" + name + "/" + rest, sc, pos);
            var table := ExportsOf(sc, alias);
            (r.Ok? <==> "$" + name in table && table["$" + name] != "") &&
            (r.Ok? ==> r.value == table["$" + name]) &&
            (r.Err? ==> r.error == ParseError(NotExported(alias + "/" + name + "/" + rest), pos))
  {
    var key := alias + "/" + name + "/" + rest;
    assert key == alias + ['/'] + (name + ['/'] + rest);
    SplitAfter(alias, '/', name + ['/'] + rest);
    SplitAfter(name, '/', rest);
  }

  /** Looking up `$dep/color` where `dep` is required: the value the
      required module exported under `$color`. */
  lemma ResolveThroughExport(a: string, color: string, dep: string, v: string,
                             rules: seq<Rule>, sc: Scope, pos: Option<Position>)
    requires IsName(dep) && '/' !in dep && IsName(color) && '/' !in color
    requires v != ""
    requires "$" + dep in sc.deps && sc.deps["$" + dep] == Sheet(a, rules)
    requires a in sc.exports && "$" + color in sc.exports[a] && sc.exports[a]["$" + color] == v
    ensures SubstituteValues("$" + (dep + "/" + color), sc, pos) == Ok(v)
  {
    var key := dep + "/" + color;
    NamePath(dep, color);
    ResolveAlias(a, color, dep, v, rules, sc, pos);
    SubstituteToken(key, sc, pos);
  }

  lemma ResolveAlias(a: string, color: string, dep: string, v: string,
                     rules: seq<Rule>, sc: Scope, pos: Option<Position>)
    requires '/' !in dep && '/' !in color
    requires v != ""
    requires "$" + dep in sc.deps && sc.deps["$" + dep] == Sheet(a, rules)
    requires a in sc.exports && "$" + color in sc.exports[a] && sc.exports[a]["$" + color] == v
    ensures ResolveValue("$" + (dep + "/" + color), sc, pos) == Ok(v)
  {
    AliasKey(dep, color);
    ExportedLookup("$" + (dep + "/" + color), "$" + dep, color, v, sc, pos);
  }

  /** `$dep/color` splits into the alias `$dep` and the name `color`. */
  lemma AliasKey(dep: string, color: string)
    requires '/' !in dep && '/' !in color
    ensures '/' in "$" + (dep + "/" + color)
    ensures Split("$" + (dep + "/" + color), '/') == ["$" + dep, color]
  {
    var full := "$" + (dep + "/" + color);
    assert full[|dep| + 1] == '/';
    SplitPlain(color, '/');
    assert full == ("$" + dep) + ['/'] + color;
    SplitAfter("$" + dep, '/', color);
  }

  /** The round trip of a variable through an export: module `a` sets
      `:locals { x: v }` and `:exports { color: $x }`; a module that
      requires `a` as `dep` and writes `$dep/color` gets `v`. */
  lemma ExportRoundTrip(a: string, x: string, v: string, color: string, dep: string,
                        rules: seq<Rule>, sc: Scope, px: Option<Position>, pc: Option<Position>, pos: Option<Position>)
    requires IsName(dep) && '/' !in dep && IsName(color) && '/' !in color
    requires v != "" && '$' !in v
    requires "$" + dep in sc.deps && sc.deps["$" + dep] == Sheet(a, rules)
    requires LocalsTable([Decl(x, v, px)], sc).Ok?
    requires ExportsTable([Decl(color, "$" + x, pc)], a, LocalsTable([Decl(x, v, px)], sc).value).Ok?
    requires a in sc.exports
    requires sc.exports[a] == ExportsTable([Decl(color, "$" + x, pc)], a, LocalsTable([Decl(x, v, px)], sc).value).value
    ensures SubstituteValues("$" + (dep + "/" + color), sc, pos) == Ok(v)
  {
    assert [Decl(x, v, px)][..0] == [];
    SubstituteLiteral(v, sc.(locals := map[]), px);
    assert LocalsTable([Decl(x, v, px)], sc).value == map["$" + x := v];
    ExportOfLocal(a, x, v, color, pc);
    ResolveThroughExport(a, color, dep, v, rules, sc, pos);
  }

  /* ---------------- Content splice ---------------- */

  /** The comment put before a spliced module: it names the module's
      source name and the including module, and the variables fallback
      keeps it as it is. */
  function BeginMarker(dep: string, source: string): (r: Rule)
    ensures r.Comment? && StartsWith(r.text, "begin content from " + dep + " in ")
    ensures Classify(r) == OnVariables
  {
    var r := Comment("begin content from " + dep + " in " + source);
    assert r.text[..|"begin content from " + dep + " in "|] == "begin content from " + dep + " in ";
    r
  }

  /** The comment put after it, which no begin comment equals. */
  function EndMarker(dep: string, source: string): (r: Rule)
    ensures r.Comment? && StartsWith(r.text, "end content from " + dep + " in ")
    ensures Classify(r) == OnVariables
    ensures forall d, s :: r != BeginMarker(d, s)
  {
    var r := Comment("end content from " + dep + " in " + source);
    assert r.text[..|"end content from " + dep + " in "|] == "end content from " + dep + " in ";
    assert forall d, s :: BeginMarker(d, s).text[0] == 'b';
    r
  }

  /** One `:content` declaration: the required module's resolved top-level
      rules, unwalked and in order, between a begin and an end comment. */
  function SpliceOne(d: Decl, deps: map<string, Sheet>, source: string): (r: Outcome<seq<Rule>>)
    ensures r.Ok? <==> d.value in deps
    ensures r.Ok? ==> |r.value| == 2 + |deps[d.value].rules| && r.value[1..|r.value| - 1] == deps[d.value].rules
    ensures r.Err? ==> r.error == ParseError(ContentNotFound(d.value), d.position)
    ensures r.Ok? ==> r.value[0] == BeginMarker(deps[d.value].source, source) &&
                      r.value[|r.value| - 1] == EndMarker(deps[d.value].source, source)
  {
    if d.value in deps then
      var dep := deps[d.value];
      Ok([BeginMarker(dep.source, source)] + dep.rules + [EndMarker(dep.source, source)])
    else Err(ParseError(ContentNotFound(d.value), d.position))
  }

  /** A whole `:content` block: the splices of its declarations, in order. */
  function Splice(decls: seq<Decl>, deps: map<string, Sheet>, source: string): (r: Outcome<seq<Rule>>)
    ensures r.Ok? ==> |r.value| >= 2 * |decls|
    ensures r.Err? ==> exists i :: 0 <= i < |decls| && decls[i].value !in deps &&
                                   r.error == ParseError(ContentNotFound(decls[i].value), decls[i].position)
    decreases |decls|
  {
    if decls == [] then Ok([])
    else
      var init := decls[..|decls| - 1];
      assert forall i :: 0 <= i < |init| ==> init[i] == decls[i];
      var prev :- Splice(init, deps, source);
      var block :- SpliceOne(decls[|decls| - 1], deps, source);
      Ok(prev + block)
  }

  /** The splice fails exactly when a declaration names an alias that is
      not in the require table, and the splice of two blocks is the splice
      of the first followed by that of the second. */
  lemma {:induction false} SpliceConcat(a: seq<Decl>, b: seq<Decl>, deps: map<string, Sheet>, source: string)
    ensures Splice(a + b, deps, source).Ok? <==> Splice(a, deps, source).Ok? && Splice(b, deps, source).Ok?
    ensures Splice(a + b, deps, source).Ok? ==>
            Splice(a + b, deps, source).value == Splice(a, deps, source).value + Splice(b, deps, source).value
    decreases |b|
  {
    if b == [] {
      assert a + b == a;
    } else {
      var b', last := b[..|b| - 1], b[|b| - 1];
      assert b == b' + [last];
      assert a + b == (a + b') + [last];
      SpliceConcat(a, b', deps, source);
      SpliceLast(a + b', last, deps, source);
      SpliceLast(b', last, deps, source);
      var one := SpliceOne(last, deps, source);
      if Splice(a + b', deps, source).Ok? && one.Ok? {
        AppendAssoc(Splice(a, deps, source).value, Splice(b', deps, source).value, one.value);
      }
    }
  }

  lemma AppendAssoc<T>(x: seq<T>, y: seq<T>, z: seq<T>)
    ensures x + y + z == x + (y + z)
  {
  }

  /** The splice of a block with one more declaration. */
  lemma SpliceLast(decls: seq<Decl>, d: Decl, deps: map<string, Sheet>, source: string)
    ensures var prev, one := Splice(decls, deps, source), SpliceOne(d, deps, source);
            Splice(decls + [d], deps, source) ==
            if prev.Err? then prev else if one.Err? then Err(one.error) else Ok(prev.value + one.value)
  {
    assert (decls + [d])[..|decls + [d]| - 1] == decls;
    assert (decls + [d])[|decls + [d]| - 1] == d;
  }

  lemma {:induction false} SpliceOk(decls: seq<Decl>, deps: map<string, Sheet>, source: string)
    ensures Splice(decls, deps, source).Ok? <==> forall i :: 0 <= i < |decls| ==> decls[i].value in deps
    decreases |decls|
  {
    if decls != [] {
      var init := decls[..|decls| - 1];
      SpliceOk(init, deps, source);
      assert forall i :: 0 <= i < |init| ==> init[i] == decls[i];
    }
  }

  /** Splicing modules whose rules are clean gives clean rules. */
  lemma {:induction false} SpliceClean(decls: seq<Decl>, deps: map<string, Sheet>, source: string)
    requires forall a :: a in deps ==> Clean(deps[a].rules)
    requires Splice(decls, deps, source).Ok?
    ensures Clean(Splice(decls, deps, source).value)
    decreases |decls|
  {
    if decls != [] {
      SpliceClean(decls[..|decls| - 1], deps, source);
      var d := decls[|decls| - 1];
      var dep := deps[d.value];
      assert Clean([BeginMarker(dep.source, source)]);
      assert Clean([EndMarker(dep.source, source)]);
      CleanConcat([BeginMarker(dep.source, source)], dep.rules);
      CleanConcat([BeginMarker(dep.source, source)] + dep.rules, [EndMarker(dep.source, source)]);
      CleanConcat(Splice(decls[..|decls| - 1], deps, source).value, SpliceOne(d, deps, source).value);
    }
  }

  /* ---------------- Variables fallback ---------------- */

  /** One declaration of an ordinary rule: a value starting with `%` is a
      placeholder reference and is namespaced without being scanned; any
      other value has its variables substituted. Only the value changes. */
  function RewriteDecl(d: Decl, sc: Scope, source: string): (r: Outcome<Decl>)
    ensures r.Ok? ==> r.value == d.(value := r.value.value)
    ensures StartsWith(d.value, "%") ==> r.Ok? && IsNamespaced(r.value.value)
    ensures '$' !in d.value && !StartsWith(d.value, "%") ==> r == Ok(d)
    ensures r.Err? ==> r.error.position == d.position
  {
    if StartsWith(d.value, "%") then Ok(d.(value := Namespace(source, d.value)))
    else
      SubstituteLiteralWhen(d.value, sc, d.position);
      var v :- SubstituteValues(d.value, sc, d.position);
      Ok(d.(value := v))
  }

  lemma SubstituteLiteralWhen(content: string, sc: Scope, pos: Option<Position>)
    ensures '$' !in content ==> SubstituteValues(content, sc, pos) == Ok(content)
  {
    if '$' !in content {
      SubstituteLiteral(content, sc, pos);
    }
  }

  function RewriteDecls(decls: seq<Decl>, sc: Scope, source: string): (r: Outcome<seq<Decl>>)
    ensures r.Ok? ==> |r.value| == |decls|
    ensures r.Err? ==> exists i :: 0 <= i < |decls| && r.error.position == decls[i].position
    decreases |decls|
  {
    if decls == [] then Ok([])
    else
      var init := decls[..|decls| - 1];
      assert forall i :: 0 <= i < |init| ==> init[i] == decls[i];
      var prev :- RewriteDecls(init, sc, source);
      var d :- RewriteDecl(decls[|decls| - 1], sc, source);
      Ok(prev + [d])
  }

  /** Rewriting the declarations keeps their number, order, properties and
      positions. */
  lemma {:induction false} RewriteDeclsShape(decls: seq<Decl>, sc: Scope, source: string)
    requires RewriteDecls(decls, sc, source).Ok?
    ensures EraseValues(RewriteDecls(decls, sc, source).value) == EraseValues(decls)
    decreases |decls|
  {
    if decls != [] {
      var init := decls[..|decls| - 1];
      RewriteDeclsShape(init, sc, source);
      var r := RewriteDecls(decls, sc, source).value;
      assert |r| == |decls|;
      forall i | 0 <= i < |decls| ensures r[i].(value := "") == decls[i].(value := "") {
        if i < |init| {
          assert r[i] == RewriteDecls(init, sc, source).value[i];
          assert EraseValues(RewriteDecls(init, sc, source).value)[i] == EraseValues(init)[i];
        }
      }
    }
  }

  /** `parseVariables` on one rule: the declarations of a rule or frame are
      rewritten; a rule without declarations is kept as it is. */
  function RewriteRule(rule: Rule, sc: Scope, source: string): (r: Outcome<Rule>)
    ensures !(rule.Style? || rule.Frame?) ==> r == Ok(rule)
    ensures r.Err? ==> exists i :: 0 <= i < |rule.declarations| && r.error.position == rule.declarations[i].position
  {
    match rule
    case Style(sels, decls) =>
      var ds :- RewriteDecls(decls, sc, source);
      Ok(Style(sels, ds))
    case Frame(vals, decls) =>
      var ds :- RewriteDecls(decls, sc, source);
      Ok(Frame(vals, ds))
    case _ => Ok(rule)
  }

  lemma RewriteRuleShape(rule: Rule, sc: Scope, source: string)
    requires RewriteRule(rule, sc, source).Ok?
    ensures Skeleton(RewriteRule(rule, sc, source).value) == Skeleton(rule)
  {
    if rule.Style? || rule.Frame? {
      RewriteDeclsShape(rule.declarations, sc, source);
    }
  }

  /** `parseKeyframes`: every frame through the variables fallback. */
  function RewriteRules(rules: seq<Rule>, sc: Scope, source: string): (r: Outcome<seq<Rule>>)
    ensures r.Ok? ==> |r.value| == |rules|
    ensures r.Err? ==> exists i :: 0 <= i < |rules| && RewriteRule(rules[i], sc, source) == Err(r.error)
    decreases |rules|
  {
    if rules == [] then Ok([])
    else
      var init := rules[..|rules| - 1];
      assert forall i :: 0 <= i < |init| ==> init[i] == rules[i];
      var prev :- RewriteRules(init, sc, source);
      var r :- RewriteRule(rules[|rules| - 1], sc, source);
      Ok(prev + [r])
  }

  lemma {:induction false} RewriteRulesShape(rules: seq<Rule>, sc: Scope, source: string)
    requires RewriteRules(rules, sc, source).Ok?
    ensures |RewriteRules(rules, sc, source).value| == |rules|
    ensures forall i :: 0 <= i < |rules| ==> Skeleton(RewriteRules(rules, sc, source).value[i]) == Skeleton(rules[i])
    decreases |rules|
  {
    if rules != [] {
      var init := rules[..|rules| - 1];
      RewriteRulesShape(init, sc, source);
      RewriteRuleShape(rules[|rules| - 1], sc, source);
      var r := RewriteRules(rules, sc, source).value;
      forall i | 0 <= i < |init| ensures Skeleton(r[i]) == Skeleton(rules[i]) {
        assert r[i] == RewriteRules(init, sc, source).value[i];
      }
    }
  }

  /* ---------------- First failure decides ---------------- */

  /** Each handler stops at the first declaration (or frame) that fails: a
      prefix that fails makes the whole block fail with that same error. */
  lemma {:induction false} ExportsTableFirstError(decls: seq<Decl>, source: string, locals: map<string, string>, i: nat)
    requires i <= |decls| && ExportsTable(decls[..i], source, locals).Err?
    ensures ExportsTable(decls, source, locals) == ExportsTable(decls[..i], source, locals)
    decreases |decls| - i
  {
    if i < |decls| {
      var init := decls[..|decls| - 1];
      assert init[..i] == decls[..i];
      ExportsTableFirstError(init, source, locals, i);
    } else {
      assert decls[..i] == decls;
    }
  }

  lemma {:induction false} LocalsTableFirstError(decls: seq<Decl>, sc: Scope, i: nat)
    requires i <= |decls| && LocalsTable(decls[..i], sc).Err?
    ensures LocalsTable(decls, sc) == LocalsTable(decls[..i], sc)
    decreases |decls| - i
  {
    if i < |decls| {
      var init := decls[..|decls| - 1];
      assert init[..i] == decls[..i];
      LocalsTableFirstError(init, sc, i);
    } else {
      assert decls[..i] == decls;
    }
  }

  lemma {:induction false} SpliceFirstError(decls: seq<Decl>, deps: map<string, Sheet>, source: string, i: nat)
    requires i <= |decls| && Splice(decls[..i], deps, source).Err?
    ensures Splice(decls, deps, source) == Splice(decls[..i], deps, source)
    decreases |decls| - i
  {
    if i < |decls| {
      var init := decls[..|decls| - 1];
      assert init[..i] == decls[..i];
      SpliceFirstError(init, deps, source, i);
    } else {
      assert decls[..i] == decls;
    }
  }

  lemma {:induction false} RewriteDeclsFirstError(decls: seq<Decl>, sc: Scope, source: string, i: nat)
    requires i <= |decls| && RewriteDecls(decls[..i], sc, source).Err?
    ensures RewriteDecls(decls, sc, source) == RewriteDecls(decls[..i], sc, source)
    decreases |decls| - i
  {
    if i < |decls| {
      var init := decls[..|decls| - 1];
      assert init[..i] == decls[..i];
      RewriteDeclsFirstError(init, sc, source, i);
    } else {
      assert decls[..i] == decls;
    }
  }

  lemma {:induction false} RewriteRulesFirstError(rules: seq<Rule>, sc: Scope, source: string, i: nat)
    requires i <= |rules| && RewriteRules(rules[..i], sc, source).Err?
    ensures RewriteRules(rules, sc, source) == RewriteRules(rules[..i], sc, source)
    decreases |rules| - i
  {
    if i < |rules| {
      var init := rules[..|rules| - 1];
      assert init[..i] == rules[..i];
      RewriteRulesFirstError(init, sc, source, i);
    } else {
      assert rules[..i] == rules;
    }
  }
}
