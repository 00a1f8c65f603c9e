/** A module table entry loaded twice under two source names: a package
    `p` whose entry module requires `x`, found as `p/deps/x`; `x` requires
    its sibling `./y`, which from the top-level name `x` is the top-level
    module `y`; and `y` requires `p/deps/x` by its full path. Nothing is
    cached while the first walk of `p/deps/x` runs, so `p/deps/x` is walked
    again inside it, this time under its full path, where `./y` names
    `p/deps/y`. The source finishes this session, and so does the model. */
module Reentry {
  import opened Wrappers
  import opened Strings
  import opened Paths
  import opened Css
  import opened Session

  /** A `:require` block binding one alias. */
  function RequireOf(alias: string, specifier: string): Rule {
    Style([":require"], [Decl(alias, specifier, None)])
  }

  /** The entries the session reads, for package `p` and modules `x`, `y`. */
  predicate SharedPackage(m: map<string, Entry>, p: string, x: string, y: string) {
    && PlainSegment(p) && PlainSegment(x) && PlainSegment(y)
    && !StartsWith(p, ".") && !StartsWith(x, ".")
    && p in m && m[p] == Alias(p + "/index")
    && p + "/index" in m && m[p + "/index"] == Source("", [RequireOf("a", x)])
    && p + "/deps/" + x in m && m[p + "/deps/" + x] == Source("", [RequireOf("d", "./" + y)])
    && y in m && m[y] == Source("", [RequireOf("e", p + "/deps/" + x)])
    && p + "/deps/" + y in m && m[p + "/deps/" + y] == Source("", [])
    && x !in m
  }

  /** The table with `p`, `x` and `y` spelled out is such a table. */
  lemma SharedPackageExists()
    ensures SharedPackage(map["p" := Alias("p/index"),
                              "p/index" := Source("", [RequireOf("a", "x")]),
                              "p/deps/x" := Source("", [RequireOf("d", "./y")]),
                              "y" := Source("", [RequireOf("e", "p/deps/x")]),
                              "p/deps/y" := Source("", [])], "p", "x", "y")
  {
    assert "p" + "/index" == "p/index";
    assert "p" + "/deps/" + "x" == "p/deps/x";
    assert "p" + "/deps/" + "y" == "p/deps/y";
    assert "./" + "y" == "./y";
  }

  /** A producer whose whole tree is one single-binding `:require` block
      loads when the module it requires loads from the state the block
      starts from. */
  lemma RequireOnlyLoads(modules: map<string, Entry>, st: State, path: string, position: Option<Position>,
                         parent: string, depth: nat, key: string, alias: string, specifier: string,
                         target: string, package: string)
    requires path !in st.cache && depth > 0
    requires Find(modules, path, parent) == Some((key, Source("", [RequireOf(alias, specifier)])))
    requires Resolve(path, specifier) == target && Split(path, '/')[0] == package
    requires LoadResult(modules, st.(invoked := st.invoked + [key]).(required := st.required[path := map[]]),
                        target, None, package, depth - 1).0.Ok?
    ensures LoadResult(modules, st, path, position, parent, depth).0.Ok?
  {
    var rule := RequireOf(alias, specifier);
    assert Select(rule, ":require");
    var st1 := st.(invoked := st.invoked + [key]);
    assert [Decl(alias, specifier, None)][1..] == [];
    RequireRule(modules, st1, rule, path, depth - 1);
    assert [rule][1..] == [];
    LoadProducer(modules, st, path, position, parent, depth, key, "", [rule]);
  }

  /** The package of `p/rest` is `p`. */
  lemma PackageOf(p: string, rest: string)
    requires '/' !in p
    ensures Split(p + "/" + rest, '/')[0] == p
  {
    SplitAfter(p, '/', rest);
    assert p + "/" + rest == p + ['/'] + rest;
  }

  /** A name without `/` is its own package. */
  lemma TopLevel(s: string)
    requires '/' !in s
    ensures Split(s, '/')[0] == s
  {
    SplitPlain(s, '/');
  }

  /** The directory of `p/deps/x` is `p/deps`. */
  lemma DirInDeps(p: string, x: string)
    requires PlainSegment(p) && PlainSegment(x)
    ensures Dir(p + "/deps/" + x) == [p, "deps"]
  {
    SplitPair("deps", x);
    assert "deps/" + x == "deps" + "/" + x;
    SplitAfter(p, '/', "deps/" + x);
    assert p + "/deps/" + x == p + ['/'] + ("deps/" + x);
    assert Split(p + "/deps/" + x, '/') == [p, "deps", x];
    assert NonEmpty([p, "deps", x][1..][1..]) == [x];
    assert NonEmpty([p, "deps", x][1..]) == ["deps", x];
    assert NonEmpty([p, "deps", x]) == [p, "deps", x];
  }

  /** `p/deps` then `./y` normalises to `p/deps/y`. */
  lemma NormalizeInDeps(p: string, y: string)
    requires PlainSegment(p) && PlainSegment(y)
    ensures Normalize([], [p, "deps"] + [".", y]) == [p, "deps", y]
  {
    var segs := [p, "deps", ".", y];
    assert [p, "deps"] + [".", y] == segs;
    assert segs[1..] == ["deps", ".", y] && segs[1..][1..] == [".", y] && segs[1..][1..][1..] == [y];
    assert Normalize([p, "deps"], [y]) == [p, "deps", y];
    assert Normalize([p, "deps"], [".", y]) == [p, "deps", y];
    assert [p] + ["deps"] == [p, "deps"];
    assert Normalize([p], ["deps", ".", y]) == [p, "deps", y];
    assert [] + [p] == [p];
  }

  lemma JoinInDeps(p: string, y: string)
    ensures Join([p, "deps", y], '/') == p + "/deps/" + y
  {
    assert [p, "deps", y][1..] == ["deps", y] && ["deps", y][1..] == [y];
    assert Join(["deps", y], '/') == "deps" + "/" + y;
    assert p + "/" + ("deps" + "/" + y) == p + "/deps/" + y;
  }

  /** `./y` from `p/deps/x` is `p/deps/y`. */
  lemma ResolveInDeps(p: string, x: string, y: string)
    requires PlainSegment(p) && PlainSegment(x) && PlainSegment(y)
    ensures Resolve(p + "/deps/" + x, "./" + y) == p + "/deps/" + y
  {
    DirInDeps(p, x);
    SplitPair(".", y);
    assert "./" + y == "." + "/" + y;
    assert StartsWith("./" + y, ".");
    NormalizeInDeps(p, y);
    JoinInDeps(p, y);
  }

  /** `p/deps/y` has nothing to walk. */
  lemma LoadsDepsY(modules: map<string, Entry>, st: State, p: string, x: string, y: string, depth: nat)
    requires SharedPackage(modules, p, x, y) && depth >= 1
    ensures LoadResult(modules, st, p + "/deps/" + y, None, p, depth).0.Ok?
  {
  }

  /** `p/deps/x` loaded by its full path: `./y` is `p/deps/y`. */
  lemma LoadsDepsX(modules: map<string, Entry>, st: State, p: string, x: string, y: string, depth: nat)
    requires SharedPackage(modules, p, x, y) && depth >= 2
    ensures LoadResult(modules, st, p + "/deps/" + x, None, y, depth).0.Ok?
  {
    var path := p + "/deps/" + x;
    if path !in st.cache {
      PackageOf(p, "deps/" + x);
      assert p + "/" + ("deps/" + x) == path;
      ResolveInDeps(p, x, y);
      LoadsDepsY(modules, st.(invoked := st.invoked + [path]).(required := st.required[path := map[]]), p, x, y, depth - 1);
      RequireOnlyLoads(modules, st, path, None, y, depth, path, "d", "./" + y, p + "/deps/" + y, p);
    }
  }

  /** `y` loads `p/deps/x` afresh, since the walk of `x` has not cached it. */
  lemma LoadsY(modules: map<string, Entry>, st: State, p: string, x: string, y: string, depth: nat)
    requires SharedPackage(modules, p, x, y) && depth >= 3
    ensures LoadResult(modules, st, y, None, x, depth).0.Ok?
  {
    if y !in st.cache {
      TopLevel(y);
      var target := p + "/deps/" + x;
      assert !StartsWith(target, ".") by {
        assert target[..1] == p[..1];
      }
      LoadsDepsX(modules, st.(invoked := st.invoked + [y]).(required := st.required[y := map[]]), p, x, y, depth - 1);
      RequireOnlyLoads(modules, st, y, None, x, depth, y, "e", target, target, y);
    }
  }

  /** `x`, found as `p/deps/x` under the name `x`: `./y` is the top-level `y`. */
  lemma LoadsX(modules: map<string, Entry>, st: State, p: string, x: string, y: string, depth: nat)
    requires SharedPackage(modules, p, x, y) && depth >= 4
    ensures LoadResult(modules, st, x, None, p, depth).0.Ok?
  {
    if x !in st.cache {
      TopLevel(x);
      SplitPlain(y, '/');
      ResolveCanonical(x, y);
      var key := p + "/deps/" + x;
      LoadsY(modules, st.(invoked := st.invoked + [key]).(required := st.required[x := map[]]), p, x, y, depth - 1);
      RequireOnlyLoads(modules, st, x, None, p, depth, key, "d", "./" + y, y, x);
    }
  }

  /** The package's entry module. */
  lemma LoadsIndex(modules: map<string, Entry>, st: State, p: string, x: string, y: string, depth: nat)
    requires SharedPackage(modules, p, x, y) && depth >= 5
    ensures LoadResult(modules, st, p + "/index", None, "", depth).0.Ok?
  {
    var path := p + "/index";
    if path !in st.cache {
      PackageOf(p, "index");
      assert p + "/" + "index" == path;
      LoadsX(modules, st.(invoked := st.invoked + [path]).(required := st.required[path := map[]]), p, x, y, depth - 1);
      RequireOnlyLoads(modules, st, path, None, "", depth, path, "a", x, x, p);
    }
  }

  /** The session compiles once the stack allows six nested loads. */
  lemma SharedPackageCompiles(modules: map<string, Entry>, p: string, x: string, y: string, depth: nat)
    requires SharedPackage(modules, p, x, y) && depth >= 6
    ensures CompileResult(modules, p, depth).Ok?
  {
    LoadAlias(modules, Initial, p, None, "", depth, p + "/index");
    LoadsIndex(modules, Initial, p, x, y, depth - 1);
  }
}
