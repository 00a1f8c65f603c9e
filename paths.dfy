/** The path resolver: `Parser.prototype.resolve` (lib/modules.js:144-148),
    with Node's `path.dirname` and `path.resolve` re-specified as a POSIX
    segment normaliser on strings. */
module Paths {
  import opened Strings

  /** A segment a canonical path may contain: not empty, not `.`, not `..`
      and free of `/`. */
  predicate PlainSegment(seg: string) {
    seg != "" && seg != "." && seg != ".." && '/' !in seg
  }

  predicate Canonical(segs: seq<string>) {
    forall i :: 0 <= i < |segs| ==> PlainSegment(segs[i])
  }

  /** A canonical module path: empty, or plain segments joined by `/`
      (no leading, trailing or doubled separator, no `.` or `..`). */
  predicate CanonicalPath(p: string) {
    p == "" || Canonical(Split(p, '/'))
  }

  /** Collapses `.`, `..` and empty segments onto a stack of directories,
      left to right; `..` at the root stays at the root, as for an absolute
      path in `path.resolve`. */
  function Normalize(stack: seq<string>, segs: seq<string>): (r: seq<string>)
    requires Canonical(stack)
    requires forall i :: 0 <= i < |segs| ==> '/' !in segs[i]
    ensures Canonical(r)
    decreases |segs|
  {
    if segs == [] then stack
    else if segs[0] == "" || segs[0] == "." then Normalize(stack, segs[1..])
    else if segs[0] == ".." then Normalize(if stack == [] then [] else stack[..|stack| - 1], segs[1..])
    else Normalize(stack + [segs[0]], segs[1..])
  }

  /** The non-empty segments of `s`. */
  function NonEmpty(segs: seq<string>): (r: seq<string>)
    ensures forall i :: 0 <= i < |r| ==> r[i] != ""
    ensures |r| <= |segs|
  {
    if segs == [] then []
    else if segs[0] == "" then NonEmpty(segs[1..])
    else [segs[0]] + NonEmpty(segs[1..])
  }

  /** The segments of `dirname('/' + source)`: every non-empty segment of
      `source` except the last one. */
  function Dir(source: string): (segs: seq<string>)
    ensures forall i :: 0 <= i < |segs| ==> '/' !in segs[i]
  {
    var all := NonEmpty(Split(source, '/'));
    assert forall i :: 0 <= i < |all| ==> '/' !in all[i] by {
      NonEmptyKeeps(Split(source, '/'));
    }
    if all == [] then [] else all[..|all| - 1]
  }

  lemma {:induction false} NonEmptyKeeps(segs: seq<string>)
    ensures forall i :: 0 <= i < |NonEmpty(segs)| ==> NonEmpty(segs)[i] in segs
  {
    if segs != [] {
      NonEmptyKeeps(segs[1..]);
    }
  }

  /** `resolve(source, target)`: a target that does not start with `.`
      names a package-root module and is returned as it is; otherwise the
      target is normalised against the directory of `source` and the
      leading `/` is dropped. */
  function Resolve(source: string, target: string): (r: string)
    ensures !StartsWith(target, ".") ==> r == target
    ensures StartsWith(target, ".") ==> CanonicalPath(r)
  {
    if !StartsWith(target, ".") then target
    else
      var segs := Normalize([], Dir(source) + Split(target, '/'));
      CanonicalJoin(segs);
      Join(segs, '/')
  }

  /** Joining canonical segments gives a canonical path whose segments are
      exactly those. */
  lemma CanonicalJoin(segs: seq<string>)
    requires Canonical(segs)
    ensures CanonicalPath(Join(segs, '/'))
    ensures segs != [] ==> Split(Join(segs, '/'), '/') == segs
  {
    if segs != [] {
      SplitJoin(segs, '/');
    }
  }

  /** Normalising segments that are already canonical pushes them unchanged. */
  lemma {:induction false} NormalizeCanonical(stack: seq<string>, segs: seq<string>)
    requires Canonical(stack) && Canonical(segs)
    ensures Normalize(stack, segs) == stack + segs
    decreases |segs|
  {
    if segs != [] {
      NormalizeCanonical(stack + [segs[0]], segs[1..]);
      assert stack + [segs[0]] + segs[1..] == stack + segs;
    }
  }

  /** A canonical path is a fixed point of normalisation: resolving `./p`
      from a module at the package root gives `p` back. */
  lemma ResolveCanonical(root: string, p: string)
    requires '/' !in root
    requires CanonicalPath(p)
    ensures Resolve(root, "./" + p) == p
  {
    SplitPlain(root, '/');
    assert Dir(root) == [];
    assert "./" + p == "." + ['/'] + p;
    SplitAfter(".", '/', p);
    SplitPlain(".", '/');
    var segs := Split(p, '/');
    assert Split("./" + p, '/') == ["."] + segs;
    assert ("./" + p)[..1] == ".";
    assert StartsWith("./" + p, ".");
    assert Dir(root) + Split("./" + p, '/') == ["."] + segs;
    assert Resolve(root, "./" + p) == Join(Normalize([], ["."] + segs), '/');
    if p == "" {
      assert segs == [""];
      assert Normalize([], ["."] + segs) == [];
    } else {
      NormalizeCanonical([], segs);
      assert (["."] + segs)[1..] == segs;
      assert Normalize([], ["."] + segs) == Normalize([], segs) == segs;
      JoinSplit(p);
    }
  }

  lemma JoinSplit(p: string)
    requires p != "" && Canonical(Split(p, '/'))
    ensures Join(Split(p, '/'), '/') == p
  {
    JoinSplitAny(p, '/');
  }

  lemma {:induction false} JoinSplitAny(s: string, sep: char)
    ensures Join(Split(s, sep), sep) == s
    decreases |s|
  {
    if s != [] {
      JoinSplitAny(s[1..], sep);
      var rest := Split(s[1..], sep);
      if s[0] == sep {
        assert Join([""] + rest, sep) == "" + [sep] + Join(rest, sep);
      } else {
        var parts := [[s[0]] + rest[0]] + rest[1..];
        if |rest| == 1 {
          assert Join(parts, sep) == [s[0]] + rest[0];
        } else {
          assert parts[1..] == rest[1..];
          assert Join(parts, sep) == [s[0]] + rest[0] + [sep] + Join(rest[1..], sep);
          assert Join(rest, sep) == rest[0] + [sep] + Join(rest[1..], sep);
        }
      }
      assert [s[0]] + s[1..] == s;
    }
  }

  /** Splitting `a/b` where neither side holds a separator. */
  lemma SplitPair(a: string, b: string)
    requires '/' !in a && '/' !in b
    ensures Split(a + "/" + b, '/') == [a, b]
  {
    SplitPlain(b, '/');
    SplitAfter(a, '/', b);
    assert a + "/" + b == a + ['/'] + b;
  }

  /** A sibling require: `./name` from `pkg/file` is `pkg/name`, the way
      the test cases name a package's files. */
  lemma ResolveSibling(pkg: string, file: string, name: string)
    requires PlainSegment(pkg) && PlainSegment(file) && PlainSegment(name)
    ensures Resolve(pkg + "/" + file, "./" + name) == pkg + "/" + name
  {
    DirOfFile(pkg, file);
    SplitPair(".", name);
    assert "./" + name == "." + "/" + name;
    assert ("./" + name)[..1] == ".";
    var n := Normalize([], [pkg] + [".", name]);
    assert n == [pkg, name] by {
      assert [pkg] + [".", name] == [pkg, ".", name];
      assert [pkg, ".", name][1..] == [".", name];
      assert [".", name][1..] == [name];
      assert Normalize([pkg], [name]) == [pkg, name];
      assert Normalize([pkg], [".", name]) == [pkg, name];
      assert [] + [pkg] == [pkg];
      assert Normalize([], [pkg, ".", name]) == Normalize([pkg], [".", name]);
    }
    assert Join([pkg, name], '/') == pkg + "/" + name;
  }

  /** The directory of `pkg/file` is `pkg`. */
  lemma DirOfFile(pkg: string, file: string)
    requires PlainSegment(pkg) && PlainSegment(file)
    ensures Dir(pkg + "/" + file) == [pkg]
  {
    SplitPair(pkg, file);
    assert NonEmpty([pkg, file]) == [pkg, file];
  }

  /** The directory of a bare package name is the root. */
  lemma DirOfPackage(pkg: string)
    requires PlainSegment(pkg)
    ensures Dir(pkg) == []
  {
    SplitPlain(pkg, '/');
    assert NonEmpty([pkg]) == [pkg];
  }

  lemma SplitParent(name: string)
    requires PlainSegment(name)
    ensures StartsWith("../" + name, ".")
    ensures Split("../" + name, '/') == ["..", name]
  {
    SplitPair("..", name);
    assert "../" + name == ".." + "/" + name;
    assert ("../" + name)[..1] == ".";
  }

  /** `..` climbs one directory. */
  lemma ResolveParent(pkg: string, file: string, name: string)
    requires PlainSegment(pkg) && PlainSegment(file) && PlainSegment(name)
    ensures Resolve(pkg + "/" + file, "../" + name) == name
  {
    DirOfFile(pkg, file);
    SplitParent(name);
    assert Normalize([], [pkg] + ["..", name]) == [name] by {
      assert [pkg] + ["..", name] == [pkg, "..", name];
      assert [pkg, "..", name][1..] == ["..", name];
      assert ["..", name][1..] == [name];
      assert Normalize([], [name]) == [name];
      assert Normalize([pkg], ["..", name]) == [name];
    }
  }

  /** `..` never climbs above the root. */
  lemma ResolveAboveRoot(pkg: string, name: string)
    requires PlainSegment(pkg) && PlainSegment(name)
    ensures Resolve(pkg, "../" + name) == name
  {
    DirOfPackage(pkg);
    SplitParent(name);
    assert Normalize([], [] + ["..", name]) == [name] by {
      assert [] + ["..", name] == ["..", name];
      assert ["..", name][1..] == [name];
      assert Normalize([], [name]) == [name];
    }
  }
}
