/** The variable resolver: scanning a value for `$name` and `$alias/name`
    tokens (`substituteValues`, lib/modules.js:279-284) and looking each one
    up (`resolveValue`, `resolveLocal`, `resolveExported`,
    lib/modules.js:308-351). */
module Variables {
  import opened Wrappers
  import opened Strings
  import opened Css
  import opened Errors

  /** A character of `[-.\w/]`: the characters a variable name is made of. */
  predicate NameChar(c: char) {
    c == '-' || c == '.' || c == '/' || c == '_' ||
    ('a' <= c <= 'z') || ('A' <= c <= 'Z') || ('0' <= c <= '9')
  }

  predicate IsName(n: string) {
    n != "" && forall i :: 0 <= i < |n| ==> NameChar(n[i])
  }

  /** The longest prefix of `s` made of name characters. */
  function NameRun(s: string): (n: string)
    ensures |n| <= |s| && n == s[..|n|]
    ensures forall i :: 0 <= i < |n| ==> NameChar(n[i])
    ensures |n| == |s| || !NameChar(s[|n|])
  {
    if s != [] && NameChar(s[0]) then [s[0]] + NameRun(s[1..]) else []
  }

  /** A value cut into the pieces the global regular expression
      `/\$([-.\w/]+)/g` sees: single characters it leaves alone and the
      names of the tokens it matches. */
  datatype Piece = Text(c: char) | Var(name: string)

  /** Tokenises left to right: a `$` followed by a name character starts a
      token that runs as far as the name characters go. */
  function Scan(s: string): (ps: seq<Piece>)
    ensures |ps| == 0 <==> s == []
    ensures s != [] && s[0] != '$' ==> ps[0] == Text(s[0])
    ensures s != [] && s[0] == '$' ==> ps[0].Var? || ps[0] == Text('$')
    ensures Maximal(ps)
    decreases |s|
  {
    if s == [] then []
    else if s[0] == '$' && |s| > 1 && NameChar(s[1]) then
      var n := NameRun(s[1..]);
      var ps := [Var(n)] + Scan(s[1 + |n|..]);
      assert ps[1..] == Scan(s[1 + |n|..]);
      ps
    else
      var ps := [Text(s[0])] + Scan(s[1..]);
      assert ps[1..] == Scan(s[1..]);
      ps
  }

  /** Every token is a non-empty name, and neither a token nor a `$` left
      alone is followed by a name character: the matches are maximal. */
  ghost predicate Maximal(ps: seq<Piece>) {
    forall i :: 0 <= i < |ps| ==>
      (ps[i].Var? ==> IsName(ps[i].name)) &&
      ((ps[i].Var? || ps[i] == Text('$')) && i + 1 < |ps| ==> !(ps[i + 1].Text? && NameChar(ps[i + 1].c)))
  }

  /** The text the pieces were cut from. */
  function Unscan(ps: seq<Piece>): string {
    if ps == [] then ""
    else (match ps[0] case Text(c) => [c] case Var(n) => "$" + n) + Unscan(ps[1..])
  }

  /** Scanning loses nothing: the pieces put back together are the value. */
  lemma {:induction false} ScanRoundTrip(s: string)
    ensures Unscan(Scan(s)) == s
    decreases |s|
  {
    if s != [] {
      var ps := Scan(s);
      if s[0] == '$' && |s| > 1 && NameChar(s[1]) {
        var n := NameRun(s[1..]);
        ScanRoundTrip(s[1 + |n|..]);
        assert ps[1..] == Scan(s[1 + |n|..]);
        assert s == "$" + n + s[1 + |n|..];
      } else {
        ScanRoundTrip(s[1..]);
        assert ps[1..] == Scan(s[1..]);
        assert s == [s[0]] + s[1..];
      }
    }
  }

  lemma {:induction false} NameRunOfName(n: string)
    requires forall i :: 0 <= i < |n| ==> NameChar(n[i])
    ensures NameRun(n) == n
    decreases |n|
  {
    if n != [] {
      NameRunOfName(n[1..]);
      assert [n[0]] + n[1..] == n;
    }
  }

  /** What one module's walk can see: its own require table (alias with
      `$` -> module), its own locals table (`$name` -> value) and every
      module's export table, keyed by source name. */
  datatype Scope = Scope(deps: map<string, Sheet>, locals: map<string, string>, exports: map<string, map<string, string>>)

  /** `resolveLocal`: a non-empty value of the locals table. */
  function ResolveLocal(key: string, sc: Scope, pos: Option<Position>): (r: Outcome<string>)
    ensures r.Ok? <==> key in sc.locals && sc.locals[key] != ""
    ensures r.Ok? ==> r.value == sc.locals[key]
    ensures r.Err? ==> r.error == ParseError(VariableUndefined(key), pos)
  {
    if key in sc.locals && sc.locals[key] != "" then Ok(sc.locals[key])
    else Err(ParseError(VariableUndefined(key), pos))
  }

  /** `this.exports[resolved.source] || {}`: the export table of the module
      bound under `alias`, empty when that module exported nothing. */
  function ExportsOf(sc: Scope, alias: string): map<string, string>
    requires alias in sc.deps
  {
    if sc.deps[alias].source in sc.exports then sc.exports[sc.deps[alias].source] else map[]
  }

  /** `'$' + parts[1]`: the name looked up in that table; a key without a
      `/` has no second part, and JavaScript renders it `undefined`. */
  function Imported(parts: seq<string>): string {
    "$" + (if |parts| > 1 then parts[1] else "undefined")
  }

  /** `resolveExported`: `$alias/name` (only the first two `/`-separated
      parts count) is looked up as `$alias` in the require table and then as
      `$name` in the export table of the required module's source name. */
  function ResolveExported(key: string, sc: Scope, pos: Option<Position>): (r: Outcome<string>)
    ensures r.Ok? ==> r.value != ""
    ensures Split(key, '/')[0] !in sc.deps <==> r == Err(ParseError(NotRequired(Split(key, '/')[0]), pos))
    ensures r.Err? && Split(key, '/')[0] in sc.deps ==> r.error == ParseError(NotExported(key), pos)
    ensures Split(key, '/')[0] in sc.deps ==>
            var table := ExportsOf(sc, Split(key, '/')[0]);
            var imported := Imported(Split(key, '/'));
            (r.Ok? <==> imported in table && table[imported] != "") && (r.Ok? ==> r.value == table[imported])
  {
    var parts := Split(key, '/');
    var required := parts[0];
    if required !in sc.deps then Err(ParseError(NotRequired(required), pos))
    else
      var imported := Imported(parts);
      var exported := ExportsOf(sc, required);
      if imported in exported && exported[imported] != "" then Ok(exported[imported])
      else Err(ParseError(NotExported(key), pos))
  }

  /** `resolveValue`: a key with a `/` is an exported variable, any other
      key a local one; a found value is never empty. */
  function ResolveValue(key: string, sc: Scope, pos: Option<Position>): (r: Outcome<string>)
    ensures r.Ok? ==> r.value != ""
    ensures '/' !in key ==> r == ResolveLocal(key, sc, pos)
    ensures '/' in key ==> r == ResolveExported(key, sc, pos)
    ensures r.Err? ==> r.error.position == pos
  {
    if '/' in key then ResolveExported(key, sc, pos) else ResolveLocal(key, sc, pos)
  }

  function SubstitutePieces(ps: seq<Piece>, sc: Scope, pos: Option<Position>): (r: Outcome<string>)
    ensures r.Err? ==> r.error.position == pos
  {
    if ps == [] then Ok("")
    else
      var head :- match ps[0]
                  case Text(c) => Ok([c])
                  case Var(n) => ResolveValue("$" + n, sc, pos);
      var rest :- SubstitutePieces(ps[1..], sc, pos);
      Ok(head + rest)
  }

  /** `substituteValues`: every token replaced by its value, the first
      failing lookup failing the whole value. */
  function SubstituteValues(content: string, sc: Scope, pos: Option<Position>): (r: Outcome<string>)
    ensures r.Err? ==> r.error.position == pos
  {
    SubstitutePieces(Scan(content), sc, pos)
  }

  /** Text with no `$` comes back unchanged. */
  lemma {:induction false} SubstituteLiteral(content: string, sc: Scope, pos: Option<Position>)
    requires '$' !in content
    ensures SubstituteValues(content, sc, pos) == Ok(content)
    decreases |content|
  {
    if content != [] {
      SubstituteLiteral(content[1..], sc, pos);
      assert Scan(content)[1..] == Scan(content[1..]);
      assert [content[0]] + content[1..] == content;
    }
  }

  /** A value that is a single token is exactly that token's value. */
  lemma SubstituteToken(n: string, sc: Scope, pos: Option<Position>)
    requires IsName(n)
    ensures SubstituteValues("$" + n, sc, pos) == ResolveValue("$" + n, sc, pos)
  {
    var s := "$" + n;
    assert s[1..] == n;
    NameRunOfName(n);
    assert s[1 + |n|..] == [];
    assert Scan(s) == [Var(n)];
    assert Scan(s)[1..] == [];
    var r := ResolveValue("$" + n, sc, pos);
    assert SubstitutePieces([], sc, pos) == Ok("");
    if r.Ok? {
      assert r.value + "" == r.value;
      assert SubstitutePieces([Var(n)], sc, pos) == Ok(r.value + "");
    }
  }

  /** Every token among the pieces names a variable that resolves. */
  predicate AllResolve(ps: seq<Piece>, sc: Scope, pos: Option<Position>) {
    forall i :: 0 <= i < |ps| && ps[i].Var? ==> ResolveValue("$" + ps[i].name, sc, pos).Ok?
  }

  /** Substitution succeeds exactly when every token resolves. */
  lemma {:induction false} SubstitutePiecesOk(ps: seq<Piece>, sc: Scope, pos: Option<Position>)
    ensures SubstitutePieces(ps, sc, pos).Ok? <==> AllResolve(ps, sc, pos)
    decreases |ps|
  {
    if ps != [] {
      SubstitutePiecesOk(ps[1..], sc, pos);
      forall i | 1 <= i < |ps| ensures ps[i] == ps[1..][i - 1] { }
    }
  }

  lemma SubstituteOk(content: string, sc: Scope, pos: Option<Position>)
    ensures SubstituteValues(content, sc, pos).Ok? <==> AllResolve(Scan(content), sc, pos)
  {
    SubstitutePiecesOk(Scan(content), sc, pos);
  }
}
