/** The style-sheet tree the engine works on: the shape the external CSS
    parser produces (rules, declarations, positions), abstracted to what
    lib/modules.js reads and writes, and the classification of a rule into
    the one handler that processes it. */
module Css {
  import opened Wrappers
  import opened Strings

  /** Where a declaration starts: `position.source`, `position.start.line`
      and `position.start.column`. */
  datatype Position = Position(source: string, line: nat, column: nat)

  datatype Decl = Decl(property: string, value: string, position: Option<Position>)

  /** The four conditional-group wrappers that hold nested rules. */
  datatype GroupKind = Media | Supports | Host | Document

  datatype Rule =
    | Style(selectors: seq<string>, declarations: seq<Decl>)  // `rule`, `page`, `font-face`
    | Frame(values: seq<string>, declarations: seq<Decl>)     // one frame of a keyframes rule
    | Keyframes(name: string, frames: seq<Rule>)
    | Group(kind: GroupKind, rules: seq<Rule>)
    | Comment(text: string)
    | AtRule(name: string)                                    // `import`, `charset`, ...: no declarations

  /** A loaded module: its source name and its resolved top-level rules. */
  datatype Sheet = Sheet(source: string, rules: seq<Rule>)

  /** `select(rule, prefix)`: the rule has a first selector, it is not empty,
      and it starts with `prefix`. */
  predicate Select(rule: Rule, prefix: string): (b: bool)
    ensures b ==> rule.Style? && |rule.selectors| > 0
    ensures prefix != "" && rule.Style? && |rule.selectors| > 0 ==> (b <==> StartsWith(rule.selectors[0], prefix))
  {
    rule.Style? && |rule.selectors| > 0 && rule.selectors[0] != "" && StartsWith(rule.selectors[0], prefix)
  }

  /** The terminal handlers of the rule walker. */
  datatype Handler =
    | OnKeyframes | OnGroup | OnRequire | OnContent | OnExports | OnLocals | OnPlaceholder | OnVariables

  /** The handler `parse` sends a rule to, tried in the source's order:
      keyframes, a conditional group (walked, then re-emitted by the
      variables fallback since it has no declarations), `:require`,
      `:content`, `:exports`, `:locals`, `%`, and otherwise the variables
      fallback. */
  function Classify(rule: Rule): (h: Handler)
    ensures h == OnKeyframes <==> rule.Keyframes?
    ensures h == OnGroup <==> rule.Group?
    ensures h == OnRequire <==> Select(rule, ":require")
    ensures h == OnContent <==> Select(rule, ":content")
    ensures h == OnExports <==> Select(rule, ":exports")
    ensures h == OnLocals <==> Select(rule, ":locals")
    ensures h == OnPlaceholder <==> Select(rule, "%")
  {
    SelectExclusive(rule);
    if rule.Keyframes? then OnKeyframes
    else if rule.Group? then OnGroup
    else if Select(rule, ":require") then OnRequire
    else if Select(rule, ":content") then OnContent
    else if Select(rule, ":exports") then OnExports
    else if Select(rule, ":locals") then OnLocals
    else if Select(rule, "%") then OnPlaceholder
    else OnVariables
  }

  /** The five directive prefixes exclude one another, so the order in which
      `parse` tries them never decides between two of them. */
  lemma SelectExclusive(rule: Rule)
    ensures Select(rule, ":require") ==> !Select(rule, ":content") && !Select(rule, ":exports") && !Select(rule, ":locals") && !Select(rule, "%")
    ensures Select(rule, ":content") ==> !Select(rule, ":exports") && !Select(rule, ":locals") && !Select(rule, "%")
    ensures Select(rule, ":exports") ==> !Select(rule, ":locals") && !Select(rule, "%")
    ensures Select(rule, ":locals") ==> !Select(rule, "%")
  {
    if rule.Style? && |rule.selectors| > 0 {
      var s := rule.selectors[0];
      if |s| >= 2 {
        assert StartsWith(s, ":require") ==> s[1] == ":require"[1];
        assert StartsWith(s, ":content") ==> s[1] == ":content"[1];
        assert StartsWith(s, ":exports") ==> s[1] == ":exports"[1];
        assert StartsWith(s, ":locals") ==> s[1] == ":locals"[1];
      }
      assert StartsWith(s, "%") ==> s[0] == '%';
      assert StartsWith(s, ":locals") ==> s[0] == ':';
      assert StartsWith(s, ":exports") ==> s[0] == ':';
      assert StartsWith(s, ":content") ==> s[0] == ':';
      assert StartsWith(s, ":require") ==> s[0] == ':';
    }
  }

  /** Handlers that consume their rule and put nothing of it in the output. */
  predicate Directive(h: Handler) {
    h == OnRequire || h == OnContent || h == OnExports || h == OnLocals || h == OnPlaceholder
  }

  /** A walked rule list: no `:require`, `:content`, `:exports`, `:locals`
      or `%` rule is left in it or in any conditional group inside it. */
  ghost predicate Clean(rules: seq<Rule>)
    decreases rules
  {
    forall i :: 0 <= i < |rules| ==>
      !Directive(Classify(rules[i])) && (rules[i].Group? ==> Clean(rules[i].rules))
  }

  lemma CleanConcat(a: seq<Rule>, b: seq<Rule>)
    requires Clean(a) && Clean(b)
    ensures Clean(a + b)
  {
    forall i | 0 <= i < |a + b|
      ensures !Directive(Classify((a + b)[i])) && ((a + b)[i].Group? ==> Clean((a + b)[i].rules))
    {
      if i < |a| { assert (a + b)[i] == a[i]; } else { assert (a + b)[i] == b[i - |a|]; }
    }
  }

  /** The declaration list with every value erased. */
  function EraseValues(decls: seq<Decl>): (r: seq<Decl>)
    ensures |r| == |decls|
    ensures forall i :: 0 <= i < |decls| ==> r[i] == decls[i].(value := "")
  {
    seq(|decls|, i requires 0 <= i < |decls| => decls[i].(value := ""))
  }

  /** What of a rule the walker never changes: its kind, selectors, frame
      values, property names and positions (declaration values and the
      contents of a conditional group are dropped). */
  function Skeleton(rule: Rule): Rule
    decreases rule
  {
    match rule
    case Style(sels, decls) => Style(sels, EraseValues(decls))
    case Frame(vals, decls) => Frame(vals, EraseValues(decls))
    case Keyframes(name, frames) =>
      Keyframes(name, seq(|frames|, i requires 0 <= i < |frames| => Skeleton(frames[i])))
    case Group(kind, _) => Group(kind, [])
    case Comment(_) => rule
    case AtRule(_) => rule
  }

  /** A rule with the same skeleton is sent to the same handler. */
  lemma SkeletonClassify(a: Rule, b: Rule)
    requires Skeleton(a) == Skeleton(b)
    ensures Classify(a) == Classify(b)
  {
  }

  /** Number of rules, counting those inside conditional groups: the rule
      walker recurses on it. */
  function Size(rules: seq<Rule>): nat
    decreases rules
  {
    if rules == [] then 0
    else (if rules[0].Group? then 1 + Size(rules[0].rules) else 1) + Size(rules[1..])
  }

  lemma {:induction false} SizeOfElement(rules: seq<Rule>, i: nat)
    requires i < |rules|
    ensures Size([rules[i]]) <= Size(rules)
    decreases i
  {
    assert [rules[i]][1..] == [];
    if i > 0 {
      SizeOfElement(rules[1..], i - 1);
      assert rules[1..][i - 1] == rules[i];
    }
  }
}
