/** The injector's rendering: for each extracted name in list order, one global
    `String.prototype.replace` with the pattern `\{\{\s*name\s*\}\}` and the replacement
    `values[name] || "{{name}}"`.

    `values` is a plain object literal, so `values[name]` finds the own keys typed so far and,
    failing those, the members every object inherits from `Object.prototype`. `Lookup` gives the
    JavaScript value the replacement then is, and `Pass` the outcome of the `replace` call for
    each kind of value: a replacement string with its `$` patterns (`Replace`), a function
    called on every match, or a `TypeError` thrown from that function.

    `Fill` is an independent, single-pass reference: every placeholder of the original text
    replaced by its value. `RenderMatchesSinglePass` states when the sequence of passes and the
    single pass agree. */
module Rendering {
  import opened Chars
  import opened Records
  import opened Placeholders

  /** `{{name}}`: the canonical spelling, used when a value is missing or empty. */
  function Canonical(v: string): string {
    TokenText("", v, "")
  }

  /** The replacement for a name whose lookup finds an own key or nothing at all:
      `values[v] || "{{v}}"`, where the empty string is falsy, as is a missing key. */
  function Replacement(values: map<string, string>, v: string): string {
    if v in values && values[v] != "" then values[v] else Canonical(v)
  }

  /** The properties every object literal inherits from `Object.prototype` (section 20.1.3 of
      ECMA-262 and its annex B.2.2), `__proto__` among them. */
  const ObjectPrototypeNames: set<string> := {
    "constructor", "hasOwnProperty", "isPrototypeOf", "propertyIsEnumerable", "toLocaleString",
    "toString", "valueOf", "__proto__", "__defineGetter__", "__defineSetter__",
    "__lookupGetter__", "__lookupSetter__"}

  /** The value `replace` receives, as far as it matters to `replace`: a string, which may use
      `$` patterns; a function that returns a fixed string, or returns the match itself; or a
      function that throws. */
  datatype Replacer = Text(s: string) | Returns(s: string) | ReturnsMatch | Throws

  /** A name that is an own key of `values`, or that no object inherits, is looked up as a
      map would be. */
  predicate OwnLookup(values: map<string, string>, v: string) {
    v in values || v !in ObjectPrototypeNames
  }

  /** `values[v] || "{{v}}"` as a replacement value. An own key (typed text, even `""`) or a
      missing name behaves like a map. A name inherited from `Object.prototype` yields, for
      `__proto__`, the prototype object itself, which `replace` turns into `"[object Object]"`;
      for every other name a built-in function, which `replace` calls with the match and
      `this` undefined: `toString` returns `"[object Undefined]"`, `isPrototypeOf` returns
      `false` (a string is not an object), `constructor` (`Object`) wraps the match, which
      converts back to the match, and each of the others converts `this` to an object first
      and throws a `TypeError`. */
  function Lookup(values: map<string, string>, v: string): (r: Replacer)
    ensures OwnLookup(values, v) ==> r == Text(Replacement(values, v))
    ensures r.Throws? <==> !OwnLookup(values, v) && v !in {"__proto__", "toString", "isPrototypeOf", "constructor"}
  {
    if OwnLookup(values, v) then Text(Replacement(values, v))
    else if v == "__proto__" then Text("[object Object]")
    else if v == "toString" then Returns("[object Undefined]")
    else if v == "isPrototypeOf" then Returns("false")
    else if v == "constructor" then ReturnsMatch
    else Throws
  }

  predicate NoDollar(s: string) {
    forall i :: 0 <= i < |s| ==> s[i] != '$'
  }

  /** The replacement text JavaScript inserts for one match (GetSubstitution, section 22.1.3.19.1
      of ECMA-262): `$$` is `$`, `$&` the match, `` $` `` the text before it, `$'` the text after
      it; the pattern has no capture groups, so every other `$` stands for itself. */
  function Expand(r: string, matched: string, before: string, after: string): string
    decreases |r|
  {
    if r == [] then []
    else if r[0] == '$' && |r| >= 2 && r[1] == '$' then "$" + Expand(r[2..], matched, before, after)
    else if r[0] == '$' && |r| >= 2 && r[1] == '&' then matched + Expand(r[2..], matched, before, after)
    else if r[0] == '$' && |r| >= 2 && r[1] == '`' then before + Expand(r[2..], matched, before, after)
    else if r[0] == '$' && |r| >= 2 && r[1] == '\'' then after + Expand(r[2..], matched, before, after)
    else [r[0]] + Expand(r[1..], matched, before, after)
  }

  /** A replacement string without `$` is inserted as it is. */
  lemma {:induction false} ExpandLiteral(r: string, matched: string, before: string, after: string)
    requires NoDollar(r)
    ensures Expand(r, matched, before, after) == r
    decreases |r|
  {
    if r != [] {
      assert NoDollar(r[1..]) by {
        forall i | 0 <= i < |r[1..]| ensures r[1..][i] != '$' { assert r[1..][i] == r[i + 1]; }
      }
      ExpandLiteral(r[1..], matched, before, after);
      assert [r[0]] + r[1..] == r;
    }
  }

  /** The global replace of the pattern for `v` by `r` in the text `t` that follows `before`
      in the original string: matches are found left to right, without overlapping, in the
      original string. */
  function ReplaceFrom(before: string, t: string, v: string, r: string): string
    decreases |t|
  {
    if t == [] then []
    else match NamedTokenPrefix(t, v)
      case Some(n) => Expand(r, t[..n], before, t[n..]) + ReplaceFrom(before + t[..n], t[n..], v, r)
      case None => [t[0]] + ReplaceFrom(before + [t[0]], t[1..], v, r)
  }

  /** `s.replace(new RegExp("\\{\\{\\s*" + v + "\\s*\\}\\}", "g"), r)` for a replacement string `r`. */
  function Replace(s: string, v: string, r: string): string {
    ReplaceFrom([], s, v, r)
  }

  /** The same global replace with a replacement inserted literally. */
  function ReplaceLit(t: string, v: string, r: string): string
    decreases |t|
  {
    if t == [] then []
    else match NamedTokenPrefix(t, v)
      case Some(n) => r + ReplaceLit(t[n..], v, r)
      case None => [t[0]] + ReplaceLit(t[1..], v, r)
  }

  /** A replacement without `$` is inserted literally, wherever the matches are. */
  lemma {:induction false} ReplaceFromLiteral(before: string, t: string, v: string, r: string)
    requires NoDollar(r)
    ensures ReplaceFrom(before, t, v, r) == ReplaceLit(t, v, r)
    decreases |t|
  {
    if t != [] {
      match NamedTokenPrefix(t, v)
      case Some(n) =>
        ExpandLiteral(r, t[..n], before, t[n..]);
        ReplaceFromLiteral(before + t[..n], t[n..], v, r);
      case None =>
        ReplaceFromLiteral(before + [t[0]], t[1..], v, r);
    }
  }

  /** The same global replace with a function as the replacement: the function is called on
      each match in turn, and what it returns is inserted as it is, with no `$` patterns. */
  function ReplaceCalls(t: string, v: string, f: string -> string): string
    decreases |t|
  {
    if t == [] then []
    else match NamedTokenPrefix(t, v)
      case Some(n) => f(t[..n]) + ReplaceCalls(t[n..], v, f)
      case None => [t[0]] + ReplaceCalls(t[1..], v, f)
  }

  /** A function that returns the same string for every match inserts it literally. */
  lemma {:induction false} ReplaceCallsConst(t: string, v: string, f: string -> string, r: string)
    requires forall m :: f(m) == r
    ensures ReplaceCalls(t, v, f) == ReplaceLit(t, v, r)
    decreases |t|
  {
    if t != [] {
      match NamedTokenPrefix(t, v)
      case Some(n) => ReplaceCallsConst(t[n..], v, f, r);
      case None => ReplaceCallsConst(t[1..], v, f, r);
    }
  }

  /** A function that returns each match itself leaves the text as it was. */
  lemma {:induction false} ReplaceCallsEcho(t: string, v: string, f: string -> string)
    requires forall m :: f(m) == m
    ensures ReplaceCalls(t, v, f) == t
    decreases |t|
  {
    if t != [] {
      match NamedTokenPrefix(t, v)
      case Some(n) =>
        ReplaceCallsEcho(t[n..], v, f);
        SplitAt(t, n);
      case None =>
        ReplaceCallsEcho(t[1..], v, f);
        SplitAt(t, 1);
    }
  }

  /** The pattern for `v` matches somewhere in `t`. */
  predicate HasMatch(t: string, v: string) {
    exists i :: 0 <= i < |t| && NamedTokenPrefix(t[i..], v).Some?
  }

  /** One pass: the `replace` call for `v` with the replacement value `rep`. `None` is the
      `TypeError` a throwing function raises at the first match; with no match it is never
      called. */
  function Pass(s: string, v: string, rep: Replacer): Option<string> {
    match rep
    case Text(r) => Some(Replace(s, v, r))
    case Returns(r) => Some(ReplaceCalls(s, v, _ => r))
    case ReturnsMatch => Some(ReplaceCalls(s, v, m => m))
    case Throws => if HasMatch(s, v) then None else Some(s)
  }

  /** The text after the passes for the names `vars`, in list order (the `forEach` over
      `variables` that reassigns `filledContent`), or `None` once a pass has thrown: the
      exception leaves the loop and the memoised computation. */
  function Rendered(content: string, vars: seq<string>, values: map<string, string>): Option<string>
    decreases |vars|
  {
    if vars == [] then Some(content)
    else
      var v := vars[|vars| - 1];
      match Rendered(content, vars[..|vars| - 1], values)
      case None => None
      case Some(s) => Pass(s, v, Lookup(values, v))
  }

  /** Every placeholder of `t` names an own key or a name no object inherits. */
  predicate NoInheritedLookup(t: string, values: map<string, string>) {
    forall n :: n in ScanNames(t) ==> OwnLookup(values, n)
  }

  /** Every value is free of `{` and of `$`: a value can neither start a placeholder nor use
      a replacement pattern. */
  predicate Safe(values: map<string, string>) {
    forall n :: n in values ==> NoOpenBrace(values[n]) && NoDollar(values[n])
  }

  /** The map is empty or every value in it is `""`. */
  predicate Blank(values: map<string, string>) {
    forall n :: n in values ==> values[n] == ""
  }

  /** Every `{{` the scan reaches starts a placeholder. */
  predicate WellFormed(t: string)
    decreases |t|
  {
    t == [] ||
    match TokenPrefix(t)
    case Some(tok) => WellFormed(t[tok.len..])
    case None => !(|t| >= 2 && t[0] == '{' && t[1] == '{') && WellFormed(t[1..])
  }

  /** The reference rendering: one scan over the original text, each placeholder replaced by
      its value (or by its canonical spelling). */
  function Fill(t: string, values: map<string, string>): string
    decreases |t|
  {
    if t == [] then []
    else match TokenPrefix(t)
      case Some(tok) => Replacement(values, tok.name) + Fill(t[tok.len..], values)
      case None => [t[0]] + Fill(t[1..], values)
  }

  /** The rendering with an empty value map: every placeholder in its canonical spelling. */
  function Canonicalize(t: string): string {
    Fill(t, map[])
  }

  /** Every placeholder of `t` is already written canonically. */
  predicate IsCanonical(t: string)
    decreases |t|
  {
    t == [] ||
    match TokenPrefix(t)
    case Some(tok) => t[..tok.len] == Canonical(tok.name) && IsCanonical(t[tok.len..])
    case None => IsCanonical(t[1..])
  }

  /** The single pass restricted to the names in `V`: placeholders for other names are kept as
      written. This is the state after the passes for the names in `V`. */
  function FillOnly(t: string, values: map<string, string>, V: set<string>): string
    decreases |t|
  {
    if t == [] then []
    else match TokenPrefix(t)
      case Some(tok) =>
        (if tok.name in V then Replacement(values, tok.name) else t[..tok.len]) + FillOnly(t[tok.len..], values, V)
      case None => [t[0]] + FillOnly(t[1..], values, V)
  }

  /** The rendering loop: one replace pass per listed name, in order; a pass that throws ends
      the loop. */
  method Render(content: string, vars: seq<string>, values: map<string, string>) returns (filled: Option<string>)
    ensures filled == Rendered(content, vars, values)
    ensures vars == Variables(content) && NoInheritedLookup(content, values) ==>
      Safe(values) && (WellFormed(content) || Blank(values)) ==> filled == Some(Fill(content, values))
  {
    var text := content;
    for i := 0 to |vars|
      invariant Rendered(content, vars[..i], values) == Some(text)
    {
      assert vars[..i + 1][..i] == vars[..i];
      var next := Pass(text, vars[i], Lookup(values, vars[i]));
      if next.None? {
        RenderedStaysFailed(content, vars, values, i + 1);
        return None;
      }
      text := next.value;
    }
    assert vars[..|vars|] == vars;
    filled := Some(text);
    if vars == Variables(content) && NoInheritedLookup(content, values) && Safe(values) &&
      (WellFormed(content) || Blank(values)) {
      RenderMatchesSinglePass(content, values);
    }
  }

  /** Once a pass has thrown, the later passes do not run. */
  lemma {:induction false} RenderedStaysFailed(content: string, vars: seq<string>, values: map<string, string>, k: nat)
    requires k <= |vars| && Rendered(content, vars[..k], values).None?
    ensures Rendered(content, vars, values).None?
    decreases |vars| - k
  {
    if k < |vars| {
      assert vars[..k + 1][..k] == vars[..k];
      RenderedStaysFailed(content, vars, values, k + 1);
    } else {
      assert vars[..k] == vars;
    }
  }

  // ---------------------------------------------------------------------------------------
  // Passing over text the pattern for `v` cannot match.

  lemma {:induction false} ReplaceLitPlain(a: string, b: string, v: string, r: string)
    requires NoOpenBrace(a)
    ensures ReplaceLit(a + b, v, r) == a + ReplaceLit(b, v, r)
  {
    if a == [] {
      assert a + b == b;
    } else {
      assert (a + b)[0] == a[0];
      assert (a + b)[1..] == a[1..] + b;
      assert NoOpenBrace(a[1..]) by {
        forall i | 0 <= i < |a[1..]| ensures a[1..][i] != '{' { assert a[1..][i] == a[i + 1]; }
      }
      ReplaceLitStep(a + b, v, r);
      ReplaceLitPlain(a[1..], b, v, r);
      var f := ReplaceLit(b, v, r);
      assert ReplaceLit(a + b, v, r) == [a[0]] + (a[1..] + f);
      assert [a[0]] + (a[1..] + f) == ([a[0]] + a[1..]) + f;
      assert [a[0]] + a[1..] == a;
    }
  }

  lemma {:induction false} FillOnlyPlain(a: string, b: string, values: map<string, string>, V: set<string>)
    requires NoOpenBrace(a)
    ensures FillOnly(a + b, values, V) == a + FillOnly(b, values, V)
  {
    if a == [] {
      assert a + b == b;
    } else {
      assert (a + b)[0] == a[0];
      assert (a + b)[1..] == a[1..] + b;
      assert NoOpenBrace(a[1..]) by {
        forall i | 0 <= i < |a[1..]| ensures a[1..][i] != '{' { assert a[1..][i] == a[i + 1]; }
      }
      assert TokenPrefix(a + b).None?;
      FillOnlyCopies(a + b, values, V);
      FillOnlyPlain(a[1..], b, values, V);
      var f := FillOnly(b, values, V);
      assert FillOnly(a + b, values, V) == [a[0]] + (a[1..] + f);
      assert [a[0]] + (a[1..] + f) == ([a[0]] + a[1..]) + f;
      assert [a[0]] + a[1..] == a;
    }
  }

  /** Where the pattern for `v` does not match, the pass copies one character. */
  lemma ReplaceLitStep(t: string, v: string, r: string)
    requires |t| > 0 && NamedTokenPrefix(t, v).None?
    ensures ReplaceLit(t, v, r) == [t[0]] + ReplaceLit(t[1..], v, r)
  {
  }

  /** One character followed by text without `{` passes unchanged. */
  lemma ReplaceLitCharThenPlain(c: char, a: string, x: string, v: string, r: string)
    requires |a| > 0 && NoOpenBrace(a)
    ensures ReplaceLit([c] + a + x, v, r) == [c] + a + ReplaceLit(x, v, r)
  {
    var w := [c] + a + x;
    assert w[1] == a[0];
    ReplaceLitStep(w, v, r);
    assert w[1..] == a + x;
    ReplaceLitPlain(a, x, v, r);
  }

  /** A placeholder for another name, as written, passes unchanged through the pass for `v`. */
  lemma ReplaceLitOther(t: string, x: string, v: string, r: string)
    requires IsIdentifier(v) && TokenPrefix(t).Some? && TokenPrefix(t).value.name != v
    ensures ReplaceLit(t[..TokenPrefix(t).value.len] + x, v, r) == t[..TokenPrefix(t).value.len] + ReplaceLit(x, v, r)
  {
    var n := TokenPrefix(t).value.len;
    var u := t[..n] + x;
    OtherTokenUnmatched(t, x, v);
    ReplaceLitStep(u, v, r);
    TokenTailPlain(t);
    var mid := t[2..n];
    assert u[0] == t[0];
    assert u[1..] == [t[1]] + mid + x;
    ReplaceLitCharThenPlain(t[1], mid, x, v, r);
    assert ReplaceLit(u, v, r) == [t[0]] + (([t[1]] + mid) + ReplaceLit(x, v, r));
    assert t[..n] == [t[0]] + ([t[1]] + mid);
  }

  /** The pattern for `v` does not match a placeholder written for another name. */
  lemma OtherTokenUnmatched(t: string, x: string, v: string)
    requires IsIdentifier(v) && TokenPrefix(t).Some? && TokenPrefix(t).value.name != v
    ensures NamedTokenPrefix(t[..TokenPrefix(t).value.len] + x, v).None?
  {
    var n := TokenPrefix(t).value.len;
    var u := t[..n] + x;
    assert u[..n] == t[..n];
    TokenPrefixLocal(t, u);
    NamedTokenPrefixIsToken(u, v);
  }

  /** Between its opening `{{` and its end, a placeholder holds no `{`. */
  lemma TokenTailPlain(t: string)
    requires TokenPrefix(t).Some?
    ensures NoOpenBrace(t[2..TokenPrefix(t).value.len])
  {
    var n := TokenPrefix(t).value.len;
    TokenInterior(t);
    forall i | 0 <= i < n - 2 ensures t[2..n][i] != '{' { assert t[2..n][i] == t[i + 2]; }
  }

  /** A placeholder for `v` itself is replaced. */
  lemma ReplaceLitSame(t: string, x: string, v: string, r: string)
    requires IsIdentifier(v) && TokenPrefix(t).Some? && TokenPrefix(t).value.name == v
    ensures ReplaceLit(t[..TokenPrefix(t).value.len] + x, v, r) == r + ReplaceLit(x, v, r)
  {
    var n := TokenPrefix(t).value.len;
    var u := t[..n] + x;
    assert u[..n] == t[..n];
    TokenPrefixLocal(t, u);
    NamedTokenPrefixIsToken(u, v);
    assert u[n..] == x;
  }

  /** A canonical spelling is a placeholder, and it reads exactly its own characters. */
  lemma CanonicalIsToken(v: string, x: string)
    requires IsIdentifier(v)
    ensures TokenPrefix(Canonical(v) + x) == Some(Token(v, |Canonical(v)|))
    ensures (Canonical(v) + x)[..|Canonical(v)|] == Canonical(v)
  {
    TokenTextMatches("", v, "", x);
  }

  /** A replacement value passes unchanged through the pass for another name `v`. */
  lemma ReplaceLitReplacement(values: map<string, string>, n: string, x: string, v: string, r: string)
    requires IsIdentifier(v) && IsIdentifier(n) && n != v && Safe(values)
    ensures ReplaceLit(Replacement(values, n) + x, v, r) == Replacement(values, n) + ReplaceLit(x, v, r)
  {
    if n in values && values[n] != "" {
      ReplaceLitPlain(values[n], x, v, r);
    } else {
      CanonicalIsToken(n, x);
      ReplaceLitOther(Canonical(n) + x, x, v, r);
    }
  }

  // ---------------------------------------------------------------------------------------
  // The passes create no new placeholders.

  /** With blank values, the restricted fill of a text that starts with `{` starts with `{`. */
  lemma FillOnlyOpens(s: string, values: map<string, string>, V: set<string>)
    requires |s| > 0 && s[0] == '{' && Blank(values)
    ensures |FillOnly(s, values, V)| > 0 && FillOnly(s, values, V)[0] == '{'
  {
    match TokenPrefix(s)
    case Some(tok) =>
      if tok.name in V {
        assert Replacement(values, tok.name) == Canonical(tok.name);
      }
    case None =>
  }

  /** The first `{` of `s` (or `|s|` when there is none). */
  function FirstBrace(s: string): (q: nat)
    ensures q <= |s| && NoOpenBrace(s[..q]) && (q < |s| ==> s[q] == '{')
  {
    if s == [] then 0
    else if s[0] == '{' then 0
    else
      var q := 1 + FirstBrace(s[1..]);
      assert NoOpenBrace(s[..q]) by {
        forall i | 0 <= i < q ensures s[..q][i] != '{' {
          if i > 0 { assert s[..q][i] == s[1..][..q - 1][i - 1]; }
        }
      }
      q
  }

  /** A character the single pass left in place cannot start a placeholder together with what
      the restricted fill made of the text after it. */
  lemma NoNewToken(t: string, values: map<string, string>, V: set<string>)
    requires |t| > 0 && TokenPrefix(t).None? && Safe(values)
    requires forall n :: n in V ==> IsIdentifier(n)
    requires WellFormed(t) || Blank(values)
    ensures TokenPrefix([t[0]] + FillOnly(t[1..], values, V)).None?
  {
    var u := [t[0]] + FillOnly(t[1..], values, V);
    if t[0] == '{' && |t| >= 2 {
      if t[1] == '{' {
        // A `{{` that starts no placeholder: the text is not well formed, so no value is set.
        assert !WellFormed(t);
        if TokenPrefix(t[1..]).Some? {
          BraceBeforeToken(t, values, V);
        } else {
          BraceBeforePlain(t, values, V);
        }
      } else {
        FillOnlyHead(t[1..], values, V);
        assert u[1] == t[1];
      }
    }
  }

  /** Text that starts with a character other than `{` keeps that character in front. */
  lemma FillOnlyHead(s: string, values: map<string, string>, V: set<string>)
    requires |s| > 0 && s[0] != '{'
    ensures |FillOnly(s, values, V)| > 0 && FillOnly(s, values, V)[0] == s[0]
  {
    assert TokenPrefix(s).None?;
    FillOnlyCopies(s, values, V);
  }

  /** `{` followed by a placeholder: after the restricted fill the text starts with `{{{`, which
      is no placeholder since `{` is neither a space nor a name character. */
  lemma BraceBeforeToken(t: string, values: map<string, string>, V: set<string>)
    requires |t| >= 2 && t[0] == '{' && TokenPrefix(t[1..]).Some? && Blank(values)
    requires forall n :: n in V ==> IsIdentifier(n)
    ensures TokenPrefix([t[0]] + FillOnly(t[1..], values, V)).None?
  {
    var s := t[1..];
    var tok := TokenPrefix(s).value;
    var rest := FillOnly(s[tok.len..], values, V);
    var Y := FillOnly(s, values, V);
    if tok.name in V {
      assert Replacement(values, tok.name) == Canonical(tok.name);
      CanonicalIsToken(tok.name, rest);
      assert Y == Canonical(tok.name) + rest;
    } else {
      KeptToken(s, values, V);
      assert Y == s[..tok.len] + rest;
    }
    var u := [t[0]] + Y;
    assert u[2] == '{';
    ClassesDisjoint(u[2]);
    assert SkipSpaces(u, 2) == 2;
  }

  /** `{{` that starts no placeholder and is not followed by one: with blank values the
      restricted fill starts no placeholder there either. */
  lemma BraceBeforePlain(t: string, values: map<string, string>, V: set<string>)
    requires |t| >= 2 && t[0] == '{' && t[1] == '{' && TokenPrefix(t).None? && TokenPrefix(t[1..]).None?
    requires Blank(values)
    ensures TokenPrefix([t[0]] + FillOnly(t[1..], values, V)).None?
  {
    FillOnlyCopies(t[1..], values, V);
    assert t[1..][1..] == t[2..];
    assert [t[0]] + FillOnly(t[1..], values, V) == "{{" + FillOnly(t[2..], values, V);
    assert t == "{{" + t[2..];
    NoNewTokenBlank(t[2..], values, V);
  }

  /** With blank values, a `{{` that starts no placeholder starts none after the restricted fill
      either: the fill keeps the text up to the next `{` and puts a `{` there. */
  lemma NoNewTokenBlank(s: string, values: map<string, string>, V: set<string>)
    requires Blank(values) && TokenPrefix("{{" + s).None?
    ensures TokenPrefix("{{" + FillOnly(s, values, V)).None?
  {
    BlankFillKeepsToken(s, values, V);
  }

  /** With blank values, a placeholder at a `{{` after the restricted fill was already there,
      the same, before it: it ends before the first `{` of `s`, which the fill keeps. */
  lemma BlankFillKeepsToken(s: string, values: map<string, string>, V: set<string>)
    requires Blank(values)
    ensures TokenPrefix("{{" + FillOnly(s, values, V)).Some? ==>
      TokenPrefix("{{" + s) == TokenPrefix("{{" + FillOnly(s, values, V))
  {
    var Z := FillOnly(s, values, V);
    var u := "{{" + Z;
    if TokenPrefix(u).Some? {
      var n := TokenPrefix(u).value.len;
      var q := FirstBrace(s);
      BlankFillUpToBrace(s, values, V, q);
      TokenInterior(u);
      assert n - 2 <= q by {
        if q < |s| { assert u[q + 2] == '{'; } else { assert |u| == q + 2; }
      }
      var t := "{{" + s;
      assert u[..n] == t[..n] by {
        forall i | 0 <= i < n ensures u[i] == t[i] {
          if i >= 2 { assert u[i] == Z[i - 2] == s[i - 2] == t[i]; }
        }
      }
      TokenPrefixLocal(u, t);
    }
  }

  /** With blank values, the restricted fill keeps the text before the first `{` and puts a `{`
      where it was. */
  lemma BlankFillUpToBrace(s: string, values: map<string, string>, V: set<string>, q: nat)
    requires Blank(values) && q == FirstBrace(s)
    ensures |FillOnly(s, values, V)| >= q
    ensures forall i :: 0 <= i < q ==> FillOnly(s, values, V)[i] == s[i]
    ensures q < |s| ==> |FillOnly(s, values, V)| > q && FillOnly(s, values, V)[q] == '{'
    ensures q == |s| ==> FillOnly(s, values, V) == s
  {
    var Z := FillOnly(s, values, V);
    SplitAt(s, q);
    FillOnlyPlain(s[..q], s[q..], values, V);
    assert Z == s[..q] + FillOnly(s[q..], values, V);
    if q < |s| {
      FillOnlyOpens(s[q..], values, V);
    } else {
      assert s[q..] == [];
    }
  }

  lemma ReplaceLitUnmatched(t: string, y: string, v: string, r: string)
    requires |t| > 0 && TokenPrefix([t[0]] + y).None? && IsIdentifier(v)
    ensures ReplaceLit([t[0]] + y, v, r) == [t[0]] + ReplaceLit(y, v, r)
  {
    NamedTokenPrefixIsToken([t[0]] + y, v);
    assert ([t[0]] + y)[1..] == y;
  }

  /** The pass for a new name `v` applied to the text after the passes for `V` gives the text
      after the passes for `V` and `v`. */
  lemma {:induction false} ReplaceAfterFill(t: string, values: map<string, string>, V: set<string>, v: string)
    requires IsIdentifier(v) && v !in V && Safe(values)
    requires forall n :: n in V ==> IsIdentifier(n)
    requires WellFormed(t) || Blank(values)
    ensures ReplaceLit(FillOnly(t, values, V), v, Replacement(values, v)) == FillOnly(t, values, V + {v})
    decreases |t|
  {
    var r := Replacement(values, v);
    if t != [] {
      match TokenPrefix(t)
      case Some(tok) =>
        var rest := t[tok.len..];
        ReplaceAfterFill(rest, values, V, v);
        var Y := FillOnly(rest, values, V);
        if tok.name in V {
          ReplaceLitReplacement(values, tok.name, Y, v, r);
        } else if tok.name == v {
          ReplaceLitSame(t, Y, v, r);
        } else {
          ReplaceLitOther(t, Y, v, r);
        }
      case None =>
        ReplaceAfterFill(t[1..], values, V, v);
        NoNewToken(t, values, V);
        ReplaceLitUnmatched(t, FillOnly(t[1..], values, V), v, r);
    }
  }

  // ---------------------------------------------------------------------------------------
  // The passes against the single pass.

  lemma {:induction false} FillOnlyNone(t: string, values: map<string, string>)
    ensures FillOnly(t, values, {}) == t
    decreases |t|
  {
    if t != [] {
      var m := TokenPrefix(t);
      if m.Some? {
        var n := m.value.len;
        FillOnlyNone(t[n..], values);
        KeptToken(t, values, {});
        SplitAt(t, n);
      } else {
        FillOnlyNone(t[1..], values);
        FillOnlyCopies(t, values, {});
        SplitAt(t, 1);
      }
    }
  }

  /** Where no placeholder starts, the restricted fill copies one character. */
  lemma FillOnlyCopies(t: string, values: map<string, string>, V: set<string>)
    requires |t| > 0 && TokenPrefix(t).None?
    ensures FillOnly(t, values, V) == [t[0]] + FillOnly(t[1..], values, V)
  {
  }

  /** A placeholder for a name outside `V` is copied as written by the restricted fill. */
  lemma KeptToken(t: string, values: map<string, string>, V: set<string>)
    requires TokenPrefix(t).Some? && TokenPrefix(t).value.name !in V
    ensures FillOnly(t, values, V) ==
      t[..TokenPrefix(t).value.len] + FillOnly(t[TokenPrefix(t).value.len..], values, V)
  {
  }

  lemma {:induction false} FillOnlyAll(t: string, values: map<string, string>, V: set<string>)
    requires forall n :: n in ScanNames(t) ==> n in V
    ensures FillOnly(t, values, V) == Fill(t, values)
    decreases |t|
  {
    if t != [] {
      match TokenPrefix(t)
      case Some(tok) =>
        assert ScanNames(t) == [tok.name] + ScanNames(t[tok.len..]);
        FillOnlyAll(t[tok.len..], values, V);
      case None =>
        FillOnlyAll(t[1..], values, V);
    }
  }

  /** After the passes for distinct names, the placeholders for exactly those names have been
      replaced and every other placeholder is as written. */
  lemma {:induction false} RenderedIsFillOnly(content: string, vars: seq<string>, values: map<string, string>)
    requires NoDuplicates(vars) && (forall n :: n in vars ==> IsIdentifier(n) && OwnLookup(values, n))
    requires Safe(values) && (WellFormed(content) || Blank(values))
    ensures Rendered(content, vars, values) == Some(FillOnly(content, values, set n | n in vars))
    decreases |vars|
  {
    if vars == [] {
      FillOnlyNone(content, values);
      assert (set n | n in vars) == {};
    } else {
      var init, v := vars[..|vars| - 1], vars[|vars| - 1];
      var V := set n | n in init;
      SplitLast(vars, init, v, V);
      assert forall n :: n in init ==> n in vars;
      RenderedIsFillOnly(content, init, values);
      var r := Replacement(values, v);
      CanonicalNoDollar(v);
      ReplaceFromLiteral([], FillOnly(content, values, V), v, r);
      ReplaceAfterFill(content, values, V, v);
    }
  }

  lemma CanonicalNoDollar(v: string)
    requires IsIdentifier(v)
    ensures NoDollar(Canonical(v))
  {
    var c := Canonical(v);
    assert c == "{{" + v + "}}";
    forall i | 0 <= i < |c| ensures c[i] != '$' {
      if 2 <= i < |c| - 2 { assert c[i] == v[i - 2]; }
    }
  }

  /** The names before the last one are distinct identifiers too, and the last one is new. */
  lemma SplitLast(vars: seq<string>, init: seq<string>, v: string, V: set<string>)
    requires |vars| > 0 && init == vars[..|vars| - 1] && v == vars[|vars| - 1] && V == set n | n in init
    requires NoDuplicates(vars) && forall n :: n in vars ==> IsIdentifier(n)
    ensures NoDuplicates(init) && forall n :: n in init ==> IsIdentifier(n)
    ensures IsIdentifier(v) && v !in V && (set n | n in vars) == V + {v}
  {
    assert vars == init + [v];
    assert forall n :: n in init ==> n in vars;
  }

  /** The rendering the injector shows agrees with the single pass over the original text when
      no placeholder falls back to a member of `Object.prototype`, no value holds `{` or `$`,
      and either every `{{` of the template starts a placeholder or no value has been entered. */
  lemma RenderMatchesSinglePass(content: string, values: map<string, string>)
    requires NoInheritedLookup(content, values) && Safe(values) && (WellFormed(content) || Blank(values))
    ensures Rendered(content, Variables(content), values) == Some(Fill(content, values))
  {
    var vars := Variables(content);
    RenderedIsFillOnly(content, vars, values);
    FillOnlyAll(content, values, set n | n in vars);
  }

  lemma {:induction false} FillBlank(t: string, values: map<string, string>)
    requires Blank(values)
    ensures Fill(t, values) == Canonicalize(t)
    decreases |t|
  {
    if t != [] {
      match TokenPrefix(t)
      case Some(tok) => FillBlank(t[tok.len..], values);
      case None => FillBlank(t[1..], values);
    }
  }

  /** With an empty map, or every value `""`, every placeholder is rewritten to its canonical
      spelling and nothing else changes, unless a placeholder falls back to `Object.prototype`. */
  lemma BlankRendersCanonical(content: string, values: map<string, string>)
    requires Blank(values) && NoInheritedLookup(content, values)
    ensures Rendered(content, Variables(content), values) == Some(Canonicalize(content))
  {
    assert Safe(values) by {
      forall n | n in values ensures NoOpenBrace(values[n]) && NoDollar(values[n]) {
        assert values[n] == "";
      }
    }
    RenderMatchesSinglePass(content, values);
    FillBlank(content, values);
  }

  /** A template written in canonical form is its own canonical rendering. */
  lemma {:induction false} CanonicalUnchanged(t: string)
    requires IsCanonical(t)
    ensures Canonicalize(t) == t
    decreases |t|
  {
    if t != [] {
      var m := TokenPrefix(t);
      if m.Some? {
        var n := m.value.len;
        var rest := t[n..];
        assert t[..n] == Canonical(m.value.name) && IsCanonical(rest);
        CanonicalUnchanged(rest);
        FillToken(t, map[]);
        assert Replacement(map[], m.value.name) == Canonical(m.value.name);
        assert Fill(t, map[]) == t[..n] + rest;
        SplitAt(t, n);
      } else {
        assert IsCanonical(t[1..]);
        CanonicalUnchanged(t[1..]);
        FillCopies(t, map[]);
        SplitAt(t, 1);
      }
    }
  }

  /** Where no placeholder starts, the single pass copies one character. */
  lemma FillCopies(t: string, values: map<string, string>)
    requires |t| > 0 && TokenPrefix(t).None?
    ensures Fill(t, values) == [t[0]] + Fill(t[1..], values)
  {
  }

  /** A placeholder is replaced by its value, or by its canonical spelling. */
  lemma FillToken(t: string, values: map<string, string>)
    requires TokenPrefix(t).Some?
    ensures Fill(t, values) ==
      Replacement(values, TokenPrefix(t).value.name) + Fill(t[TokenPrefix(t).value.len..], values)
  {
  }

  /** Canonical content rendered with no values entered comes back unchanged. */
  lemma CanonicalRendersUnchanged(content: string, values: map<string, string>)
    requires Blank(values) && NoInheritedLookup(content, values) && IsCanonical(content)
    ensures Rendered(content, Variables(content), values) == Some(content)
  {
    BlankRendersCanonical(content, values);
    CanonicalUnchanged(content);
  }

  /** A text with no placeholders is rendered unchanged, whatever the values: in particular,
      rendering again an output that holds no placeholders is the identity. */
  lemma NoVariablesUnchanged(content: string, values: map<string, string>)
    requires !HasVariables(content)
    ensures Rendered(content, Variables(content), values) == Some(content)
  {
    HasVariablesIffExtracted(content);
  }

  /** A template that is one placeholder: the scan lists its name, and the pattern for that
      name matches the whole template. */
  lemma LonePlaceholder(pre: string, v: string, post: string)
    requires AllSpace(pre) && IsIdentifier(v) && AllSpace(post)
    ensures Variables(TokenText(pre, v, post)) == [v]
    ensures NamedTokenPrefix(TokenText(pre, v, post), v) == Some(|TokenText(pre, v, post)|)
  {
    var t := TokenText(pre, v, post);
    ScanToken(pre, v, post, []);
    assert t + [] == t;
    DedupSingle(v);
    TokenTextMatches(pre, v, post, []);
    NamedTokenPrefixIsToken(t, v);
  }

  /** `[object Object]` holds no `$`, so `replace` inserts it as it is. */
  lemma ObjectTagIsLiteral()
    ensures NoDollar("[object Object]")
  {
  }

  /** A literal replacement for a match that is the whole text is the whole result. */
  lemma ReplaceLitWhole(t: string, v: string, r: string)
    requires NamedTokenPrefix(t, v) == Some(|t|)
    ensures ReplaceLit(t, v, r) == r
  {
    assert t[|t|..] == [];
    assert r + [] == r;
  }

  /** A function called on a match that is the whole text gives its result for that text. */
  lemma ReplaceCallsWhole(t: string, v: string, f: string -> string)
    requires NamedTokenPrefix(t, v) == Some(|t|)
    ensures ReplaceCalls(t, v, f) == f(t)
  {
    assert t[..|t|] == t && t[|t|..] == [];
    assert f(t) + [] == f(t);
  }

  /** A template made of one placeholder whose name is inherited from `Object.prototype` and has
      not been typed into renders as the source does, not as `{{name}}`: `__proto__` as
      `[object Object]`, `toString` as `[object Undefined]`, `isPrototypeOf` as `false`,
      `constructor` as the placeholder exactly as written (inner spaces kept), and every other
      such name throws. */
  lemma LoneInheritedPlaceholder(pre: string, v: string, post: string, values: map<string, string>)
    requires AllSpace(pre) && AllSpace(post) && IsIdentifier(v)
    requires v in ObjectPrototypeNames && v !in values
    ensures var t := TokenText(pre, v, post);
      Rendered(t, Variables(t), values) ==
        if v == "__proto__" then Some("[object Object]")
        else if v == "toString" then Some("[object Undefined]")
        else if v == "isPrototypeOf" then Some("false")
        else if v == "constructor" then Some(t)
        else None
  {
    var t := TokenText(pre, v, post);
    LonePlaceholder(pre, v, post);
    assert [v][..0] == [];
    assert Rendered(t, [v], values) == Pass(t, v, Lookup(values, v));
    var rep := Lookup(values, v);
    match rep
    case Text(r) =>
      assert r == "[object Object]";
      ObjectTagIsLiteral();
      ReplaceFromLiteral([], t, v, r);
      ReplaceLitWhole(t, v, r);
    case Returns(r) =>
      ReplaceCallsWhole(t, v, _ => r);
    case ReturnsMatch =>
      ReplaceCallsWhole(t, v, m => m);
    case Throws =>
      assert t[0..] == t;
      assert HasMatch(t, v);
  }


  /** A placeholder named `v` starts at index `i` of `t`. */
  predicate NameAt(t: string, i: int, v: string) {
    0 <= i < |t| && TokenPrefix(t[i..]).Some? && TokenPrefix(t[i..]).value.name == v
  }

  lemma NameAtShift(t: string, k: nat, i: int, v: string)
    requires k <= |t| && NameAt(t[k..], i, v)
    ensures NameAt(t, k + i, v)
  {
    assert t[k..][i..] == t[k + i..];
  }

  /** Every name the scan reports is the name of a placeholder at some position. */
  lemma {:induction false} ScannedNameOccurs(t: string, v: string)
    requires v in ScanNames(t)
    ensures exists i :: NameAt(t, i, v)
    decreases |t|
  {
    var m := TokenPrefix(t);
    if m.Some? && m.value.name == v {
      assert t[0..] == t;
      assert NameAt(t, 0, v);
    } else {
      var k := if m.Some? then m.value.len else 1;
      assert ScanNames(t) == (if m.Some? then [m.value.name] else []) + ScanNames(t[k..]);
      ScannedNameOccurs(t[k..], v);
      var i :| NameAt(t[k..], i, v);
      NameAtShift(t, k, i, v);
    }
  }

  /** When the first name listed is inherited from `Object.prototype`, has not been typed into,
      and is one of the built-ins that throw, the first pass throws and nothing is rendered:
      the component fails. */
  lemma InheritedFirstNameThrows(content: string, values: map<string, string>)
    requires |Variables(content)| > 0
    requires Lookup(values, Variables(content)[0]).Throws?
    ensures Rendered(content, Variables(content), values).None?
  {
    var vars := Variables(content);
    var v := vars[0];
    ScannedNameOccurs(content, v);
    var i :| NameAt(content, i, v);
    NamedTokenPrefixIsToken(content[i..], v);
    assert HasMatch(content, v);
    assert vars[..1][..0] == [] && vars[..1][0] == v;
    assert Rendered(content, vars[..1], values) == Pass(content, v, Lookup(values, v));
    RenderedStaysFailed(content, vars, values, 1);
  }
}
