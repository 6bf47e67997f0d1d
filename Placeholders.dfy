/** The placeholder syntax of the variable injector: the pattern
    `\{\{\s*([a-zA-Z0-9_]+)\s*\}\}`, the `while (regex.exec(content))` loop that collects the
    names into an insertion-ordered set, and the `.test` check used before opening the injector.

    Token matching is stated on suffixes: `TokenPrefix(t)` is what the pattern matches when it is
    anchored at the first character of `t`, so matching at index `i` of `s` is `TokenPrefix(s[i..])`. */
module Placeholders {
  import opened Chars
  import opened Records

  /** A match of the pattern at the start of a string: the captured name and the match length. */
  datatype Token = Token(name: string, len: nat)

  /** The index at which the run of spaces starting at `i` ends (what a greedy `\s*` consumes). */
  function SkipSpaces(t: string, i: nat): (j: nat)
    requires i <= |t|
    ensures i <= j <= |t|
    ensures forall k :: i <= k < j ==> IsSpace(t[k])
    ensures j < |t| ==> !IsSpace(t[j])
    decreases |t| - i
  {
    if i < |t| && IsSpace(t[i]) then SkipSpaces(t, i + 1) else i
  }

  /** The index at which the run of identifier characters starting at `i` ends (a greedy
      `[a-zA-Z0-9_]+`, which matched when the run is not empty). */
  function SkipIdent(t: string, i: nat): (j: nat)
    requires i <= |t|
    ensures i <= j <= |t|
    ensures forall k :: i <= k < j ==> IsIdentChar(t[k])
    ensures j < |t| ==> !IsIdentChar(t[j])
    decreases |t| - i
  {
    if i < |t| && IsIdentChar(t[i]) then SkipIdent(t, i + 1) else i
  }

  /** The pattern anchored at the start of `t`. The three character classes involved (spaces,
      identifier characters, braces) are pairwise disjoint, so the greedy choices are the only
      ones that can succeed and backtracking never finds another match (see `TokenPrefixComplete`). */
  function TokenPrefix(t: string): (r: Option<Token>)
    ensures r.Some? ==> 5 <= r.value.len <= |t| && IsIdentifier(r.value.name)
  {
    if |t| >= 2 && t[0] == '{' && t[1] == '{' then
      var a := SkipSpaces(t, 2);
      var b := SkipIdent(t, a);
      var c := SkipSpaces(t, b);
      if a < b && c + 2 <= |t| && t[c] == '}' && t[c + 1] == '}' then
        Some(Token(t[a..b], c + 2))
      else
        None
    else
      None
  }

  /** `t[..n]` is `{{`, spaces, the name `t[a..b]`, spaces, `}}`: one way the pattern can match. */
  ghost predicate Shape(t: string, a: int, b: int, n: int) {
    && 2 <= a < b && b + 2 <= n <= |t|
    && t[0] == '{' && t[1] == '{'
    && (forall i :: 2 <= i < a ==> IsSpace(t[i]))
    && (forall i :: a <= i < b ==> IsIdentChar(t[i]))
    && (forall i :: b <= i < n - 2 ==> IsSpace(t[i]))
    && t[n - 2] == '}' && t[n - 1] == '}'
  }

  lemma SkipSpacesIs(t: string, i: nat, j: nat)
    requires i <= j <= |t|
    requires forall k :: i <= k < j ==> IsSpace(t[k])
    requires j < |t| ==> !IsSpace(t[j])
    ensures SkipSpaces(t, i) == j
  {
  }

  lemma SkipIdentIs(t: string, i: nat, j: nat)
    requires i <= j <= |t|
    requires forall k :: i <= k < j ==> IsIdentChar(t[k])
    requires j < |t| ==> !IsIdentChar(t[j])
    ensures SkipIdent(t, i) == j
  {
  }

  /** Soundness: whatever `TokenPrefix` reports has the shape the pattern describes. */
  lemma TokenPrefixSound(t: string)
    requires TokenPrefix(t).Some?
    ensures exists a, b :: Shape(t, a, b, TokenPrefix(t).value.len) && t[a..b] == TokenPrefix(t).value.name
  {
    var a := SkipSpaces(t, 2);
    var b := SkipIdent(t, a);
    var c := SkipSpaces(t, b);
    assert Shape(t, a, b, c + 2);
  }

  /** Completeness and determinism: any way the pattern can match at the start of `t` is the
      match `TokenPrefix` reports, with the same name and the same length. */
  lemma TokenPrefixComplete(t: string, a: int, b: int, n: int)
    requires Shape(t, a, b, n)
    ensures TokenPrefix(t) == Some(Token(t[a..b], n))
  {
    ClassesDisjoint(t[a]);
    ClassesDisjoint(t[n - 2]);
    SkipSpacesIs(t, 2, a);
    assert b < |t| ==> !IsIdentChar(t[b]) by { ClassesDisjoint(t[b]); }
    SkipIdentIs(t, a, b);
    SkipSpacesIs(t, b, n - 2);
  }

  /** A match reads only its own characters: any string that agrees on them matches the same way. */
  lemma TokenPrefixLocal(t: string, u: string)
    requires TokenPrefix(t).Some?
    requires TokenPrefix(t).value.len <= |u| && u[..TokenPrefix(t).value.len] == t[..TokenPrefix(t).value.len]
    ensures TokenPrefix(u) == TokenPrefix(t)
  {
    var n := TokenPrefix(t).value.len;
    TokenPrefixSound(t);
    var a, b :| Shape(t, a, b, n) && t[a..b] == TokenPrefix(t).value.name;
    assert forall i :: 0 <= i < n ==> u[i] == t[i] by {
      forall i | 0 <= i < n ensures u[i] == t[i] { assert u[i] == u[..n][i]; }
    }
    assert u[a..b] == t[a..b];
    TokenPrefixComplete(u, a, b, n);
  }

  /** Past its opening `{{`, a token holds no `{`. */
  lemma TokenInterior(t: string)
    requires TokenPrefix(t).Some?
    ensures forall i :: 2 <= i < TokenPrefix(t).value.len ==> t[i] != '{'
  {
    TokenPrefixSound(t);
    var a, b :| Shape(t, a, b, TokenPrefix(t).value.len) && t[a..b] == TokenPrefix(t).value.name;
    forall i | 2 <= i < TokenPrefix(t).value.len ensures t[i] != '{' {
      ClassesDisjoint(t[i]);
    }
  }

  /** A string without `{` never starts a token. */
  function NoOpenBrace(s: string): bool {
    forall i :: 0 <= i < |s| ==> s[i] != '{'
  }

  /** The pattern built for one name v during rendering, `\{\{\s*v\s*\}\}`, anchored at the
      start of `t`; the result is the match length. */
  function NamedTokenPrefix(t: string, v: string): (r: Option<nat>)
    ensures r.Some? ==> 4 <= r.value <= |t|
  {
    if |t| >= 2 && t[0] == '{' && t[1] == '{' then
      var a := SkipSpaces(t, 2);
      if a + |v| <= |t| && t[a..a + |v|] == v then
        var c := SkipSpaces(t, a + |v|);
        if c + 2 <= |t| && t[c] == '}' && t[c + 1] == '}' then Some(c + 2) else None
      else
        None
    else
      None
  }

  /** The pattern for one name matches exactly where the general pattern matches a token with
      that same name, and with the same length: a token for `a` is never found inside a token for
      a longer name such as `ab`, nor for a shorter one. */
  lemma NamedTokenPrefixIsToken(t: string, v: string)
    requires IsIdentifier(v)
    ensures NamedTokenPrefix(t, v) ==
      if TokenPrefix(t).Some? && TokenPrefix(t).value.name == v then Some(TokenPrefix(t).value.len) else None
  {
    NamedMatchIsToken(t, v);
    TokenIsNamedMatch(t, v);
  }

  lemma NamedMatchIsToken(t: string, v: string)
    requires IsIdentifier(v)
    ensures NamedTokenPrefix(t, v).Some? ==> TokenPrefix(t) == Some(Token(v, NamedTokenPrefix(t, v).value))
  {
    if NamedTokenPrefix(t, v).Some? {
      var a := SkipSpaces(t, 2);
      var b := a + |v|;
      var c := SkipSpaces(t, b);
      assert forall i :: a <= i < b ==> IsIdentChar(t[i]) by {
        forall i | a <= i < b ensures IsIdentChar(t[i]) { assert t[i] == t[a..b][i - a]; }
      }
      TokenPrefixComplete(t, a, b, c + 2);
    }
  }

  lemma TokenIsNamedMatch(t: string, v: string)
    ensures TokenPrefix(t).Some? && TokenPrefix(t).value.name == v ==>
      NamedTokenPrefix(t, v) == Some(TokenPrefix(t).value.len)
  {
    if TokenPrefix(t).Some? && TokenPrefix(t).value.name == v {
      TokenPrefixSound(t);
      var a, b :| Shape(t, a, b, TokenPrefix(t).value.len) && t[a..b] == v;
      ClassesDisjoint(t[a]);
      SkipSpacesIs(t, 2, a);
    }
  }

  /** The names of the successive, non-overlapping matches of the global pattern, left to right:
      one `exec` call per element. */
  function ScanNames(t: string): (names: seq<string>)
    ensures forall n :: n in names ==> IsIdentifier(n)
    decreases |t|
  {
    if t == [] then []
    else match TokenPrefix(t)
      case Some(tok) => [tok.name] + ScanNames(t[tok.len..])
      case None => ScanNames(t[1..])
  }

  predicate NoDuplicates<T(==)>(s: seq<T>) {
    forall i, j :: 0 <= i < j < |s| ==> s[i] != s[j]
  }

  /** `Array.from(new Set(xs))`: the elements of xs in the order they first appear. */
  function Dedup(xs: seq<string>): (r: seq<string>)
    ensures NoDuplicates(r)
    ensures forall x :: x in r <==> x in xs
  {
    if xs == [] then []
    else
      var d := Dedup(xs[..|xs| - 1]);
      if xs[|xs| - 1] in d then d else d + [xs[|xs| - 1]]
  }

  function FirstIndex<T(==)>(s: seq<T>, x: T): (k: nat)
    requires x in s
    ensures k < |s| && s[k] == x && x !in s[..k]
  {
    if s[0] == x then 0 else 1 + FirstIndex(s[1..], x)
  }

  lemma FirstIndexIs<T>(s: seq<T>, x: T, k: nat)
    requires k < |s| && s[k] == x && x !in s[..k]
    ensures FirstIndex(s, x) == k
  {
  }

  /** Deduplication keeps first-occurrence order: of two extracted names, the one listed first
      occurs first in the scan. */
  lemma {:induction false} DedupKeepsFirstOccurrenceOrder(xs: seq<string>)
    ensures forall i, j :: 0 <= i < j < |Dedup(xs)| ==> FirstIndex(xs, Dedup(xs)[i]) < FirstIndex(xs, Dedup(xs)[j])
  {
    if xs != [] {
      var ys, x := xs[..|xs| - 1], xs[|xs| - 1];
      assert xs == ys + [x];
      var d := Dedup(ys);
      DedupKeepsFirstOccurrenceOrder(ys);
      forall e | e in ys ensures FirstIndex(xs, e) == FirstIndex(ys, e) {
        var k := FirstIndex(ys, e);
        assert xs[..k] == ys[..k];
        FirstIndexIs(xs, e, k);
      }
      if x !in d {
        assert x !in xs[..|ys|] by { assert xs[..|ys|] == ys; }
        FirstIndexIs(xs, x, |ys|);
      }
    }
  }

  /** The `variables` of the injector: the distinct names, in first-occurrence order. */
  function Variables(content: string): (vars: seq<string>)
    ensures NoDuplicates(vars)
    ensures forall v :: v in vars <==> v in ScanNames(content)
    ensures forall v :: v in vars ==> IsIdentifier(v)
  {
    Dedup(ScanNames(content))
  }

  /** The scan of `t` is the names `seen` found before index `i`, then the scan from `i`. */
  predicate ScannedUpTo(t: string, i: nat, seen: seq<string>) {
    i <= |t| && seen + ScanNames(t[i..]) == ScanNames(t)
  }

  /** One step of the scan at index i of t, where a token is found: the names scanned so far
      grow by its name, and the scan resumes after it. */
  lemma ScanStepToken(t: string, i: nat, seen: seq<string>, tok: Token, j: nat, seen': seq<string>)
    requires i < |t| && ScannedUpTo(t, i, seen)
    requires TokenPrefix(t[i..]) == Some(tok)
    requires j == i + tok.len && seen' == seen + [tok.name]
    ensures ScannedUpTo(t, j, seen')
  {
    assert t[i..][tok.len..] == t[j..];
    var rest := ScanNames(t[j..]);
    assert (seen + [tok.name]) + rest == seen + ([tok.name] + rest);
  }

  /** One step of the scan at index i of t, where no token starts: the scan moves on by one. */
  lemma ScanStepPlain(t: string, i: nat, seen: seq<string>, j: nat)
    requires i < |t| && ScannedUpTo(t, i, seen)
    requires TokenPrefix(t[i..]).None?
    requires j == i + 1
    ensures ScannedUpTo(t, j, seen)
  {
    assert t[i..][1..] == t[j..];
  }

  lemma DedupAdds(xs: seq<string>, x: string)
    requires x !in Dedup(xs)
    ensures Dedup(xs + [x]) == Dedup(xs) + [x]
  {
    assert (xs + [x])[..|xs|] == xs;
  }

  lemma DedupKeeps(xs: seq<string>, x: string)
    requires x in Dedup(xs)
    ensures Dedup(xs + [x]) == Dedup(xs)
  {
    assert (xs + [x])[..|xs|] == xs;
  }

  /** The extraction loop of the injector: `regex.exec` from `lastIndex`, adding each captured
      name to an insertion-ordered set. */
  method ExtractVariables(content: string) returns (found: seq<string>)
    ensures found == Variables(content)
  {
    found := [];
    ghost var seen: seq<string> := [];
    var lastIndex: nat := 0;
    assert content[0..] == content;
    while lastIndex < |content|
      invariant ScannedUpTo(content, lastIndex, seen)
      invariant found == Dedup(seen)
      decreases |content| - lastIndex
    {
      var m := TokenPrefix(content[lastIndex..]);
      ghost var i0, seen0 := lastIndex, seen;
      if m.Some? {
        var tok := m.value;
        if tok.name !in found {
          DedupAdds(seen, tok.name);
          found := found + [tok.name];
        } else {
          DedupKeeps(seen, tok.name);
        }
        seen := seen + [tok.name];
        lastIndex := lastIndex + tok.len;
        ScanStepToken(content, i0, seen0, tok, lastIndex, seen);
      } else {
        lastIndex := lastIndex + 1;
        ScanStepPlain(content, i0, seen0, lastIndex);
      }
    }
    assert content[lastIndex..] == [];
    assert seen + [] == seen;
    assert ScanNames(content) == seen;
  }

  /** The text of a well-formed placeholder: `{{`, spaces, a name, spaces, `}}`. */
  function TokenText(pre: string, v: string, post: string): (s: string)
    ensures |s| == |pre| + |v| + |post| + 4
  {
    "{{" + pre + v + post + "}}"
  }

  /** A well-formed placeholder is matched in full, whatever follows it. */
  lemma TokenTextMatches(pre: string, v: string, post: string, rest: string)
    requires AllSpace(pre) && IsIdentifier(v) && AllSpace(post)
    ensures TokenPrefix(TokenText(pre, v, post) + rest) == Some(Token(v, |TokenText(pre, v, post)|))
  {
    var t := TokenText(pre, v, post) + rest;
    var a, b, n := 2 + |pre|, 2 + |pre| + |v|, |TokenText(pre, v, post)|;
    assert forall i :: 2 <= i < a ==> t[i] == pre[i - 2];
    assert forall i :: a <= i < b ==> t[i] == v[i - a];
    assert forall i :: b <= i < n - 2 ==> t[i] == post[i - b];
    assert t[a..b] == v;
    TokenPrefixComplete(t, a, b, n);
  }

  /** The scan passes over text that holds no `{`. */
  lemma {:induction false} ScanPlain(a: string, b: string)
    requires NoOpenBrace(a)
    ensures ScanNames(a + b) == ScanNames(b)
  {
    if a != [] {
      assert (a + b)[0] == a[0];
      assert TokenPrefix(a + b).None?;
      assert (a + b)[1..] == a[1..] + b;
      assert NoOpenBrace(a[1..]) by {
        forall i | 0 <= i < |a[1..]| ensures a[1..][i] != '{' { assert a[1..][i] == a[i + 1]; }
      }
      ScanPlain(a[1..], b);
    } else {
      assert a + b == b;
    }
  }

  /** The scan reports a well-formed placeholder and resumes after it. */
  lemma ScanToken(pre: string, v: string, post: string, rest: string)
    requires AllSpace(pre) && IsIdentifier(v) && AllSpace(post)
    ensures ScanNames(TokenText(pre, v, post) + rest) == [v] + ScanNames(rest)
  {
    TokenTextMatches(pre, v, post, rest);
    assert (TokenText(pre, v, post) + rest)[|TokenText(pre, v, post)|..] == rest;
  }

  lemma ScanTwo(s0: string, p1: string, x: string, q1: string, s1: string,
                p2: string, y: string, q2: string, s2: string)
    requires NoOpenBrace(s0) && NoOpenBrace(s1) && NoOpenBrace(s2)
    requires AllSpace(p1) && AllSpace(q1) && AllSpace(p2) && AllSpace(q2)
    requires IsIdentifier(x) && IsIdentifier(y)
    ensures ScanNames(s0 + (TokenText(p1, x, q1) + (s1 + (TokenText(p2, y, q2) + s2)))) == [x, y]
  {
    var t1, t2 := TokenText(p1, x, q1), TokenText(p2, y, q2);
    ScanPlain(s2, []);
    assert s2 + [] == s2;
    ScanToken(p2, y, q2, s2);
    ScanPlain(s1, t2 + s2);
    ScanToken(p1, x, q1, s1 + (t2 + s2));
    ScanPlain(s0, t1 + (s1 + (t2 + s2)));
  }

  /** Two placeholders amid plain text: listed in first-occurrence order, spaces inside the
      braces ignored, listed once when the names are equal, and names compared case-sensitively
      (`A` and `a` are two names). */
  lemma ExtractTwo(s0: string, p1: string, x: string, q1: string, s1: string,
                   p2: string, y: string, q2: string, s2: string)
    requires NoOpenBrace(s0) && NoOpenBrace(s1) && NoOpenBrace(s2)
    requires AllSpace(p1) && AllSpace(q1) && AllSpace(p2) && AllSpace(q2)
    requires IsIdentifier(x) && IsIdentifier(y)
    ensures Variables(s0 + TokenText(p1, x, q1) + s1 + TokenText(p2, y, q2) + s2) == if x == y then [x] else [x, y]
  {
    var t1, t2 := TokenText(p1, x, q1), TokenText(p2, y, q2);
    ScanTwo(s0, p1, x, q1, s1, p2, y, q2, s2);
    assert s0 + t1 + s1 + t2 + s2 == s0 + (t1 + (s1 + (t2 + s2)));
    DedupPair(x, y);
  }

  /** The name class admits a leading digit: `{{1bad}}` is a placeholder named `1bad`. */
  lemma LeadingDigitAccepted(rest: string)
    requires NoOpenBrace(rest)
    ensures Variables(TokenText("", "1bad", "") + rest) == ["1bad"]
  {
    assert IsIdentifier("1bad");
    ScanPlain(rest, []);
    assert rest + [] == rest;
    ScanToken("", "1bad", "", rest);
    DedupSingle("1bad");
  }

  lemma DedupSingle(x: string)
    ensures Dedup([x]) == [x]
  {
    assert [x][..0] == [];
    assert [] + [x] == [x];
  }

  lemma DedupPair(x: string, y: string)
    ensures Dedup([x, y]) == if x == y then [x] else [x, y]
  {
    DedupSingle(x);
    assert [x, y][..1] == [x];
    assert [x] + [y] == [x, y];
  }

  /** Where the text after the first `{` holds no other `{`, the scan finds a placeholder only
      by matching at that first brace. */
  lemma ScanLastBrace(t: string)
    requires |t| >= 1 && t[0] == '{' && NoOpenBrace(t[1..]) && TokenPrefix(t).None?
    ensures ScanNames(t) == []
  {
    ScanPlain(t[1..], []);
    assert t[1..] + [] == t[1..];
  }

  /** `{{ }}`: no name, no placeholder. */
  lemma EmptyNameIgnored(pre: string)
    requires AllSpace(pre)
    ensures Variables("{{" + pre + "}}") == []
  {
    var t := "{{" + pre + "}}";
    var a := 2 + |pre|;
    assert forall i :: 2 <= i < a ==> t[i] == pre[i - 2];
    SkipSpacesIs(t, 2, a);
    SkipIdentIs(t, a, a);
    var u := t[1..];
    assert u == "{" + pre + "}}";
    assert forall i :: 1 <= i < |u| ==> u[i] != '{' by {
      forall i | 1 <= i < |u| ensures u[i] != '{' {
        if i <= |pre| { assert u[i] == pre[i - 1]; ClassesDisjoint(pre[i - 1]); }
      }
    }
    assert u[1..] == pre + "}}";
    ScanLastBrace(u);
  }

  /** `{{a-b}}`: a character outside the name class ends the name before `}}`, so nothing matches. */
  lemma ForeignCharIgnored(x: string, y: string)
    requires IsIdentifier(x) && IsIdentifier(y)
    ensures Variables("{{" + x + "-" + y + "}}") == []
  {
    var t := "{{" + x + "-" + y + "}}";
    var b := 2 + |x|;
    assert forall i :: 2 <= i < b ==> t[i] == x[i - 2];
    assert t[b] == '-';
    SkipSpacesIs(t, 2, 2);
    SkipIdentIs(t, 2, b);
    SkipSpacesIs(t, b, b);
    var u := t[1..];
    assert u[1..] == x + "-" + y + "}}";
    assert NoOpenBrace(u[1..]) by {
      forall i | 0 <= i < |u[1..]| ensures u[1..][i] != '{' {
        if i < |x| { assert u[1..][i] == x[i]; }
        else if |x| < i < |x| + 1 + |y| { assert u[1..][i] == y[i - |x| - 1]; }
      }
    }
    ScanLastBrace(u);
  }

  /** `{{foo}`: an unclosed placeholder is not one. */
  lemma UnclosedIgnored(pre: string, x: string, post: string)
    requires AllSpace(pre) && IsIdentifier(x) && AllSpace(post)
    ensures Variables("{{" + pre + x + post + "}") == []
  {
    var t := "{{" + pre + x + post + "}";
    var a, b := 2 + |pre|, 2 + |pre| + |x|;
    assert forall i :: 2 <= i < a ==> t[i] == pre[i - 2];
    assert forall i :: a <= i < b ==> t[i] == x[i - a];
    assert forall i :: b <= i < |t| - 1 ==> t[i] == post[i - b];
    ClassesDisjoint(t[a]);
    SkipSpacesIs(t, 2, a);
    assert !IsIdentChar(t[b]) by { if b < |t| - 1 { ClassesDisjoint(t[b]); } }
    SkipIdentIs(t, a, b);
    SkipSpacesIs(t, b, |t| - 1);
    var u := t[1..];
    assert u[1..] == pre + x + post + "}";
    assert NoOpenBrace(u[1..]) by {
      forall i | 0 <= i < |u[1..]| ensures u[1..][i] != '{' {
        if i < |pre| { assert u[1..][i] == pre[i]; ClassesDisjoint(pre[i]); }
        else if i < |pre| + |x| { assert u[1..][i] == x[i - |pre|]; }
        else if i < |pre| + |x| + |post| { assert u[1..][i] == post[i - |pre| - |x|]; ClassesDisjoint(post[i - |pre| - |x|]); }
      }
    }
    ScanLastBrace(u);
  }

  /** `/\{\{\s*[a-zA-Z0-9_]+\s*\}\}/.test(t)`: the pattern matches at some position. */
  function HasVariables(t: string): bool
    decreases |t|
  {
    t != [] && (TokenPrefix(t).Some? || HasVariables(t[1..]))
  }

  /** `.test` succeeds exactly when a token starts at some index of the string. */
  lemma {:induction false} HasVariablesAt(t: string)
    ensures HasVariables(t) <==> exists i :: 0 <= i < |t| && TokenPrefix(t[i..]).Some?
  {
    if t != [] {
      HasVariablesAt(t[1..]);
      assert t[0..] == t;
      if HasVariables(t) {
        if TokenPrefix(t).None? {
          var i :| 0 <= i < |t[1..]| && TokenPrefix(t[1..][i..]).Some?;
          assert t[1..][i..] == t[i + 1..];
          assert TokenPrefix(t[i + 1..]).Some?;
        }
      } else {
        forall i | 0 <= i < |t| ensures TokenPrefix(t[i..]).None? {
          if i > 0 { assert t[1..][i - 1..] == t[i..]; }
        }
      }
    }
  }

  /** The check made before opening the injector agrees with the injector's own list: a template
      has variables exactly when extraction finds at least one. */
  lemma {:induction false} HasVariablesIffExtracted(t: string)
    ensures HasVariables(t) <==> |Variables(t)| > 0
    decreases |t|
  {
    if t != [] {
      match TokenPrefix(t)
      case Some(tok) =>
        assert ScanNames(t)[0] in Variables(t);
      case None =>
        HasVariablesIffExtracted(t[1..]);
        if |Variables(t[1..])| > 0 { assert Variables(t[1..])[0] in ScanNames(t); }
        if |Variables(t)| > 0 { assert Variables(t)[0] in ScanNames(t[1..]); }
    }
  }
}
