/** The pure parts of the palette's search view: the filtered list, the create command, the
    wrap-around arrow navigation, the scroll-into-view rule and the row snippet. */
module Search {
  import opened Chars
  import opened Records

  // ---------------------------------------------------------------------------------------
  // Filtering

  /** `s.includes(q)`. */
  predicate Includes(s: string, q: string)
    decreases |s|
  {
    q == [] || (|q| <= |s| && (s[..|q|] == q || Includes(s[1..], q)))
  }

  /** `q` occurs in `s` at index `k`. */
  predicate OccursAt(s: string, q: string, k: int) {
    0 <= k && k + |q| <= |s| && s[k..k + |q|] == q
  }

  /** `includes` holds exactly when `q` occurs at some index of `s`. */
  lemma {:induction false} IncludesIff(s: string, q: string)
    ensures Includes(s, q) <==> exists k :: OccursAt(s, q, k)
    decreases |s|
  {
    if q == [] {
      assert OccursAt(s, q, 0);
    } else if |q| <= |s| {
      IncludesIff(s[1..], q);
      if s[..|q|] == q {
        assert OccursAt(s, q, 0);
      } else if Includes(s[1..], q) {
        var k :| OccursAt(s[1..], q, k);
        assert s[k + 1..k + 1 + |q|] == s[1..][k..k + |q|];
        assert OccursAt(s, q, k + 1);
      }
      if k :| OccursAt(s, q, k) {
        if k > 0 {
          assert s[1..][k - 1..k - 1 + |q|] == s[k..k + |q|];
          assert OccursAt(s[1..], q, k - 1);
        }
      }
    } else {
      if k :| OccursAt(s, q, k) {
        assert false;
      }
    }
  }

  /** The filter's test: the lower-cased query occurs in the lower-cased title or in some
      lower-cased tag. */
  predicate Matches(p: Prompt, q: string) {
    Includes(Lower(p.title), Lower(q)) || exists j :: 0 <= j < |p.tags| && Includes(Lower(p.tags[j]), Lower(q))
  }

  /** `prompts.filter(p => Matches(p, q))`. */
  function Filtered(prompts: seq<Prompt>, q: string): (r: seq<Prompt>)
    ensures |r| <= |prompts|
    ensures forall p :: p in r <==> p in prompts && Matches(p, q)
  {
    if prompts == [] then []
    else if Matches(prompts[0], q) then [prompts[0]] + Filtered(prompts[1..], q)
    else Filtered(prompts[1..], q)
  }

  /** The filtered list keeps the order of the full list. */
  lemma {:induction false} FilteredKeepsOrder(prompts: seq<Prompt>, q: string)
    ensures IsSubsequence(Filtered(prompts, q), prompts)
  {
    if prompts != [] {
      FilteredKeepsOrder(prompts[1..], q);
    }
  }

  /** When the query is empty every prompt is listed. */
  lemma {:induction false} EmptyQueryKeepsAll(prompts: seq<Prompt>)
    ensures Filtered(prompts, "") == prompts
  {
    if prompts != [] {
      assert Matches(prompts[0], "");
      EmptyQueryKeepsAll(prompts[1..]);
      assert [prompts[0]] + prompts[1..] == prompts;
    }
  }

  // ---------------------------------------------------------------------------------------
  // The create command

  /** The two builds of the palette: the browser extension and the web page. */
  datatype Variant = Extension | Web

  /** `新建`, "create new". */
  const CreateWordZh: string := "\U{65B0}\U{5EFA}"

  /** The query that offers to create a prompt: `new` in any letter case, and in the extension
      also the Chinese word, compared exactly. */
  predicate IsCreateCommand(variant: Variant, q: string) {
    Lower(q) == "new" || (variant == Extension && q == CreateWordZh)
  }

  /** The web build accepts only `new`; the extension build accepts the Chinese word too. */
  lemma CreateCommandVariants(q: string)
    ensures IsCreateCommand(Web, q) <==> Lower(q) == "new"
    ensures IsCreateCommand(Extension, q) <==> IsCreateCommand(Web, q) || q == CreateWordZh
    ensures IsCreateCommand(Extension, CreateWordZh) && !IsCreateCommand(Web, CreateWordZh)
  {
    assert Lower(CreateWordZh)[0] == LowerChar(CreateWordZh[0]) == CreateWordZh[0];
  }

  // ---------------------------------------------------------------------------------------
  // Arrow navigation

  /** The selected index: a number, or NaN once `% 0` has been taken on an empty list. */
  datatype Index = Row(i: int) | NotANumber

  /** JavaScript's `a % n`: NaN for `n == 0`, otherwise the remainder with the sign of `a`. */
  function JsRem(a: int, n: nat): (r: Index)
    ensures n == 0 <==> r == NotANumber
    ensures n > 0 && a >= 0 ==> r == Row(a % n)
    ensures r.Row? ==> -(n as int) < r.i < n
  {
    if n == 0 then NotANumber
    else if a >= 0 then Row(a % n)
    else Row(-((-a) % n))
  }

  /** `(prev + 1) % n`. */
  function Down(idx: Index, n: nat): Index {
    match idx
    case Row(i) => JsRem(i + 1, n)
    case NotANumber => NotANumber
  }

  /** `(prev - 1 + n) % n`. */
  function Up(idx: Index, n: nat): Index {
    match idx
    case Row(i) => JsRem(i - 1 + n, n)
    case NotANumber => NotANumber
  }

  predicate InRange(idx: Index, n: nat) {
    idx.Row? && 0 <= idx.i < n
  }

  /** On a non-empty list, from any index that is not negative, both arrows land on a row of
      the list; ArrowUp from the first row lands on the last. */
  lemma ArrowsStayInRange(i: int, n: nat)
    requires n > 0 && i >= 0
    ensures InRange(Down(Row(i), n), n) && InRange(Up(Row(i), n), n)
    ensures Up(Row(0), n) == Row(n - 1)
  {
    assert Down(Row(i), n) == Row((i + 1) % n);
    assert Up(Row(i), n) == Row((i - 1 + n) % n);
    assert Up(Row(0), n) == Row((n - 1) % n);
  }

  /** On an empty list either arrow makes the index NaN, and NaN stays NaN. */
  lemma ArrowsOnEmptyList(idx: Index)
    ensures Down(idx, 0) == NotANumber && Up(idx, 0) == NotANumber
  {
  }

  /** ArrowDown on a row of the list moves one row down, from the last row to the first. */
  lemma DownStep(j: int, n: nat)
    requires 0 <= j < n
    ensures Down(Row(j), n) == Row(if j + 1 < n then j + 1 else 0)
  {
  }

  function DownTimes(idx: Index, n: nat, k: nat): Index {
    if k == 0 then idx else Down(DownTimes(idx, n, k - 1), n)
  }

  /** Up to n presses of ArrowDown from row i move k rows down, wrapping past the last row to
      the first. */
  lemma {:induction false} DownTimesIs(i: int, n: nat, k: nat)
    requires 0 <= i < n && k <= n
    ensures DownTimes(Row(i), n, k) == Row(if i + k < n then i + k else i + k - n)
  {
    if k > 0 {
      DownTimesIs(i, n, k - 1);
      var j := if i + k - 1 < n then i + k - 1 else i + k - 1 - n;
      assert DownTimes(Row(i), n, k) == Down(Row(j), n);
      DownStep(j, n);
    }
  }

  /** n presses of ArrowDown return to the starting row. */
  lemma DownCycle(i: int, n: nat)
    requires 0 <= i < n
    ensures DownTimes(Row(i), n, n) == Row(i)
  {
    DownTimesIs(i, n, n);
  }

  /** ArrowUp undoes ArrowDown on the rows of the list. */
  lemma UpUndoesDown(i: int, n: nat)
    requires 0 <= i < n
    ensures Up(Down(Row(i), n), n) == Row(i)
  {
  }

  /** `filteredPrompts[selectedIndex]`: the row at the index, if there is one (an index past the
      end, a negative one or NaN selects nothing). */
  function RowAt(list: seq<Prompt>, idx: Index): (r: Option<Prompt>)
    ensures r.Some? <==> InRange(idx, |list|)
    ensures r.Some? ==> r.value == list[idx.i]
  {
    if InRange(idx, |list|) then Some(list[idx.i]) else None
  }

  // ---------------------------------------------------------------------------------------
  // Scrolling the selected row into view

  /** The new `scrollTop` of the list for a row at `top` of height `height`. */
  function ScrollTop(top: int, height: int, scrollTop: int, clientHeight: int): int {
    if top + height > scrollTop + clientHeight then top + height - clientHeight
    else if top < scrollTop then top
    else scrollTop
  }

  /** After the rule the row lies in the viewport whenever it fits in it, and a row already in
      the viewport does not move it. */
  lemma ScrollBringsIntoView(top: int, height: int, scrollTop: int, clientHeight: int)
    requires 0 <= height <= clientHeight
    ensures var s := ScrollTop(top, height, scrollTop, clientHeight);
      s <= top && top + height <= s + clientHeight
    ensures scrollTop <= top && top + height <= scrollTop + clientHeight ==>
      ScrollTop(top, height, scrollTop, clientHeight) == scrollTop
  {
  }

  /** The viewport moves no further than needed: any other position `other` that shows the row
      lies at least as far from the old position, on the same side. */
  lemma ScrollIsMinimal(top: int, height: int, scrollTop: int, clientHeight: int, other: int)
    requires 0 <= height <= clientHeight
    requires other <= top && top + height <= other + clientHeight
    ensures var s := ScrollTop(top, height, scrollTop, clientHeight);
      (scrollTop <= s <= other) || (other <= s <= scrollTop)
  {
  }

  // ---------------------------------------------------------------------------------------
  // The row snippet

  /** `content.substring(0, 50).replace(/\n/g, ' ')`. */
  function Snippet(content: string): (r: string)
    ensures |r| <= 50 && |r| == if |content| < 50 then |content| else 50
    ensures forall i :: 0 <= i < |r| ==> r[i] != '\n'
    ensures forall i :: 0 <= i < |r| ==> r[i] == (if content[i] == '\n' then ' ' else content[i])
  {
    var head := if |content| < 50 then content else content[..50];
    seq(|head|, i requires 0 <= i < |head| => if head[i] == '\n' then ' ' else head[i])
  }
}
