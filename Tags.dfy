/** The editor's tag field: the tags are shown as `tags.join(', ')` and read back with
    `value.split(',').map(s => s.trim())`. */
module Tags {
  import opened Chars

  /** `s.split(',')`: the pieces between commas, always at least one. */
  function Split(s: string): (parts: seq<string>)
    ensures |parts| >= 1
    ensures forall k :: 0 <= k < |parts| ==> ',' !in parts[k]
    decreases |s|
  {
    if s == [] then [""]
    else if s[0] == ',' then [""] + Split(s[1..])
    else
      var rest := Split(s[1..]);
      [[s[0]] + rest[0]] + rest[1..]
  }

  function CountCommas(s: string): nat {
    if s == [] then 0 else (if s[0] == ',' then 1 else 0) + CountCommas(s[1..])
  }

  /** `a.join(sep)`. */
  function Join(parts: seq<string>, sep: string): string {
    if parts == [] then ""
    else if |parts| == 1 then parts[0]
    else parts[0] + sep + Join(parts[1..], sep)
  }

  /** Splitting undoes joining with a comma, for pieces without a comma. */
  lemma {:induction false} SplitJoin(parts: seq<string>)
    requires |parts| >= 1 && forall k :: 0 <= k < |parts| ==> ',' !in parts[k]
    ensures Split(Join(parts, ",")) == parts
    decreases |parts|
  {
    if |parts| == 1 {
      SplitPlain(parts[0], "");
      assert parts[0] + "" == parts[0];
    } else {
      SplitJoin(parts[1..]);
      var tail := Join(parts[1..], ",");
      assert Join(parts, ",") == parts[0] + ("," + tail);
      SplitPlain(parts[0], "," + tail);
      assert ("," + tail)[0] == ',' && ("," + tail)[1..] == tail;
      assert Split("," + tail) == [""] + Split(tail);
      assert parts[0] + "" == parts[0];
      assert parts == [parts[0]] + parts[1..];
    }
  }

  /** A piece without a comma is glued to the first piece of what follows it. */
  lemma {:induction false} SplitPlain(a: string, b: string)
    requires ',' !in a
    ensures Split(a + b) == [a + Split(b)[0]] + Split(b)[1..]
    decreases |a|
  {
    if a != [] {
      assert (a + b)[0] == a[0];
      assert (a + b)[1..] == a[1..] + b;
      SplitPlain(a[1..], b);
      var rest := Split(a[1..] + b);
      assert rest[0] == a[1..] + Split(b)[0] && rest[1..] == Split(b)[1..];
      assert [a[0]] + (a[1..] + Split(b)[0]) == a + Split(b)[0];
    } else {
      assert a + b == b && a + Split(b)[0] == Split(b)[0];
      assert Split(b) == [Split(b)[0]] + Split(b)[1..];
    }
  }

  /** There is one piece more than there are commas. */
  lemma {:induction false} SplitCount(s: string)
    ensures |Split(s)| == CountCommas(s) + 1
    decreases |s|
  {
    if s != [] {
      SplitCount(s[1..]);
    }
  }

  /** The pieces, joined back with commas, are the input. */
  lemma {:induction false} JoinSplit(s: string)
    ensures Join(Split(s), ",") == s
    decreases |s|
  {
    if s != [] {
      JoinSplit(s[1..]);
      var rest := Split(s[1..]);
      if s[0] == ',' {
        assert [""] + rest == [""] + rest;
        assert Join([""] + rest, ",") == "" + "," + Join(rest, ",");
        assert s == "," + s[1..];
      } else {
        JoinHead(s[0], rest);
        assert s == [s[0]] + s[1..];
      }
    }
  }

  lemma JoinHead(c: char, parts: seq<string>)
    requires |parts| >= 1
    ensures Join([[c] + parts[0]] + parts[1..], ",") == [c] + Join(parts, ",")
  {
    var p := [[c] + parts[0]] + parts[1..];
    if |parts| > 1 {
      assert p[1..] == parts[1..];
    }
  }

  /** Where `s.trimStart()` begins when scanning from `i`: the first index at or after `i`
      that does not hold a space, or `|s|`. */
  function SkipSpaces(s: string, i: nat): (n: nat)
    requires i <= |s|
    ensures i <= n <= |s|
    ensures forall k :: i <= k < n ==> IsSpace(s[k])
    ensures n == |s| || !IsSpace(s[n])
    decreases |s| - i
  {
    if i < |s| && IsSpace(s[i]) then SkipSpaces(s, i + 1) else i
  }

  /** Where `s.trimEnd()` ends when scanning down from `hi` to `lo`: the last index after a
      character that is not a space, or `lo`. */
  function BackSpaces(s: string, lo: nat, hi: nat): (n: nat)
    requires lo <= hi <= |s|
    ensures lo <= n <= hi
    ensures forall k :: n <= k < hi ==> IsSpace(s[k])
    ensures n == lo || !IsSpace(s[n - 1])
    decreases hi
  {
    if lo < hi && IsSpace(s[hi - 1]) then BackSpaces(s, lo, hi - 1) else hi
  }

  /** `s.trim()`: `s` without its leading and trailing spaces. The result is a slice of `s`
      between runs of spaces, and it starts and ends with a character that is not a space. */
  function Trim(s: string): (r: string)
    ensures exists i, j :: SliceBetweenSpaces(s, i, j, r)
    ensures IsTrimmed(r)
    ensures forall c :: c in r ==> c in s
  {
    var i := SkipSpaces(s, 0);
    var j := BackSpaces(s, i, |s|);
    assert SliceBetweenSpaces(s, i, j, s[i..j]);
    s[i..j]
  }

  /** `r` is `s[i..j]`, and only spaces lie outside that slice. */
  predicate SliceBetweenSpaces(s: string, i: int, j: int, r: string) {
    0 <= i <= j <= |s| && r == s[i..j]
    && (forall k :: 0 <= k < i ==> IsSpace(s[k]))
    && (forall k :: j <= k < |s| ==> IsSpace(s[k]))
  }

  lemma TrimKeeps(s: string, c: char)
    requires c !in s
    ensures c !in Trim(s)
  {
  }

  predicate IsTrimmed(s: string) {
    s == [] || (!IsSpace(s[0]) && !IsSpace(s[|s| - 1]))
  }

  lemma TrimmedIsFixed(s: string)
    requires IsTrimmed(s)
    ensures Trim(s) == s
  {
  }

  function TrimAll(parts: seq<string>): (r: seq<string>)
    ensures |r| == |parts| && forall k :: 0 <= k < |parts| ==> r[k] == Trim(parts[k])
  {
    if parts == [] then [] else [Trim(parts[0])] + TrimAll(parts[1..])
  }

  /** The tag input's `onChange`: split on commas and trim each piece. */
  function ParseTags(s: string): (tags: seq<string>)
    ensures |tags| == CountCommas(s) + 1
    ensures forall k :: 0 <= k < |tags| ==> IsTrimmed(tags[k]) && ',' !in tags[k]
    ensures |tags| == |Split(s)| && forall k :: 0 <= k < |tags| ==> tags[k] == Trim(Split(s)[k])
  {
    SplitCount(s);
    var parts := Split(s);
    var r := TrimAll(parts);
    assert forall k :: 0 <= k < |r| ==> IsTrimmed(r[k]) && ',' !in r[k] by {
      forall k | 0 <= k < |r| ensures IsTrimmed(r[k]) && ',' !in r[k] {
        TrimKeeps(parts[k], ',');
      }
    }
    r
  }

  /** The tag input's `value`. */
  function ShowTags(tags: seq<string>): string {
    Join(tags, ", ")
  }

  /** An empty field gives one empty tag. */
  lemma ParseEmpty()
    ensures ParseTags("") == [""]
  {
  }

  /** Reading back what the field shows gives the tags again, when there is at least one tag
      and no tag holds a comma or starts or ends with a space; with no tags, the field shows
      "" and reads back as one empty tag. */
  lemma ParseShowTags(tags: seq<string>)
    requires forall k :: 0 <= k < |tags| ==> ',' !in tags[k] && IsTrimmed(tags[k])
    ensures |tags| >= 1 ==> ParseTags(ShowTags(tags)) == tags
    ensures tags == [] ==> ParseTags(ShowTags(tags)) == [""]
  {
    if |tags| >= 1 {
      var spaced := [tags[0]] + SpaceEach(tags[1..]);
      assert Split(ShowTags(tags)) == spaced by {
        JoinSpaced(tags);
        assert forall k :: 0 <= k < |spaced| ==> ',' !in spaced[k];
        SplitJoin(spaced);
      }
      TrimAllSpaced(tags);
    }
  }

  lemma TrimAllSpaced(tags: seq<string>)
    requires |tags| >= 1 && forall k :: 0 <= k < |tags| ==> IsTrimmed(tags[k])
    ensures TrimAll([tags[0]] + SpaceEach(tags[1..])) == tags
  {
    var spaced := [tags[0]] + SpaceEach(tags[1..]);
    var trimmed := TrimAll(spaced);
    forall k | 0 <= k < |tags| ensures trimmed[k] == tags[k] {
      TrimSpacedAt(tags, k);
    }
  }

  lemma TrimSpacedAt(tags: seq<string>, k: nat)
    requires k < |tags| && IsTrimmed(tags[k])
    ensures Trim(([tags[0]] + SpaceEach(tags[1..]))[k]) == tags[k]
  {
    if k > 0 {
      assert ([tags[0]] + SpaceEach(tags[1..]))[k] == " " + tags[k];
      TrimLeadingSpace(tags[k]);
    } else {
      TrimmedIsFixed(tags[0]);
    }
  }

  function SpaceEach(parts: seq<string>): (r: seq<string>)
    ensures |r| == |parts| && forall k :: 0 <= k < |parts| ==> r[k] == " " + parts[k]
  {
    if parts == [] then [] else [" " + parts[0]] + SpaceEach(parts[1..])
  }

  /** Joining with ", " is joining with "," after putting a space before every piece but
      the first. */
  lemma {:induction false} JoinSpaced(parts: seq<string>)
    requires |parts| >= 1
    ensures Join(parts, ", ") == Join([parts[0]] + SpaceEach(parts[1..]), ",")
    decreases |parts|
  {
    if |parts| > 1 {
      JoinSpaced(parts[1..]);
      var sp := SpaceEach(parts[1..]);
      var rest := [parts[1]] + SpaceEach(parts[2..]);
      assert parts[1..][1..] == parts[2..];
      var lhs := [parts[0]] + sp;
      assert lhs[1..] == sp;
      assert sp == [" " + parts[1]] + SpaceEach(parts[2..]);
      JoinSpacedHead(parts[1], SpaceEach(parts[2..]));
      assert parts[0] + ", " + Join(parts[1..], ", ") == parts[0] + "," + (" " + Join(rest, ","));
    }
  }

  lemma JoinSpacedHead(a: string, rest: seq<string>)
    ensures Join([" " + a] + rest, ",") == " " + Join([a] + rest, ",")
  {
    if rest != [] {
      assert ([" " + a] + rest)[1..] == rest;
      assert ([a] + rest)[1..] == rest;
    }
  }

  lemma TrimLeadingSpace(t: string)
    requires IsTrimmed(t)
    ensures Trim(" " + t) == t
  {
    assert (" " + t)[1..] == t;
  }
}
