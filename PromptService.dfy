/** The prompt service over the `prompts` object store: records keyed by `id`, an `updatedAt`
    index for the listing, and the five requests the application makes. The clock and the id
    generator are parameters. */
module PromptService {
  import opened Records
  import opened PromptLists

  // ---------------------------------------------------------------------------------------
  // Records built by the requests

  /** The record `add` builds from a form: the form's fields, the fresh id, both timestamps at
      `now`, no uses and not a favourite. */
  function NewRecord(form: PromptForm, id: string, now: int): (r: Prompt)
    ensures FormOf(r) == form && r.id == id
    ensures r.createdAt == now && r.updatedAt == now && r.usageCount == 0 && !r.isFavorite
  {
    Prompt(id, form.title, form.content, form.tags, now, now, 0, false)
  }

  /** `{ ...p, updatedAt: now }`: only the modification time changes. */
  function Touched(p: Prompt, now: int): (r: Prompt)
    ensures FormOf(r) == FormOf(p) && r.id == p.id && r.createdAt == p.createdAt
    ensures r.usageCount == p.usageCount && r.isFavorite == p.isFavorite && r.updatedAt == now
  {
    p.(updatedAt := now)
  }

  /** `{ ...p, usageCount: (p.usageCount || 0) + 1 }`: one more use, and nothing else changes,
      the modification time included. */
  function Bumped(p: Prompt): (r: Prompt)
    ensures FormOf(r) == FormOf(p) && r.id == p.id && r.createdAt == p.createdAt
    ensures r.updatedAt == p.updatedAt && r.isFavorite == p.isFavorite
    ensures r.usageCount == p.usageCount + 1
  {
    p.(usageCount := p.usageCount + 1)
  }

  // ---------------------------------------------------------------------------------------
  // The listing order

  /** IndexedDB's order on string keys: code unit by code unit, a proper prefix first. */
  predicate IdLess(a: string, b: string)
    decreases |a|
  {
    |b| > 0 && (|a| == 0 || a[0] < b[0] || (a[0] == b[0] && IdLess(a[1..], b[1..])))
  }

  lemma {:induction false} IdLessAsymmetric(a: string, b: string)
    ensures !(IdLess(a, b) && IdLess(b, a))
    decreases |a|
  {
    if |a| > 0 && |b| > 0 && a[0] == b[0] {
      IdLessAsymmetric(a[1..], b[1..]);
    }
  }

  lemma {:induction false} IdLessTransitive(a: string, b: string, c: string)
    requires IdLess(a, b) && IdLess(b, c)
    ensures IdLess(a, c)
    decreases |a|
  {
    if |a| > 0 && a[0] == b[0] && b[0] == c[0] {
      IdLessTransitive(a[1..], b[1..], c[1..]);
    }
  }

  lemma {:induction false} IdLessTotal(a: string, b: string)
    requires a != b
    ensures IdLess(a, b) || IdLess(b, a)
    decreases |a|
  {
    if |a| > 0 && |b| > 0 && a[0] == b[0] {
      assert a == [a[0]] + a[1..] && b == [b[0]] + b[1..];
      IdLessTotal(a[1..], b[1..]);
    }
  }

  /** `p` is listed before `q`: the `updatedAt` index orders by time and then by primary key,
      and `getAll` reverses that, so the newer record comes first and a tie puts the greater
      id first. */
  predicate Before(p: Prompt, q: Prompt) {
    p.updatedAt > q.updatedAt || (p.updatedAt == q.updatedAt && IdLess(q.id, p.id))
  }

  /** `Before` is a strict order, total on records with different ids. */
  lemma BeforeIsStrictTotal(p: Prompt, q: Prompt, s: Prompt)
    ensures !(Before(p, q) && Before(q, p))
    ensures Before(p, q) && Before(q, s) ==> Before(p, s)
    ensures p.id != q.id ==> Before(p, q) || Before(q, p)
  {
    IdLessAsymmetric(p.id, q.id);
    if Before(p, q) && Before(q, s) && p.updatedAt == q.updatedAt == s.updatedAt {
      IdLessTransitive(s.id, q.id, p.id);
    }
    if p.id != q.id {
      IdLessTotal(p.id, q.id);
    }
  }

  predicate Descending(list: seq<Prompt>) {
    forall i, j :: 0 <= i < j < |list| ==> Before(list[i], list[j])
  }

  /** `list` is what `getAll` returns for `records`: each stored record once, newest first. */
  ghost predicate IsListing(list: seq<Prompt>, records: map<string, Prompt>) {
    Descending(list) && forall p :: p in list <==> p.id in records && records[p.id] == p
  }

  /** Puts `p` into a listing at its place. */
  function InsertSorted(list: seq<Prompt>, p: Prompt): (r: seq<Prompt>)
    requires Descending(list) && forall i :: 0 <= i < |list| ==> list[i].id != p.id
    ensures Descending(r) && forall q :: q in r <==> q in list || q == p
  {
    if list == [] || Before(p, list[0]) then
      assert forall j :: 0 <= j < |list| ==> Before(p, list[j]) by {
        forall j | 0 <= j < |list| ensures Before(p, list[j]) {
          if j > 0 {
            BeforeIsStrictTotal(p, list[0], list[j]);
          }
        }
      }
      [p] + list
    else
      BeforeIsStrictTotal(p, list[0], p);
      var rest := InsertSorted(list[1..], p);
      var r := [list[0]] + rest;
      assert forall j :: 0 < j < |r| ==> Before(list[0], r[j]) by {
        forall j | 0 < j < |r| ensures Before(list[0], r[j]) {
          assert r[j] in rest;
          if r[j] != p {
            var k :| 0 <= k < |list[1..]| && list[1..][k] == r[j];
            assert list[k + 1] == r[j];
          }
        }
      }
      assert forall q :: q in list <==> q == list[0] || q in list[1..] by {
        assert list == [list[0]] + list[1..];
      }
      r
  }

  /** The listing is determined by the records: two listings of the same records are equal. */
  lemma {:induction false} ListingIsUnique(a: seq<Prompt>, b: seq<Prompt>)
    requires Descending(a) && Descending(b) && forall p :: p in a <==> p in b
    ensures a == b
    decreases |a| + |b|
  {
    if a == [] {
      if b != [] {
        HeadIsMember(b);
        assert false;
      }
    } else {
      assert a[0] in b;
      if a[0] != b[0] {
        assert a[0] in b && b[0] in a;
        var i :| 0 <= i < |a| && a[i] == b[0];
        var j :| 0 <= j < |b| && b[j] == a[0];
        assert Before(a[0], b[0]) && Before(b[0], a[0]);
        BeforeIsStrictTotal(a[0], b[0], a[0]);
      } else {
        DescendingTail(a);
        DescendingTail(b);
        forall p ensures p in a[1..] <==> p in b[1..] {
          assert p in a <==> p == a[0] || p in a[1..] by { assert a == [a[0]] + a[1..]; }
          assert p in b <==> p == b[0] || p in b[1..] by { assert b == [b[0]] + b[1..]; }
        }
        ListingIsUnique(a[1..], b[1..]);
        assert a == [a[0]] + a[1..] && b == [b[0]] + b[1..];
      }
    }
  }

  lemma HeadIsMember(b: seq<Prompt>)
    requires b != []
    ensures b[0] in b
  {
  }

  /** The head of a listing is not repeated in its tail, and the tail is a listing too. */
  lemma DescendingTail(a: seq<Prompt>)
    requires Descending(a) && a != []
    ensures Descending(a[1..]) && a[0] !in a[1..]
  {
    if a[0] in a[1..] {
      var k :| 0 <= k < |a[1..]| && a[1..][k] == a[0];
      assert Before(a[0], a[k + 1]);
      BeforeIsStrictTotal(a[0], a[0], a[0]);
    }
    assert forall i, j :: 0 <= i < j < |a[1..]| ==> a[1..][i] == a[i + 1] && a[1..][j] == a[j + 1];
  }

  /** A listing is newest first. */
  lemma ListingIsNewestFirst(list: seq<Prompt>, records: map<string, Prompt>)
    requires IsListing(list, records)
    ensures forall i, j :: 0 <= i < j < |list| ==> list[i].updatedAt >= list[j].updatedAt
  {
  }

  /** A record strictly newer than every other stored record heads the listing: this is where
      an added or updated prompt lands. */
  lemma NewestHeadsListing(list: seq<Prompt>, records: map<string, Prompt>, r: Prompt)
    requires IsListing(list, records) && r.id in records && records[r.id] == r
    requires forall k :: k in records && k != r.id ==> records[k].updatedAt < r.updatedAt
    ensures list != [] && list[0] == r
  {
    assert r in list;
    var i :| 0 <= i < |list| && list[i] == r;
    if i > 0 {
      assert Before(list[0], r);
      assert list[0] in list;
      if list[0].id == r.id {
        assert list[0] == r;
        BeforeIsStrictTotal(r, r, r);
      }
    }
  }

  /** Counting a use of a stored record keeps the listing order: the listing after the request
      is the old listing with that record replaced in place. */
  lemma UsageKeepsListingOrder(list: seq<Prompt>, records: map<string, Prompt>, p: Prompt)
    requires IsListing(list, records) && p.id in records && records[p.id] == p
    requires forall k :: k in records ==> records[k].id == k
    ensures IsListing(ReplaceById(list, Bumped(p)), records[p.id := Bumped(p)])
  {
    var r := ReplaceById(list, Bumped(p));
    var records' := records[p.id := Bumped(p)];
    forall i, j | 0 <= i < j < |r| ensures Before(r[i], r[j]) {
      assert Before(list[i], list[j]);
    }
    forall q ensures q in r <==> q.id in records' && records'[q.id] == q {
      if q in r {
        var i :| 0 <= i < |r| && r[i] == q;
        assert list[i] in list;
      }
      if q.id in records' && records'[q.id] == q {
        if q.id == p.id {
          assert p in list;
          var i :| 0 <= i < |list| && list[i] == p;
          assert r[i] == q;
        } else {
          assert q in list;
          var i :| 0 <= i < |list| && list[i] == q;
          assert r[i] == q;
        }
      }
    }
  }

  // ---------------------------------------------------------------------------------------
  // The store

  class Store {
    var records: map<string, Prompt>

    /** The object store's key path is `id`. */
    ghost predicate Valid()
      reads this
    {
      forall k :: k in records ==> records[k].id == k
    }

    constructor()
      ensures Valid() && records == map[]
    {
      records := map[];
    }

    /** `store.add(p)`: inserts, and fails without writing when the key is taken. */
    method Insert(p: Prompt) returns (r: Result<Prompt, StoreError>)
      requires Valid()
      modifies this
      ensures Valid()
      ensures old(p.id in records) ==> r == Failure(ConstraintError) && records == old(records)
      ensures old(p.id !in records) ==> r == Success(p) && records == old(records)[p.id := p]
    {
      if p.id in records {
        r := Failure(ConstraintError);
      } else {
        records := records[p.id := p];
        r := Success(p);
      }
    }

    /** `add(form)` with the fresh id and the time as parameters. */
    method Add(form: PromptForm, id: string, now: int) returns (r: Result<Prompt, StoreError>)
      requires Valid()
      modifies this
      ensures Valid()
      ensures old(id in records) ==> r == Failure(ConstraintError) && records == old(records)
      ensures old(id !in records) ==> r == Success(NewRecord(form, id, now)) && records == old(records)[id := NewRecord(form, id, now)]
    {
      r := Insert(NewRecord(form, id, now));
    }

    /** `update(p)`: `put` of the touched record, inserting or overwriting. */
    method Update(p: Prompt, now: int) returns (r: Prompt)
      requires Valid()
      modifies this
      ensures Valid()
      ensures r == Touched(p, now) && records == old(records)[p.id := r]
    {
      r := Touched(p, now);
      records := records[p.id := r];
    }

    /** `delete(id)`: only that key goes. */
    method Delete(id: string)
      requires Valid()
      modifies this
      ensures Valid()
      ensures records == old(records) - {id}
    {
      records := records - {id};
    }

    /** `incrementUsage(p)`: `put` of the bumped copy of `p` (the copy passed in, not the stored
        record). */
    method IncrementUsage(p: Prompt) returns (r: Prompt)
      requires Valid()
      modifies this
      ensures Valid()
      ensures r == Bumped(p) && records == old(records)[p.id := r]
    {
      r := Bumped(p);
      records := records[p.id := r];
    }

    /** `getAll()`: every stored record once, newest first. */
    method GetAll() returns (list: seq<Prompt>)
      requires Valid()
      ensures IsListing(list, records)
    {
      list := [];
      var rest := records.Keys;
      while rest != {}
        invariant rest <= records.Keys && Descending(list)
        invariant forall p :: p in list <==> p.id in records && p.id !in rest && records[p.id] == p
        decreases |rest|
      {
        var k :| k in rest;
        list := InsertSorted(list, records[k]);
        rest := rest - {k};
      }
    }
  }
}
