/** The in-memory list of prompts the palette keeps, and the three ways its handlers rewrite it:
    `prev.map(p => p.id === u.id ? u : p)`, `prev.filter(p => p.id !== id)` and
    `prompts.find(p => p.id === id)`. */
module PromptLists {
  import opened Records

  /** No two entries of the list share an id. */
  predicate UniqueIds(list: seq<Prompt>) {
    forall i, j :: 0 <= i < j < |list| ==> list[i].id != list[j].id
  }

  /** Some entry of the list has id `id`. */
  predicate HasId(list: seq<Prompt>, id: string) {
    exists i :: 0 <= i < |list| && list[i].id == id
  }

  /** `list.map(p => p.id === u.id ? u : p)`: every entry with `u`'s id becomes `u`. */
  function ReplaceById(list: seq<Prompt>, u: Prompt): (r: seq<Prompt>)
    ensures |r| == |list|
    ensures forall i :: 0 <= i < |list| ==> r[i] == (if list[i].id == u.id then u else list[i])
  {
    if list == [] then []
    else [if list[0].id == u.id then u else list[0]] + ReplaceById(list[1..], u)
  }

  /** Replacing keeps every position's id, so the ids stay unique, and an entry with `u`'s id
      is `u` afterwards exactly when the list had one. */
  lemma ReplaceKeepsIds(list: seq<Prompt>, u: Prompt)
    ensures forall i :: 0 <= i < |list| ==> ReplaceById(list, u)[i].id == list[i].id
    ensures UniqueIds(list) ==> UniqueIds(ReplaceById(list, u))
    ensures u in ReplaceById(list, u) <==> HasId(list, u.id) || u in list
  {
    var r := ReplaceById(list, u);
    if HasId(list, u.id) {
      var i :| 0 <= i < |list| && list[i].id == u.id;
      assert r[i] == u;
    }
    if u in list {
      var i :| 0 <= i < |list| && list[i] == u;
      assert r[i] == u;
    }
  }

  /** Replacing a record by itself changes nothing. */
  lemma {:induction false} ReplaceBySelf(list: seq<Prompt>, u: Prompt)
    requires forall i :: 0 <= i < |list| && list[i].id == u.id ==> list[i] == u
    ensures ReplaceById(list, u) == list
  {
    if list != [] {
      ReplaceBySelf(list[1..], u);
      assert [list[0]] + list[1..] == list;
    }
  }

  /** `list.filter(p => p.id !== id)`. */
  function RemoveById(list: seq<Prompt>, id: string): (r: seq<Prompt>)
    ensures |r| <= |list|
    ensures forall p :: p in r <==> p in list && p.id != id
  {
    if list == [] then []
    else if list[0].id != id then [list[0]] + RemoveById(list[1..], id)
    else RemoveById(list[1..], id)
  }

  /** Removing keeps the other entries in their order, and unique ids stay unique. */
  lemma {:induction false} RemoveKeepsOrder(list: seq<Prompt>, id: string)
    ensures IsSubsequence(RemoveById(list, id), list)
    ensures UniqueIds(list) ==> UniqueIds(RemoveById(list, id))
  {
    if list != [] {
      RemoveKeepsOrder(list[1..], id);
      var rest := RemoveById(list[1..], id);
      if UniqueIds(list) {
        assert UniqueIds(list[1..]) by {
          forall i, j | 0 <= i < j < |list[1..]| ensures list[1..][i].id != list[1..][j].id {
            assert list[1..][i] == list[i + 1] && list[1..][j] == list[j + 1];
          }
        }
        if list[0].id != id {
          var r := [list[0]] + rest;
          forall i, j | 0 <= i < j < |r| ensures r[i].id != r[j].id {
            if i == 0 {
              assert r[j] in rest;
              assert r[j] in list[1..];
              var k :| 0 <= k < |list[1..]| && list[1..][k] == r[j];
              assert list[k + 1] == r[j];
            } else {
              assert r[i] == rest[i - 1] && r[j] == rest[j - 1];
            }
          }
        }
      }
    }
  }

  /** `list.find(p => p.id === id)`: the first entry with that id. */
  function FindById(list: seq<Prompt>, id: string): (r: Option<Prompt>)
    ensures r.Some? <==> HasId(list, id)
    ensures r.Some? ==> r.value in list && r.value.id == id
  {
    if list == [] then None
    else if list[0].id == id then Some(list[0])
    else
      var r := FindById(list[1..], id);
      assert HasId(list, id) ==> HasId(list[1..], id) by {
        if HasId(list, id) {
          var i :| 0 <= i < |list| && list[i].id == id;
          assert i > 0 && list[1..][i - 1].id == id;
        }
      }
      assert HasId(list[1..], id) ==> HasId(list, id) by {
        if HasId(list[1..], id) {
          var i :| 0 <= i < |list[1..]| && list[1..][i].id == id;
          assert list[i + 1].id == id;
        }
      }
      r
  }
}
