/** To-do entries (the `itemsSchema` documents) and the one collection operation the
    routes use on them besides appending: removal by id, as MongoDB's `$pull` does. */
module Items {

  /** Stands in for a MongoDB ObjectId. */
  type Id = nat

  datatype Item = Item(id: Id, name: string)

  function Ids(s: seq<Item>): set<Id> {
    set x | x in s :: x.id
  }

  /** No two entries of the collection share an id. */
  predicate UniqueIds(s: seq<Item>) {
    forall i, j :: 0 <= i < j < |s| ==> s[i].id != s[j].id
  }

  /** Every entry with the given id is removed, the others keep their relative order. */
  function RemoveId(s: seq<Item>, id: Id): (r: seq<Item>)
    ensures |r| <= |s|
  {
    if s == [] then []
    else if s[0].id == id then RemoveId(s[1..], id)
    else [s[0]] + RemoveId(s[1..], id)
  }

  /** What survives removal: exactly the entries whose id differs. */
  lemma {:induction false} RemoveIdMembers(s: seq<Item>, id: Id)
    ensures forall x :: x in RemoveId(s, id) <==> x in s && x.id != id
  {
    if s != [] {
      RemoveIdMembers(s[1..], id);
      assert s == [s[0]] + s[1..];
    }
  }

  /** Removal works segment by segment, so relative order is kept. */
  lemma {:induction false} RemoveIdConcat(a: seq<Item>, b: seq<Item>, id: Id)
    ensures RemoveId(a + b, id) == RemoveId(a, id) + RemoveId(b, id)
  {
    if a == [] {
      assert a + b == b;
    } else {
      assert (a + b)[0] == a[0];
      assert (a + b)[1..] == a[1..] + b;
      RemoveIdConcat(a[1..], b, id);
    }
  }

  /** Removing an id that is not there is a no-op. */
  lemma {:induction false} RemoveIdAbsent(s: seq<Item>, id: Id)
    requires id !in Ids(s)
    ensures RemoveId(s, id) == s
  {
    if s != [] {
      assert s[0] in s;
      assert forall x :: x in s[1..] ==> x in s;
      RemoveIdAbsent(s[1..], id);
    }
  }

  /** An id that no position of the collection carries is not among its ids. */
  lemma IdNotAtAnyIndex(s: seq<Item>, id: Id)
    requires forall i :: 0 <= i < |s| ==> s[i].id != id
    ensures id !in Ids(s)
  {
  }

  /** Cutting out the only entry that carries the id. */
  lemma RemoveIdSplit(before: seq<Item>, x: Item, after: seq<Item>)
    requires x.id !in Ids(before) && x.id !in Ids(after)
    ensures RemoveId(before + [x] + after, x.id) == before + after
  {
    RemoveIdConcat(before + [x], after, x.id);
    RemoveIdConcat(before, [x], x.id);
    assert RemoveId([x], x.id) == [];
    RemoveIdAbsent(before, x.id);
    RemoveIdAbsent(after, x.id);
  }

  /** With unique ids, removing the id found at index k removes exactly that entry. */
  lemma RemoveIdAt(s: seq<Item>, k: nat)
    requires UniqueIds(s)
    requires k < |s|
    ensures RemoveId(s, s[k].id) == s[..k] + s[k+1..]
  {
    var before, after := s[..k], s[k+1..];
    assert forall i :: 0 <= i < |after| ==> after[i] == s[k + 1 + i];
    IdNotAtAnyIndex(before, s[k].id);
    IdNotAtAnyIndex(after, s[k].id);
    assert s == before + [s[k]] + after;
    RemoveIdSplit(before, s[k], after);
  }

  /** Removing the id of an entry just appended with a fresh id gives back the collection. */
  lemma RemoveIdAppended(s: seq<Item>, x: Item)
    requires x.id !in Ids(s)
    ensures RemoveId(s + [x], x.id) == s
  {
    RemoveIdConcat(s, [x], x.id);
    RemoveIdAbsent(s, x.id);
  }

  lemma {:induction false} RemoveIdKeepsUnique(s: seq<Item>, id: Id)
    requires UniqueIds(s)
    ensures UniqueIds(RemoveId(s, id))
  {
    if s != [] {
      RemoveIdKeepsUnique(s[1..], id);
      RemoveIdMembers(s[1..], id);
      var rest := RemoveId(s[1..], id);
      if s[0].id != id {
        forall x | x in rest ensures x.id != s[0].id {
          var j :| 0 <= j < |s[1..]| && s[1..][j] == x;
          assert s[j + 1] == x;
        }
        var r := [s[0]] + rest;
        forall i, j | 0 <= i < j < |r| ensures r[i].id != r[j].id {
          if i == 0 {
            assert r[j] in rest;
          } else {
            assert r[i] == rest[i - 1] && r[j] == rest[j - 1];
          }
        }
      }
    }
  }

  /** Appending an entry with an id not yet present keeps ids unique. */
  lemma AppendFreshKeepsUnique(s: seq<Item>, x: Item)
    requires UniqueIds(s)
    requires x.id !in Ids(s)
    ensures UniqueIds(s + [x])
  {
    var r := s + [x];
    forall i, j | 0 <= i < j < |r| ensures r[i].id != r[j].id {
      if j == |s| {
        assert r[i] == s[i] && s[i] in s;
      }
    }
  }
}
