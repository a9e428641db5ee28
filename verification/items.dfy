/**
  The grocery list itself: an ordered sequence of `{id, item, checked}`
  records, and the three transformations that turn one list into the next
  (toggle, delete, add), as the check, delete and add handlers of `App`
  compute them before syncing with the server.
 */
module Items {
  import opened Wrappers
  import opened Seqs

  /** One entry of the list. Ids come from the server or from `NextId`. */
  datatype Item = Item(id: int, item: string, checked: bool)

  /** Some record of the list carries `id`. */
  predicate HasId(items: seq<Item>, id: int)
  {
    exists x :: x in items && x.id == id
  }

  /**
    Ids strictly increase along the list. Lists built from the empty list by
    the operations below keep this, and it makes every id unique.
   */
  ghost predicate IdsIncreasing(items: seq<Item>)
  {
    forall i, j :: 0 <= i < j < |items| ==> items[i].id < items[j].id
  }

  /** No two records share an id. */
  ghost predicate IdsUnique(items: seq<Item>)
  {
    forall i, j :: 0 <= i < |items| && 0 <= j < |items| && i != j ==> items[i].id != items[j].id
  }

  lemma IncreasingIdsAreUnique(items: seq<Item>)
    requires IdsIncreasing(items)
    ensures IdsUnique(items)
  {
  }

  /** Dropping records keeps ids increasing. */
  lemma {:induction false} SubseqKeepsIdsIncreasing(a: seq<Item>, b: seq<Item>)
    requires IsSubseq(a, b) && IdsIncreasing(b)
    ensures IdsIncreasing(a)
    decreases |b|
  {
    if |a| == 0 {
    } else if a[0] == b[0] && IsSubseq(a[1..], b[1..]) {
      SubseqKeepsIdsIncreasing(a[1..], b[1..]);
      SubseqMembers(a[1..], b[1..]);
      forall i, j | 0 <= i < j < |a|
        ensures a[i].id < a[j].id
      {
        if i == 0 {
          assert a[j] == a[1..][j - 1];
          assert a[j] in a[1..];
          assert a[j] in b[1..];
          var k :| 0 <= k < |b[1..]| && b[1..][k] == a[j];
          assert b[k + 1] == a[j];
        } else {
          assert a[i] == a[1..][i - 1] && a[j] == a[1..][j - 1];
        }
      }
    } else {
      SubseqKeepsIdsIncreasing(a, b[1..]);
    }
  }

  // ---------------------------------------------------------------------
  // Ids of new records
  // ---------------------------------------------------------------------

  /** The largest id of a non-empty list (reference definition). */
  function MaxId(items: seq<Item>): (m: int)
    requires |items| > 0
    ensures forall x :: x in items ==> x.id <= m
    ensures exists x :: x in items && x.id == m
    decreases |items|
  {
    if |items| == 1 then items[0].id
    else
      var rest := MaxId(items[1..]);
      assert items == [items[0]] + items[1..];
      if items[0].id >= rest then items[0].id else rest
  }

  /**
    The id `addItem` gives a new record: 1 on an empty list, otherwise the
    last record's id plus one. While ids increase it is larger than every id
    present, so no record has it yet.
   */
  function NextId(items: seq<Item>): (id: int)
    ensures |items| == 0 ==> id == 1
    ensures |items| > 0 ==> id == items[|items| - 1].id + 1
    ensures IdsIncreasing(items) ==> forall x :: x in items ==> x.id < id
    ensures IdsIncreasing(items) ==> !HasId(items, id)
  {
    if |items| == 0 then 1
    else
      var last := items[|items| - 1];
      assert IdsIncreasing(items) ==> forall x :: x in items ==> x.id <= last.id by {
        if IdsIncreasing(items) {
          forall x | x in items
            ensures x.id <= last.id
          {
            var i :| 0 <= i < |items| && items[i] == x;
            assert i == |items| - 1 || items[i].id < last.id;
          }
        }
      }
      last.id + 1
  }

  /** Under the invariant, "last id + 1" is "largest id + 1". */
  lemma NextIdIsMaxPlusOne(items: seq<Item>)
    requires IdsIncreasing(items) && |items| > 0
    ensures NextId(items) == MaxId(items) + 1
  {
    var m := MaxId(items);
    assert items[|items| - 1] in items;
  }

  /**
    Without the invariant (a list loaded from the server in any order)
    "last id + 1" can repeat an id already present.
   */
  lemma NextIdCanCollide()
    ensures var items := [Item(2, "Eggs", false), Item(1, "Milk", false)];
      HasId(items, NextId(items))
  {
  }

  // ---------------------------------------------------------------------
  // Toggle
  // ---------------------------------------------------------------------

  /**
    `handleCheck`: every record whose id is `id` has its `checked` flag
    negated; every other record, and every id and text, is kept in place.
   */
  function Toggle(items: seq<Item>, id: int): (r: seq<Item>)
    ensures |r| == |items|
    ensures forall i :: 0 <= i < |items| ==>
      r[i].id == items[i].id && r[i].item == items[i].item
    ensures forall i :: 0 <= i < |items| && items[i].id == id ==>
      r[i].checked == !items[i].checked
    ensures forall i :: 0 <= i < |items| && items[i].id != id ==> r[i] == items[i]
    decreases |items|
  {
    if |items| == 0 then []
    else
      var head := if items[0].id == id then items[0].(checked := !items[0].checked) else items[0];
      [head] + Toggle(items[1..], id)
  }

  /** Toggling the same id twice restores the list exactly. */
  lemma ToggleTwice(items: seq<Item>, id: int)
    ensures Toggle(Toggle(items, id), id) == items
  {
  }

  /** Toggling an id that is absent changes nothing. */
  lemma ToggleAbsent(items: seq<Item>, id: int)
    requires !HasId(items, id)
    ensures Toggle(items, id) == items
  {
  }

  /** Toggling keeps ids increasing (it keeps every id where it was). */
  lemma TogglePreservesIncreasing(items: seq<Item>, id: int)
    requires IdsIncreasing(items)
    ensures IdsIncreasing(Toggle(items, id))
  {
  }

  /**
    The value `handleCheck` sends in its PATCH body: the `checked` flag of
    the first record of the new list with that id, or nothing when no record
    has it (the handler then fails before sending any request).
   */
  function PatchChecked(listItems: seq<Item>, id: int): (body: Option<bool>)
    ensures body.Some? <==> HasId(listItems, id)
    ensures body.Some? ==> exists x :: x in listItems && x.id == id && x.checked == body.value
  {
    var matching := Filter(listItems, (x: Item) => x.id == id);
    SubseqMembers(matching, listItems);
    if |matching| == 0 then
      None
    else
      assert matching[0] in matching;
      Some(matching[0].checked)
  }

  /** A present id always yields a PATCH body once the list is toggled. */
  lemma PatchPresent(items: seq<Item>, id: int)
    requires HasId(items, id)
    ensures PatchChecked(Toggle(items, id), id).Some?
  {
    var x :| x in items && x.id == id;
    var i :| 0 <= i < |items| && items[i] == x;
    assert Toggle(items, id)[i] in Toggle(items, id);
  }

  /**
    The PATCH body carries the toggled flag of the first record with the id:
    the negation of that record's flag before the toggle.
   */
  lemma PatchCarriesNewValue(items: seq<Item>, id: int, k: nat)
    requires k < |items| && items[k].id == id
    requires forall j :: 0 <= j < k ==> items[j].id != id
    ensures PatchChecked(Toggle(items, id), id) == Some(!items[k].checked)
  {
    var r := Toggle(items, id);
    FilterHead(r, (x: Item) => x.id == id, k);
  }

  /** With an absent id no PATCH body can be built. */
  lemma PatchAbsent(items: seq<Item>, id: int)
    requires !HasId(items, id)
    ensures PatchChecked(Toggle(items, id), id) == None
  {
    ToggleAbsent(items, id);
    FilterNone(items, (x: Item) => x.id == id);
  }

  // ---------------------------------------------------------------------
  // Delete
  // ---------------------------------------------------------------------

  /**
    `handleDelete`: the records whose id differs from `id`, in their
    original order.
   */
  function Delete(items: seq<Item>, id: int): (r: seq<Item>)
    ensures IsSubseq(r, items)
    ensures forall x :: x in r ==> x.id != id
    ensures forall x :: x in items && x.id != id ==> x in r
    ensures multiset(r) <= multiset(items)
    ensures forall x :: x in items ==> multiset(r)[x] == if x.id != id then multiset(items)[x] else 0
  {
    Filter(items, (x: Item) => x.id != id)
  }

  /** Deleting an absent id leaves the list unchanged. */
  lemma DeleteAbsent(items: seq<Item>, id: int)
    requires !HasId(items, id)
    ensures Delete(items, id) == items
  {
    FilterKeepsAll(items, (x: Item) => x.id != id);
  }

  /** Deleting the same id twice is deleting it once. */
  lemma DeleteIdempotent(items: seq<Item>, id: int)
    ensures Delete(Delete(items, id), id) == Delete(items, id)
  {
    DeleteAbsent(Delete(items, id), id);
  }

  /** Deleting keeps ids increasing. */
  lemma DeletePreservesIncreasing(items: seq<Item>, id: int)
    requires IdsIncreasing(items)
    ensures IdsIncreasing(Delete(items, id))
  {
    SubseqKeepsIdsIncreasing(Delete(items, id), items);
  }

  /** With increasing ids, the tail keeps them increasing and lacks the head's id. */
  lemma TailOfIncreasing(items: seq<Item>)
    requires IdsIncreasing(items) && |items| > 0
    ensures IdsIncreasing(items[1..])
    ensures !HasId(items[1..], items[0].id)
  {
    var rest := items[1..];
    forall i, j | 0 <= i < j < |rest|
      ensures rest[i].id < rest[j].id
    {
      assert rest[i] == items[i + 1] && rest[j] == items[j + 1];
    }
    forall x | x in rest
      ensures x.id != items[0].id
    {
      var j :| 0 <= j < |rest| && rest[j] == x;
      assert items[0].id < items[j + 1].id;
    }
  }

  /** With unique ids, deleting a present id removes exactly one record. */
  lemma {:induction false} DeleteRemovesOne(items: seq<Item>, id: int)
    requires IdsIncreasing(items) && HasId(items, id)
    ensures |Delete(items, id)| == |items| - 1
    decreases |items|
  {
    var rest := items[1..];
    TailOfIncreasing(items);
    if items[0].id == id {
      DeleteAbsent(rest, id);
      assert Delete(items, id) == Delete(rest, id);
    } else {
      var x :| x in items && x.id == id;
      assert x in rest by {
        assert items == [items[0]] + rest;
      }
      DeleteRemovesOne(rest, id);
      assert Delete(items, id) == [items[0]] + Delete(rest, id);
    }
  }

  // ---------------------------------------------------------------------
  // Add
  // ---------------------------------------------------------------------

  /**
    `addItem`: appends one unchecked record with the given text and id
    `NextId(items)`, leaving every earlier record in place.
   */
  function Add(items: seq<Item>, text: string): (r: seq<Item>)
    ensures |r| == |items| + 1 && r[..|items|] == items
    ensures r[|items|].item == text && !r[|items|].checked
    ensures |items| == 0 ==> r == [Item(1, text, false)]
    ensures |items| > 0 ==> r[|items|].id == items[|items| - 1].id + 1
    ensures IdsIncreasing(items) ==> forall x :: x in items ==> x.id < r[|items|].id
    ensures IdsIncreasing(items) ==> IdsIncreasing(r)
  {
    items + [Item(NextId(items), text, false)]
  }

  /** Deleting from a concatenation deletes from each part. */
  lemma DeleteAppend(a: seq<Item>, b: seq<Item>, id: int)
    ensures Delete(a + b, id) == Delete(a, id) + Delete(b, id)
  {
    FilterAppend(a, b, (x: Item) => x.id != id);
  }

  /** With increasing ids, no earlier record has the last record's id. */
  lemma PrefixLacksLastId(items: seq<Item>)
    requires IdsIncreasing(items) && |items| > 0
    ensures !HasId(items[..|items| - 1], items[|items| - 1].id)
  {
    var n := |items|;
    forall x | x in items[..n - 1]
      ensures x.id != items[n - 1].id
    {
      var i :| 0 <= i < n - 1 && items[..n - 1][i] == x;
      assert items[i].id < items[n - 1].id;
    }
  }

  /** Deleting the only record's id leaves nothing. */
  lemma DeleteSingle(x: Item)
    ensures Delete([x], x.id) == []
  {
    FilterNone([x], (y: Item) => y.id != x.id);
  }

  /** With increasing ids, deleting the last record's id drops exactly that record. */
  lemma DeleteLast(items: seq<Item>)
    requires IdsIncreasing(items) && |items| > 0
    ensures Delete(items, items[|items| - 1].id) == items[..|items| - 1]
  {
    var pre := items[..|items| - 1];
    var last := items[|items| - 1];
    assert items == pre + [last];
    DeleteAppend(pre, [last], last.id);
    PrefixLacksLastId(items);
    DeleteAbsent(pre, last.id);
    DeleteSingle(last);
  }

  /**
    When the last two ids are consecutive, deleting the last record and
    adding a new one gives the new record the deleted record's id again: ids
    stay unique within the list but are reused over its lifetime.
   */
  lemma AddReusesDeletedId(items: seq<Item>, text: string)
    requires IdsIncreasing(items) && |items| >= 2
    requires items[|items| - 2].id + 1 == items[|items| - 1].id
    ensures var last := items[|items| - 1];
      Add(Delete(items, last.id), text) == items[..|items| - 1] + [Item(last.id, text, false)]
  {
    var pre := items[..|items| - 1];
    DeleteLast(items);
    var r := Add(pre, text);
    assert r[|pre|] == Item(items[|items| - 1].id, text, false);
    assert r == r[..|pre|] + [r[|pre|]];
  }
}
