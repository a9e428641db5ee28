/**
  The search projection: the records shown for the current search text are
  those whose lower-cased text contains the lower-cased query, in list
  order. The list itself is never changed by searching.
 */
module Search {
  import opened Seqs
  import opened Text
  import opened Items

  /**
    A record is shown for `query` when its text contains it, ignoring case:
    the lower-cased query occurs somewhere in the lower-cased text.
   */
  function Matches(x: Item, query: string): (shown: bool)
    ensures shown <==> exists i :: OccursAt(Lower(x.item), Lower(query), i)
  {
    Contains(Lower(x.item), Lower(query))
  }

  /** The records displayed for `query`, in list order. */
  function Project(items: seq<Item>, query: string): (r: seq<Item>)
    ensures IsSubseq(r, items)
    ensures forall x :: x in r ==> Matches(x, query)
    ensures forall x :: x in items && Matches(x, query) ==> x in r
    ensures multiset(r) <= multiset(items)
    ensures forall x :: x in items ==> multiset(r)[x] == if Matches(x, query) then multiset(items)[x] else 0
  {
    Filter(items, (x: Item) => Matches(x, query))
  }

  /** An empty search shows the whole list, in order. */
  lemma ProjectEmptyQuery(items: seq<Item>)
    ensures Project(items, "") == items
  {
    forall x | x in items
      ensures Matches(x, "")
    {
      ContainsEmpty(Lower(x.item));
    }
    FilterKeepsAll(items, (x: Item) => Matches(x, ""));
  }

  /** Queries that lower-case alike show the same records. */
  lemma ProjectIgnoresQueryCase(items: seq<Item>, q1: string, q2: string)
    requires Lower(q1) == Lower(q2)
    ensures Project(items, q1) == Project(items, q2)
  {
    FilterCongruent(items, (x: Item) => Matches(x, q1), (x: Item) => Matches(x, q2));
  }

  /** Searching for the lower-cased query is searching for the query. */
  lemma ProjectLowerQuery(items: seq<Item>, query: string)
    ensures Project(items, Lower(query)) == Project(items, query)
  {
    LowerIdempotent(query);
    ProjectIgnoresQueryCase(items, Lower(query), query);
  }

  /** Searching a second time with the same query shows the same records. */
  lemma ProjectIdempotent(items: seq<Item>, query: string)
    ensures Project(Project(items, query), query) == Project(items, query)
  {
    FilterIdempotent(items, (x: Item) => Matches(x, query));
  }

  /** "MILK" finds the record "Milk". */
  lemma ProjectMilkExample()
    ensures Project([Item(1, "Milk", false)], "MILK") == [Item(1, "Milk", false)]
  {
  }
}
