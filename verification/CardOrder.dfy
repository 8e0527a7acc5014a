/**
 * The `order` column of article cards: reading cards in order, and the one bulk UPDATE that assigns
 * every listed card its index (`persistCardOrder` in src/modules/news/news.service.ts).
 */
module CardOrder {
  import opened Content

  function CardIds(t: Cards, a: string): set<string> {
    set id | id in t && t[id].articleId == a
  }

  /** The unique index on (articleId, order). */
  predicate UniqueOrders(t: Cards) {
    forall i, j | i in t && j in t && t[i].articleId == t[j].articleId && t[i].order == t[j].order :: i == j
  }

  predicate DistinctOrders(t: Cards, ids: set<string>) {
    ids <= t.Keys && forall i, j | i in ids && j in ids && t[i].order == t[j].order :: i == j
  }

  predicate IsFirst(t: Cards, ids: set<string>, m: string)
    requires ids <= t.Keys
  {
    m in ids && forall x <- ids :: t[m].order <= t[x].order
  }

  lemma {:induction false} FirstExists(t: Cards, ids: set<string>)
    requires ids <= t.Keys && ids != {}
    ensures exists m :: IsFirst(t, ids, m)
  {
    var x :| x in ids;
    if ids == {x} {
      assert IsFirst(t, ids, x);
    } else {
      FirstExists(t, ids - {x});
      var m :| IsFirst(t, ids - {x}, m);
      assert IsFirst(t, ids, if t[x].order < t[m].order then x else m);
    }
  }

  predicate NoDuplicates(s: seq<string>) {
    forall i, j | 0 <= i < j < |s| :: s[i] != s[j]
  }

  /** `ORDER BY "order" ASC` on a set of rows with distinct orders. */
  function SortByOrder(t: Cards, ids: set<string>): (s: seq<string>)
    requires DistinctOrders(t, ids)
    ensures |s| == |ids| && (forall x :: x in s <==> x in ids)
    ensures forall i, j | 0 <= i < j < |s| :: t[s[i]].order < t[s[j]].order
  {
    if ids == {} then []
    else
      FirstExists(t, ids);
      var m :| IsFirst(t, ids, m);
      [m] + SortByOrder(t, ids - {m})
  }

  /** The ids of an article's cards, read in ascending order. */
  function ReadInOrder(t: Cards, a: string): seq<string>
    requires UniqueOrders(t)
  {
    SortByOrder(t, CardIds(t, a))
  }

  /** The article's cards are exactly `s`, and their orders are exactly the positions 0, 1, 2, ... in it. */
  predicate ListedAs(t: Cards, a: string, s: seq<string>) {
    && (forall i :: 0 <= i < |s| ==> s[i] in t && t[s[i]].articleId == a && t[s[i]].order == i)
    && (forall id <- t :: t[id].articleId == a ==> t[id].order < |s| && s[t[id].order] == id)
  }

  /** Sorted sequences of the same rows are equal. */
  lemma {:induction false} SortedUnique(t: Cards, s: seq<string>, s': seq<string>)
    requires forall x :: x in s <==> x in s'
    requires forall x <- s :: x in t
    requires forall i, j | 0 <= i < j < |s| :: t[s[i]].order < t[s[j]].order
    requires forall i, j | 0 <= i < j < |s'| :: t[s'[i]].order < t[s'[j]].order
    ensures s == s'
  {
    assert s' != [] ==> s'[0] in s';
    if s == [] {
    } else {
      assert s[0] in s';
      SameHead(t, s, s');
      forall x ensures x in s[1..] <==> x in s'[1..] {
        TailMembers(t, s, x);
        TailMembers(t, s', x);
      }
      SortedUnique(t, s[1..], s'[1..]);
      assert s == [s[0]] + s[1..] && s' == [s'[0]] + s'[1..];
    }
  }

  lemma SameHead(t: Cards, s: seq<string>, s': seq<string>)
    requires s != [] && s' != [] && s[0] in s' && s'[0] in s && forall x <- s :: x in t
    requires forall x <- s' :: x in t
    requires forall i, j | 0 <= i < j < |s| :: t[s[i]].order < t[s[j]].order
    requires forall i, j | 0 <= i < j < |s'| :: t[s'[i]].order < t[s'[j]].order
    ensures s[0] == s'[0]
  {
    var i :| 0 <= i < |s'| && s'[i] == s[0];
    var j :| 0 <= j < |s| && s[j] == s'[0];
  }

  lemma TailMembers(t: Cards, s: seq<string>, x: string)
    requires s != [] && forall y <- s :: y in t
    requires forall i, j | 0 <= i < j < |s| :: t[s[i]].order < t[s[j]].order
    ensures x in s[1..] <==> x in s && x != s[0]
  {
    if x in s && x != s[0] {
      var i :| 0 <= i < |s| && s[i] == x;
      assert s[1..][i - 1] == x;
    }
  }

  /** A listing is what reading in order returns. */
  lemma ListingIsRead(t: Cards, a: string, s: seq<string>)
    requires UniqueOrders(t) && ListedAs(t, a, s)
    ensures ReadInOrder(t, a) == s && NoDuplicates(s) && |s| == |CardIds(t, a)|
  {
    forall x ensures x in s <==> x in CardIds(t, a) {
      if x in CardIds(t, a) {
        assert s[t[x].order] == x;
      }
    }
    SortedUnique(t, s, ReadInOrder(t, a));
  }

  // ---------------------------------------------------------------- the bulk update

  function IndexOf(ids: seq<string>, id: string): nat
    requires id in ids
    ensures IndexOf(ids, id) < |ids| && ids[IndexOf(ids, id)] == id
    ensures forall i :: 0 <= i < IndexOf(ids, id) ==> ids[i] != id
  {
    if ids[0] == id then 0 else 1 + IndexOf(ids[1..], id)
  }

  /** UPDATE ... SET "order" = CASE id WHEN ids[i] THEN i ... END WHERE id IN ids: all rows at once. */
  function Renumber(t: Cards, ids: seq<string>): Cards {
    map id | id in t :: if id in ids then t[id].(order := IndexOf(ids, id)) else t[id]
  }

  /** Listing exactly the article's cards puts them in exactly that order and touches no other article. */
  lemma RenumberLists(t: Cards, a: string, ids: seq<string>)
    requires NoDuplicates(ids) && forall x :: x in ids <==> x in CardIds(t, a)
    ensures ListedAs(Renumber(t, ids), a, ids)
    ensures Renumber(t, ids).Keys == t.Keys
    ensures forall id <- t :: Renumber(t, ids)[id].data == t[id].data && Renumber(t, ids)[id].articleId == t[id].articleId
    ensures forall id <- t :: t[id].articleId != a ==> Renumber(t, ids)[id] == t[id]
  {
    var t' := Renumber(t, ids);
    forall i | 0 <= i < |ids| ensures ids[i] in t' && t'[ids[i]].articleId == a && t'[ids[i]].order == i {
      assert ids[i] in ids;
      assert ids[i] in CardIds(t, a);
    }
    forall id <- t' | t'[id].articleId == a ensures t'[id].order < |ids| && ids[t'[id].order] == id {
      assert id in CardIds(t, a);
    }
  }

  /** Every article's orders are exactly 0 .. n-1. */
  ghost predicate Contiguous(t: Cards) {
    UniqueOrders(t) && forall a :: ListedAs(t, a, ReadInOrder(t, a))
  }

  /** Unchanged cards keep their listing. */
  lemma ListedFrame(t: Cards, t': Cards, a: string, s: seq<string>)
    requires ListedAs(t, a, s)
    requires forall id <- t' :: t'[id].articleId == a ==> id in t && t[id].articleId == a && t[id].order == t'[id].order
    requires forall id <- t :: t[id].articleId == a ==> id in t' && t'[id].articleId == a
    ensures ListedAs(t', a, s)
  {
  }

  // ---------------------------------------------------------------- edits of a list

  /** JavaScript's `splice(start, deleteCount, ...items)` for a start within the array. */
  function Splice(s: seq<string>, start: nat, deleteCount: nat, items: seq<string>): seq<string>
    requires start <= |s|
  {
    var end := if start + deleteCount <= |s| then start + deleteCount else |s|;
    s[..start] + items + s[end..]
  }

  function InsertAt(s: seq<string>, k: nat, x: string): seq<string>
    requires k <= |s|
  {
    s[..k] + [x] + s[k..]
  }

  function Without(s: seq<string>, x: string): seq<string> {
    if s == [] then [] else if s[0] == x then Without(s[1..], x) else [s[0]] + Without(s[1..], x)
  }

  /** The list with `x` moved to index `k`, everything else in its old relative order. */
  function MoveTo(s: seq<string>, x: string, k: nat): seq<string>
    requires x in s && NoDuplicates(s) && k < |s|
  {
    WithoutSize(s, x);
    InsertAt(Without(s, x), k, x)
  }

  lemma {:induction false} WithoutMembers(s: seq<string>, x: string)
    ensures forall y :: y in Without(s, x) <==> y in s && y != x
  {
    if s != [] {
      WithoutMembers(s[1..], x);
      assert s == [s[0]] + s[1..];
    }
  }

  lemma {:induction false} WithoutAbsent(s: seq<string>, x: string)
    requires x !in s
    ensures Without(s, x) == s
  {
    if s != [] {
      assert s[0] in s;
      WithoutAbsent(s[1..], x);
    }
  }

  /** Removing the only occurrence of `x` is cutting the list around it. */
  lemma {:induction false} WithoutCut(s: seq<string>, x: string, i: nat)
    requires NoDuplicates(s) && i < |s| && s[i] == x
    ensures Without(s, x) == s[..i] + s[i + 1..]
  {
    if i == 0 {
      assert x !in s[1..];
      WithoutAbsent(s[1..], x);
    } else {
      assert s[0] != x;
      WithoutCut(s[1..], x, i - 1);
      assert s[..i] == [s[0]] + s[1..][..i - 1];
    }
  }

  lemma WithoutSize(s: seq<string>, x: string)
    requires NoDuplicates(s) && x in s
    ensures |Without(s, x)| == |s| - 1
  {
    var i :| 0 <= i < |s| && s[i] == x;
    WithoutCut(s, x, i);
  }

  lemma WithoutNoDuplicates(s: seq<string>, x: string)
    requires NoDuplicates(s)
    ensures NoDuplicates(Without(s, x))
  {
    if x in s {
      var i :| 0 <= i < |s| && s[i] == x;
      WithoutCut(s, x, i);
    } else {
      WithoutAbsent(s, x);
    }
  }

  lemma InsertFacts(s: seq<string>, k: nat, x: string)
    requires NoDuplicates(s) && x !in s && k <= |s|
    ensures NoDuplicates(InsertAt(s, k, x))
    ensures forall y :: y in InsertAt(s, k, x) <==> y in s || y == x
    ensures InsertAt(s, k, x)[k] == x && Without(InsertAt(s, k, x), x) == s
  {
    var r := InsertAt(s, k, x);
    InsertMembers(s, k, x);
    assert s == s[..k] + s[k..];
    WithoutCut(r, x, k);
    assert r[..k] + r[k + 1..] == s;
  }

  lemma InsertMembers(s: seq<string>, k: nat, x: string)
    requires k <= |s|
    ensures forall y :: y in InsertAt(s, k, x) <==> y in s || y == x
    ensures NoDuplicates(s) && x !in s ==> NoDuplicates(InsertAt(s, k, x))
  {
    var r := InsertAt(s, k, x);
    assert forall i :: 0 <= i < |r| ==> r[i] == if i < k then s[i] else if i == k then x else s[i - 1];
    forall y | y in s || y == x ensures y in r {
      if y in s {
        var i :| 0 <= i < |s| && s[i] == y;
        assert r[if i < k then i else i + 1] == y;
      } else {
        assert r[k] == y;
      }
    }
  }

  /** A moved card lands on the requested index and all others keep their relative order. */
  lemma MoveFacts(s: seq<string>, x: string, k: nat)
    requires x in s && NoDuplicates(s) && k < |s|
    ensures var r := MoveTo(s, x, k);
            && |r| == |s| && r[k] == x && NoDuplicates(r)
            && (forall y :: y in r <==> y in s)
            && Without(r, x) == Without(s, x)
  {
    WithoutSize(s, x);
    WithoutMembers(s, x);
    WithoutNoDuplicates(s, x);
    InsertFacts(Without(s, x), k, x);
  }

  /** Moving a card to where it already is changes nothing. */
  lemma MoveToSelf(s: seq<string>, x: string, i: nat)
    requires NoDuplicates(s) && i < |s| && s[i] == x
    ensures MoveTo(s, x, i) == s
  {
    WithoutCut(s, x, i);
  }

  /** Splicing an item out and back in at `k` is moving it to `k`. */
  lemma SplicedMove(s: seq<string>, x: string, k: nat)
    requires x in s && NoDuplicates(s) && k < |s|
    ensures |Splice(s, IndexOf(s, x), 1, [])| == |s| - 1
    ensures Splice(Splice(s, IndexOf(s, x), 1, []), k, 0, [x]) == MoveTo(s, x, k)
  {
    WithoutCut(s, x, IndexOf(s, x));
    assert Splice(s, IndexOf(s, x), 1, []) == Without(s, x);
  }

  // ---------------------------------------------------------------- permutations

  function Elements(s: seq<string>): set<string> {
    set x | x in s
  }

  lemma {:induction false} ElementsSize(s: seq<string>)
    ensures |Elements(s)| <= |s|
    ensures |Elements(s)| == |s| <==> NoDuplicates(s)
  {
    if s != [] {
      var init, last := s[..|s| - 1], s[|s| - 1];
      ElementsSize(init);
      assert Elements(s) == Elements(init) + {last};
      assert s == init + [last];
      if last in init {
        assert Elements(s) == Elements(init);
        var i :| 0 <= i < |init| && init[i] == last;
        assert s[i] == s[|s| - 1];
      } else {
        assert |Elements(s)| == |Elements(init)| + 1;
        assert NoDuplicates(s) <==> NoDuplicates(init);
      }
    }
  }

  /** The three tests of `reorderCards` against the ids of the article's cards. */
  predicate AcceptsReorder(existing: set<string>, ids: seq<string>) {
    && |Elements(ids)| == |ids|
    && (forall x <- ids :: x in existing)
    && |ids| == |existing|
  }

  /** They accept a list exactly when it is a permutation of those ids. */
  lemma ReorderAcceptsPermutations(existing: set<string>, ids: seq<string>)
    ensures AcceptsReorder(existing, ids) <==> NoDuplicates(ids) && (forall x :: x in ids <==> x in existing)
  {
    ElementsSize(ids);
    if forall x :: x in ids <==> x in existing {
      assert Elements(ids) == existing;
    }
    if AcceptsReorder(existing, ids) {
      assert Elements(ids) <= existing;
      assert |existing - Elements(ids)| == |existing| - |Elements(ids)|;
      assert existing - Elements(ids) == {};
      forall x | x in existing ensures x in ids {
        assert x in Elements(ids);
      }
    }
  }
}
