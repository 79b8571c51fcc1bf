/**
 * The positions a reorder assigns: each id of `order` gets one past the index of its last
 * mention, and each unmentioned record, in key order, the next free position after `order`.
 */
module Reordering {
  import opened TodoTypes
  import opened IdSeqs
  import opened Listing
  import opened Updates

  /** The position a reorder gives to key `k`. */
  function NewPosition(ids: seq<int>, order: seq<int>, k: int): int
    requires k in order || k in ids
  {
    if k in order then LastIndex(order, k) + 1
    else |order| + 1 + IndexOf(Without(ids, order), k)
  }

  /** The records after a reorder: the same records with new positions. */
  function Reordered(m: map<int, Todo>, ids: seq<int>, order: seq<int>): map<int, Todo>
    requires forall k :: k in m ==> k in ids
  {
    map k | k in m :: m[k].(position := NewPosition(ids, order, k))
  }

  /** A reorder keeps the set of records and every field but the position. */
  lemma ReorderKeepsRecords(m: map<int, Todo>, ids: seq<int>, order: seq<int>)
    requires Consistent(m, ids)
    ensures var r := Reordered(m, ids, order);
      && r.Keys == m.Keys
      && Consistent(r, ids)
      && forall k :: k in m ==> r[k].(position := m[k].position) == m[k]
  {
  }

  /**
   * The id at index `i` of `order` gets position `i + 1` exactly when it is not mentioned
   * again later: with duplicates the later index wins.
   */
  lemma ReorderMentioned(m: map<int, Todo>, ids: seq<int>, order: seq<int>, i: nat)
    requires Consistent(m, ids)
    requires Missing(order, m) == []
    requires i < |order|
    ensures order[i] in Reordered(m, ids, order)
    ensures Reordered(m, ids, order)[order[i]].position == i + 1
            <==> forall j :: i < j < |order| ==> order[j] != order[i]
  {
    assert order[i] in m;
  }

  /** Without duplicates in `order`, `order[i]` gets position `i + 1`. */
  lemma ReorderDistinct(m: map<int, Todo>, ids: seq<int>, order: seq<int>, i: nat)
    requires Consistent(m, ids)
    requires Missing(order, m) == [] && Distinct(order)
    requires i < |order|
    ensures order[i] in Reordered(m, ids, order)
    ensures Reordered(m, ids, order)[order[i]].position == i + 1
  {
    ReorderMentioned(m, ids, order, i);
  }

  /** The `j`-th unmentioned record, in key order, gets position `|order| + 1 + j`. */
  lemma ReorderUnmentioned(m: map<int, Todo>, ids: seq<int>, order: seq<int>, j: nat)
    requires Consistent(m, ids)
    requires j < |Without(ids, order)|
    ensures var k := Without(ids, order)[j];
      k in m && k !in order && Reordered(m, ids, order)[k].position == |order| + 1 + j
  {
    var rem := Without(ids, order);
    assert rem[j] in rem;
    IncreasingIsDistinct(rem);
  }

  /** After any reorder, even one with duplicates, no two records share a position. */
  lemma ReorderPositionsDistinct(m: map<int, Todo>, ids: seq<int>, order: seq<int>)
    requires Consistent(m, ids)
    requires Missing(order, m) == []
    ensures PositionsInjective(Reordered(m, ids, order))
  {
    var r := Reordered(m, ids, order);
    var rem := Without(ids, order);
    IncreasingIsDistinct(rem);
    forall k1, k2 | k1 in r && k2 in r && k1 != k2
      ensures r[k1].position != r[k2].position
    {
      if k1 !in order && k2 !in order {
        assert IndexOf(rem, k1) != IndexOf(rem, k2);
      }
    }
  }

  /** Every id of `order` is a key of the store when none is missing. */
  lemma OrderInIds(m: map<int, Todo>, ids: seq<int>, order: seq<int>)
    requires Consistent(m, ids)
    requires Missing(order, m) == []
    ensures forall x :: x in order ==> x in ids
  {
    forall x | x in order
      ensures x in ids
    {
      var i :| 0 <= i < |order| && order[i] == x;
    }
  }

  /** The store holds as many records as its key sequence lists. */
  lemma SizeOfStore(m: map<int, Todo>, ids: seq<int>)
    requires Consistent(m, ids)
    ensures |m| == |ids|
  {
    IncreasingIsDistinct(ids);
    DistinctCard(ids);
    assert m.Keys == set x | x in ids by {
      forall x ensures x in m.Keys <==> x in ids {
      }
    }
  }

  /** With no duplicates in `order`, the mentioned and the unmentioned records are all of them. */
  lemma SplitSizes(m: map<int, Todo>, ids: seq<int>, order: seq<int>)
    requires Consistent(m, ids)
    requires Missing(order, m) == [] && Distinct(order)
    ensures |m| == |ids| == |order| + |Without(ids, order)|
  {
    OrderInIds(m, ids, order);
    IncreasingIsDistinct(ids);
    WithoutCard(ids, order);
    SizeOfStore(m, ids);
  }

  /** No two records share a position. */
  predicate PositionsInjective(m: map<int, Todo>) {
    forall k1, k2 :: k1 in m && k2 in m && k1 != k2 ==> m[k1].position != m[k2].position
  }

  /** Stored records, sorted by position then id, have strictly increasing positions. */
  lemma ListedPositionsIncreasing(m: map<int, Todo>, s: seq<Todo>)
    requires PositionsInjective(m)
    requires forall i :: 0 <= i < |s| ==> Stored(s[i], m)
    requires SortedByPositionThenId(s)
    ensures Increasing(Positions(s))
  {
    forall i, j | 0 <= i < j < |s|
      ensures s[i].position < s[j].position
    {
      assert Before(s[i], s[j]);
      assert Stored(s[i], m) && Stored(s[j], m);
    }
  }

  /**
   * Stored records with pairwise distinct positions in `1..|s|`, sorted by position then id,
   * stand at index `position - 1`.
   */
  lemma PositionsAreIndexes(m: map<int, Todo>, s: seq<Todo>)
    requires PositionsInjective(m)
    requires forall i :: 0 <= i < |s| ==> Stored(s[i], m)
    requires forall i :: 0 <= i < |s| ==> 1 <= s[i].position <= |s|
    requires SortedByPositionThenId(s)
    ensures forall i :: 0 <= i < |s| ==> s[i].position == i + 1
  {
    ListedPositionsIncreasing(m, s);
    var ps := Positions(s);
    assert forall i :: 0 <= i < |s| ==> ps[i] == s[i].position;
    IncreasingInRange(ps);
  }

  /**
   * Sorting records whose positions are pairwise distinct and lie in `1..|m|` lists the
   * record at position `p` at index `p - 1`.
   */
  lemma SortDistinctPositions(m: map<int, Todo>, ids: seq<int>)
    requires Consistent(m, ids)
    requires PositionsInjective(m)
    requires forall k :: k in m ==> 1 <= m[k].position <= |m|
    ensures var s := SortByPosition(Values(ids, m));
      && |s| == |m|
      && forall i :: 0 <= i < |s| ==> Stored(s[i], m) && s[i].position == i + 1
  {
    var vs := Values(ids, m);
    SortTieBreaksById(vs);
    var s := SortByPosition(vs);
    SizeOfStore(m, ids);
    forall i | 0 <= i < |s|
      ensures Stored(s[i], m)
    {
      assert s[i] in vs;
      StoredIn(vs, m, s[i]);
    }
    PositionsAreIndexes(m, s);
  }

  /** In a store without shared positions, a record is determined by its position. */
  lemma SamePosition(m: map<int, Todo>, t: Todo, k: int)
    requires PositionsInjective(m)
    requires Stored(t, m) && k in m && m[k].position == t.position
    ensures t == m[k]
  {
  }

  /** The records after a reorder sorted by position: what the reorder handler returns. */
  function Relisted(m: map<int, Todo>, ids: seq<int>, order: seq<int>): seq<Todo>
    requires Consistent(m, ids)
  {
    ReorderKeepsRecords(m, ids, order);
    SortByPosition(Values(ids, Reordered(m, ids, order)))
  }

  /** After a reorder without duplicates the listing holds the positions `1, 2, ..., |m|` in turn. */
  lemma RelistedPositions(m: map<int, Todo>, ids: seq<int>, order: seq<int>)
    requires Consistent(m, ids)
    requires Missing(order, m) == [] && Distinct(order)
    ensures var s := Relisted(m, ids, order);
      && |s| == |m| == |order| + |Without(ids, order)|
      && forall i :: 0 <= i < |s| ==> Stored(s[i], Reordered(m, ids, order)) && s[i].position == i + 1
  {
    var r := Reordered(m, ids, order);
    ReorderKeepsRecords(m, ids, order);
    ReorderPositionsDistinct(m, ids, order);
    ReorderInRange(m, ids, order);
    SplitSizes(m, ids, order);
    SortDistinctPositions(r, ids);
  }

  /**
   * The listing after a reorder without duplicates: `order`'s records first, in its order,
   * then the unmentioned ones in key order, at positions `1, 2, ..., |m|`.
   */
  lemma ReorderListing(m: map<int, Todo>, ids: seq<int>, order: seq<int>)
    requires Consistent(m, ids)
    requires Missing(order, m) == [] && Distinct(order)
    ensures var r, s := Reordered(m, ids, order), Relisted(m, ids, order);
      var rem := Without(ids, order);
      && |s| == |m| == |order| + |rem|
      && (forall i :: 0 <= i < |s| ==> s[i].position == i + 1)
      && (forall i :: 0 <= i < |order| ==> order[i] in r && s[i] == r[order[i]])
      && (forall j :: 0 <= j < |rem| ==> rem[j] in r && s[|order| + j] == r[rem[j]])
  {
    var r, s := Reordered(m, ids, order), Relisted(m, ids, order);
    var rem := Without(ids, order);
    RelistedPositions(m, ids, order);
    ReorderPositionsDistinct(m, ids, order);
    forall i | 0 <= i < |order|
      ensures order[i] in r && s[i] == r[order[i]]
    {
      ReorderDistinct(m, ids, order, i);
      SamePosition(r, s[i], order[i]);
    }
    forall j | 0 <= j < |rem|
      ensures rem[j] in r && s[|order| + j] == r[rem[j]]
    {
      ReorderUnmentioned(m, ids, order, j);
      SamePosition(r, s[|order| + j], rem[j]);
    }
  }

  /** With no duplicates in `order`, every position after a reorder lies in `1..|m|`. */
  lemma ReorderInRange(m: map<int, Todo>, ids: seq<int>, order: seq<int>)
    requires Consistent(m, ids)
    requires Missing(order, m) == [] && Distinct(order)
    ensures var r := Reordered(m, ids, order);
      |r| == |m| && forall k :: k in r ==> 1 <= r[k].position <= |m|
  {
    var r := Reordered(m, ids, order);
    var rem := Without(ids, order);
    assert r.Keys == m.Keys;
    assert |r| == |r.Keys| == |m.Keys| == |m|;
    SplitSizes(m, ids, order);
    forall k | k in r
      ensures 1 <= r[k].position <= |m|
    {
      if k !in order {
        assert k in rem;
      }
    }
  }

  /** The records after the first `i` steps of the first reorder loop: `order[j]` gets position `j + 1`. */
  function Numbered(m: map<int, Todo>, order: seq<int>, i: nat): (r: map<int, Todo>)
    requires i <= |order|
    requires AllIn(order, m)
    ensures r.Keys == m.Keys
  {
    if i == 0 then m
    else
      var prev := Numbered(m, order, i - 1);
      prev[order[i - 1] := prev[order[i - 1]].(position := i)]
  }

  /** After `i` steps an id among `order[..i]` holds one past the index of its last mention there. */
  lemma {:induction false} NumberedPositions(m: map<int, Todo>, order: seq<int>, i: nat, k: int)
    requires i <= |order|
    requires AllIn(order, m)
    requires k in m
    ensures Numbered(m, order, i)[k] == m[k].(position :=
      if k in order[..i] then LastIndex(order[..i], k) + 1 else m[k].position)
  {
    if i > 0 {
      NumberedPositions(m, order, i - 1, k);
      var pre, cur := order[..i - 1], order[..i];
      assert cur[..i - 1] == pre;
      if k != order[i - 1] {
        assert k in cur <==> k in pre by {
          assert cur == pre + [order[i - 1]];
        }
      }
    }
  }

  /** The records after the first `j` steps of the second reorder loop: `rem[l]` gets position `start + l`. */
  function Appended(m: map<int, Todo>, rem: seq<int>, start: int, j: nat): (r: map<int, Todo>)
    requires j <= |rem|
    requires AllIn(rem, m)
    ensures r.Keys == m.Keys
  {
    if j == 0 then m
    else
      var prev := Appended(m, rem, start, j - 1);
      prev[rem[j - 1] := prev[rem[j - 1]].(position := start + j - 1)]
  }

  /** After `j` steps a key among `rem[..j]` holds `start` plus its index in `rem`. */
  lemma {:induction false} AppendedPositions(m: map<int, Todo>, rem: seq<int>, start: int, j: nat, k: int)
    requires j <= |rem|
    requires AllIn(rem, m)
    requires Distinct(rem)
    requires k in m
    ensures Appended(m, rem, start, j)[k] == m[k].(position :=
      if k in rem[..j] then start + IndexOf(rem, k) else m[k].position)
  {
    if j > 0 {
      AppendedPositions(m, rem, start, j - 1, k);
      var pre, cur := rem[..j - 1], rem[..j];
      assert cur == pre + [rem[j - 1]];
      assert IndexOf(rem, rem[j - 1]) == j - 1;
    }
  }

  /** The keys the second reorder loop visits are stored, before and after the first loop. */
  lemma LoopKeys(m: map<int, Todo>, ids: seq<int>, order: seq<int>)
    requires Consistent(m, ids)
    requires Missing(order, m) == []
    ensures AllIn(order, m) && AllIn(Without(ids, order), m)
  {
    OrderInIds(m, ids, order);
    var rem := Without(ids, order);
    forall j | 0 <= j < |rem|
      ensures rem[j] in m
    {
      assert rem[j] in rem;
    }
  }

  /** The record of `k` after the first reorder loop: one past the index of its last mention in `order`. */
  function FirstPass(t: Todo, order: seq<int>, k: int): Todo {
    t.(position := if k in order then LastIndex(order, k) + 1 else t.position)
  }

  /** The record of `k` after the second reorder loop: `start` plus its index in `rem`. */
  function SecondPass(t: Todo, rem: seq<int>, start: int, k: int): Todo
  {
    t.(position := if k in rem then start + IndexOf(rem, k) else t.position)
  }

  /** After the first loop an id of `order` holds one past the index of its last mention. */
  lemma NumberedAll(m: map<int, Todo>, order: seq<int>, k: int)
    requires AllIn(order, m)
    requires k in m
    ensures Numbered(m, order, |order|)[k] == FirstPass(m[k], order, k)
  {
    NumberedPositions(m, order, |order|, k);
    assert order[..|order|] == order;
  }

  /** After the second loop a key of `rem` holds `start` plus its index in `rem`; other keys keep theirs. */
  lemma AppendedAll(m: map<int, Todo>, rem: seq<int>, start: int, k: int)
    requires AllIn(rem, m)
    requires Distinct(rem)
    requires k in m
    ensures Appended(m, rem, start, |rem|)[k] == SecondPass(m[k], rem, start, k)
  {
    AppendedPositions(m, rem, start, |rem|, k);
    assert rem[..|rem|] == rem;
  }

  /** The two loop steps together give the record of `k` the position `Reordered` gives it. */
  lemma SamePositions(m: map<int, Todo>, ids: seq<int>, order: seq<int>, k: int)
    requires forall x :: x in m ==> x in ids
    requires k in m
    ensures SecondPass(FirstPass(m[k], order, k), Without(ids, order), |order| + 1, k)
            == Reordered(m, ids, order)[k]
  {
  }

  /** Running both reorder loops gives key `k` the position `Reordered` gives it. */
  lemma LoopsAtKey(m: map<int, Todo>, ids: seq<int>, order: seq<int>, k: int)
    requires Increasing(ids)
    requires forall x :: x in m ==> x in ids
    requires k in m
    requires AllIn(order, m) && AllIn(Without(ids, order), m)
    ensures var rem := Without(ids, order);
      Appended(Numbered(m, order, |order|), rem, |order| + 1, |rem|)[k] == Reordered(m, ids, order)[k]
  {
    var rem := Without(ids, order);
    var n := Numbered(m, order, |order|);
    IncreasingIsDistinct(rem);
    NumberedAll(m, order, k);
    AppendedAll(n, rem, |order| + 1, k);
    SamePositions(m, ids, order, k);
  }

  /** Two maps with the same keys and the same value at every key are equal. */
  lemma SameMaps(a: map<int, Todo>, r: map<int, Todo>)
    requires a.Keys == r.Keys
    requires forall k :: k in a ==> a[k] == r[k]
    ensures a == r
  {
    forall k | k in a
      ensures a[k] == r[k]
    {
    }
  }

  /** Running both reorder loops yields `Reordered`. */
  lemma LoopsAreReordered(m: map<int, Todo>, ids: seq<int>, order: seq<int>)
    requires Consistent(m, ids)
    requires Missing(order, m) == []
    ensures AllIn(order, m) && AllIn(Without(ids, order), m)
    ensures var rem := Without(ids, order);
      Appended(Numbered(m, order, |order|), rem, |order| + 1, |rem|) == Reordered(m, ids, order)
  {
    LoopKeys(m, ids, order);
    var rem := Without(ids, order);
    var a, r := Appended(Numbered(m, order, |order|), rem, |order| + 1, |rem|), Reordered(m, ids, order);
    forall k | k in a
      ensures a[k] == r[k]
    {
      LoopsAtKey(m, ids, order, k);
    }
    SameMaps(a, r);
  }
}
