/**
 * The loops of the handlers, run on the store's values: the records, their key order and
 * the counter go in, the new ones come out, and each loop is tied to the function that
 * specifies it.
 */
module StoreSteps {
  import opened TodoTypes
  import opened IdSeqs
  import opened Listing
  import opened Updates
  import opened Reordering

  /** The store after a reorder is consistent, and sorting its records gives `Relisted`. */
  lemma ReorderOutcome(m: map<int, Todo>, ids: seq<int>, order: seq<int>)
    requires Consistent(m, ids)
    ensures var r := Reordered(m, ids, order);
      && r.Keys == m.Keys
      && Consistent(r, ids)
      && SortByPosition(Values(ids, r)) == Relisted(m, ids, order)
  {
    ReorderKeepsRecords(m, ids, order);
  }

  /**
   * The reorder handler on the records: both loops, then the listing of every record
   * sorted by position.
   */
  method ReorderRecords(m: map<int, Todo>, ids: seq<int>, order: seq<int>)
      returns (m': map<int, Todo>, listed: seq<Todo>)
    requires Consistent(m, ids)
    requires Missing(order, m) == []
    ensures m' == Reordered(m, ids, order)
    ensures listed == Relisted(m, ids, order)
  {
    m' := ApplyOrder(m, ids, order);
    ReorderOutcome(m, ids, order);
    listed := SortByPosition(Values(ids, m'));
  }

  /** Storing a record whose id is above every stored key keeps the store consistent. */
  lemma ConsistentAdd(m: map<int, Todo>, ids: seq<int>, t: Todo)
    requires Consistent(m, ids)
    requires forall k :: k in m ==> k < t.id
    ensures Consistent(m[t.id := t], ids + [t.id])
  {
    forall i | 0 <= i < |ids|
      ensures ids[i] < t.id
    {
      assert ids[i] in m;
    }
  }

  /**
   * The loop of a bulk create on the records, their key order and the counter `first`:
   * each item with a title becomes a record with the next id, stored under it.
   */
  method AddEach(m: map<int, Todo>, ids: seq<int>, first: int, list: seq<Body>)
      returns (m': map<int, Todo>, ids': seq<int>, created: seq<Todo>)
    requires Consistent(m, ids)
    requires forall k :: k in m ==> k < first
    ensures created == BulkTodos(list, first)
    ensures m' == WithRecords(m, created) && ids' == ids + IdsOf(created)
    ensures Consistent(m', ids')
    ensures forall x :: x in IdsOf(created) ==> first <= x < first + |created|
  {
    m', ids', created := m, ids, [];
    for i := 0 to |list|
      invariant Added(m, ids, first, list, i, m', ids', created)
    {
      var item := list[i];
      if !HasTitle(item) {
        AddedSkip(m, ids, first, list, i, m', ids', created);
      } else {
        AddedMake(m, ids, first, list, i, m', ids', created);
        var t := FromBody(first + |created|, item);
        m' := m'[t.id := t];
        ids' := ids' + [t.id];
        created := created + [t];
      }
    }
    assert list[..|list|] == list;
  }

  /** What the bulk-create loop keeps after the first `i` items. */
  ghost predicate Added(m: map<int, Todo>, ids: seq<int>, first: int, list: seq<Body>, i: nat,
                        m': map<int, Todo>, ids': seq<int>, created: seq<Todo>)
    requires i <= |list|
  {
    && created == BulkTodos(list[..i], first)
    && m' == WithRecords(m, created) && ids' == ids + IdsOf(created)
    && Consistent(m', ids')
    && KeysBelow(m', first + |created|)
    && Between(IdsOf(created), first, first + |created|)
  }

  /** Every key is below `hi`. */
  predicate KeysBelow(m: map<int, Todo>, hi: int) {
    forall k :: k in m ==> k < hi
  }

  /** Every entry lies in `lo..hi - 1`. */
  predicate Between(s: seq<int>, lo: int, hi: int) {
    forall j :: 0 <= j < |s| ==> lo <= s[j] < hi
  }

  /** Storing key `hi` under a bound `hi` moves the bound to `hi + 1`. */
  lemma KeysBelowAdd(m: map<int, Todo>, hi: int, t: Todo)
    requires KeysBelow(m, hi) && t.id == hi
    ensures KeysBelow(m[t.id := t], hi + 1)
  {
  }

  /** Appending `hi` to entries below `hi` keeps them between `lo` and `hi + 1`. */
  lemma BetweenSnoc(s: seq<int>, lo: int, hi: int)
    requires Between(s, lo, hi) && lo <= hi
    ensures Between(s + [hi], lo, hi + 1)
  {
  }

  /** An item without a title is skipped, and the loop keeps `Added`. */
  lemma AddedSkip(m: map<int, Todo>, ids: seq<int>, first: int, list: seq<Body>, i: nat,
                  m': map<int, Todo>, ids': seq<int>, created: seq<Todo>)
    requires i < |list| && !HasTitle(list[i])
    requires Added(m, ids, first, list, i, m', ids', created)
    ensures Added(m, ids, first, list, i + 1, m', ids', created)
  {
    BulkStep(list, i, first);
  }

  /** An item with a title becomes the record with the next id, and the loop keeps `Added`. */
  lemma AddedMake(m: map<int, Todo>, ids: seq<int>, first: int, list: seq<Body>, i: nat,
                  m': map<int, Todo>, ids': seq<int>, created: seq<Todo>)
    requires i < |list| && HasTitle(list[i])
    requires Added(m, ids, first, list, i, m', ids', created)
    ensures var t := FromBody(first + |created|, list[i]);
      Added(m, ids, first, list, i + 1, m'[t.id := t], ids' + [t.id], created + [t])
  {
    var t := FromBody(first + |created|, list[i]);
    BulkMade(list, i, first, created);
    AppendCreated(m, created, t);
    IdsSnoc(ids, ids', created, t);
    ConsistentAdd(m', ids', t);
    KeysBelowAdd(m', first + |created|, t);
    BetweenStep(created, t, first);
  }

  /** An item with a title adds the record made from it to those already made. */
  lemma BulkMade(list: seq<Body>, i: nat, first: int, created: seq<Todo>)
    requires i < |list| && HasTitle(list[i])
    requires created == BulkTodos(list[..i], first)
    ensures BulkTodos(list[..i + 1], first) == created + [FromBody(first + |created|, list[i])]
  {
    BulkStep(list, i, first);
  }

  /** The key order grows by the id of the record added. */
  lemma IdsSnoc(ids: seq<int>, ids': seq<int>, created: seq<Todo>, t: Todo)
    requires ids' == ids + IdsOf(created)
    ensures ids' + [t.id] == ids + IdsOf(created + [t])
  {
    AppendCreated(map[], created, t);
  }

  /** The ids made so far stay between `first` and the counter when the next record is made. */
  lemma BetweenStep(created: seq<Todo>, t: Todo, first: int)
    requires Between(IdsOf(created), first, first + |created|)
    requires t.id == first + |created|
    ensures Between(IdsOf(created + [t]), first, first + |created + [t]|)
  {
    AppendCreated(map[], created, t);
    BetweenSnoc(IdsOf(created), first, first + |created|);
  }

  /**
   * A reorder on the records: the first loop numbers the ids of `order`, the second the
   * unmentioned keys, in key order, from `|order| + 1`.
   */
  method ApplyOrder(m: map<int, Todo>, ids: seq<int>, order: seq<int>) returns (m': map<int, Todo>)
    requires Consistent(m, ids)
    requires Missing(order, m) == []
    ensures m' == Reordered(m, ids, order)
  {
    var numbered := NumberOrder(m, order);
    var rem := Without(ids, order);
    assert AllIn(rem, numbered) by {
      LoopKeys(m, ids, order);
      assert numbered.Keys == m.Keys;
    }
    m' := AppendRest(numbered, rem, |order| + 1);
    LoopsAreReordered(m, ids, order);
  }

  /** The first reorder loop: the ids of `order` get positions `1, 2, ...` in turn, so the last mention wins. */
  method NumberOrder(m: map<int, Todo>, order: seq<int>) returns (m': map<int, Todo>)
    requires AllIn(order, m)
    ensures m' == Numbered(m, order, |order|)
  {
    m' := m;
    for i := 0 to |order|
      invariant m' == Numbered(m, order, i)
      invariant m'.Keys == m.Keys
    {
      m' := m'[order[i] := m'[order[i]].(position := i + 1)];
    }
  }

  /** The second reorder loop: the keys of `rem` get positions `start, start + 1, ...` in turn. */
  method AppendRest(m: map<int, Todo>, rem: seq<int>, start: int) returns (m': map<int, Todo>)
    requires AllIn(rem, m)
    ensures m' == Appended(m, rem, start, |rem|)
  {
    m' := m;
    var pos := start;
    for j := 0 to |rem|
      invariant pos == start + j
      invariant m' == Appended(m, rem, start, j)
      invariant m'.Keys == m.Keys
    {
      m' := m'[rem[j] := m'[rem[j]].(position := pos)];
      pos := pos + 1;
    }
  }

  /** Pops the ids of `d` from the records and from their key order, one after the other. */
  method RemoveEach(m: map<int, Todo>, ids: seq<int>, d: seq<int>) returns (m': map<int, Todo>, ids': seq<int>)
    ensures m' == m - Elems(d) && ids' == Without(ids, d)
  {
    m', ids' := m, ids;
    WithoutNothing(ids);
    assert Elems(d[..0]) == {};
    for i := 0 to |d|
      invariant m' == m - Elems(d[..i])
      invariant ids' == Without(ids, d[..i])
    {
      var tid := d[i];
      RemoveStep(m, ids, d, i, m', ids');
      m' := m' - {tid};
      ids' := Without(ids', [tid]);
    }
    assert d[..|d|] == d;
  }

  /** Popping the next id of `d` extends what was removed by it. */
  lemma RemoveStep(m: map<int, Todo>, ids: seq<int>, d: seq<int>, i: nat, m': map<int, Todo>, ids': seq<int>)
    requires i < |d|
    requires m' == m - Elems(d[..i]) && ids' == Without(ids, d[..i])
    ensures m' - {d[i]} == m - Elems(d[..i + 1])
    ensures Without(ids', [d[i]]) == Without(ids, d[..i + 1])
  {
    assert d[..i + 1] == d[..i] + [d[i]];
    assert Elems(d[..i + 1]) == Elems(d[..i]) + {d[i]};
    WithoutSnoc(ids, d[..i], d[i]);
  }

  /** Removing the completed records leaves exactly the open ones. */
  lemma DoneRemoved(m: map<int, Todo>, ids: seq<int>)
    requires Consistent(m, ids)
    ensures m - Elems(DoneIds(ids, m)) == map k | k in m && !m[k].isDone :: m[k]
  {
    var d := DoneIds(ids, m);
    var left, open := m - Elems(d), map k | k in m && !m[k].isDone :: m[k];
    forall k
      ensures k in left <==> k in open
    {
      if k in m {
        assert k in ids;
        assert k in Elems(d) <==> m[k].isDone;
      }
    }
    assert left.Keys == open.Keys;
    forall k | k in left
      ensures left[k] == open[k]
    {
    }
  }

  /** `m` with each record of `ts` stored under its id, in turn. */
  function WithRecords(m: map<int, Todo>, ts: seq<Todo>): map<int, Todo> {
    if ts == [] then m
    else WithRecords(m, ts[..|ts| - 1])[ts[|ts| - 1].id := ts[|ts| - 1]]
  }

  /** Storing the records of `ts` adds exactly their ids to the keys. */
  lemma {:induction false} WithRecordsKeys(m: map<int, Todo>, ts: seq<Todo>)
    ensures WithRecords(m, ts).Keys == m.Keys + Elems(IdsOf(ts))
  {
    if ts != [] {
      WithRecordsKeys(m, ts[..|ts| - 1]);
    }
  }

  /** A record of `ts` whose id no later record reuses is stored under it. */
  lemma {:induction false} WithRecordsAt(m: map<int, Todo>, ts: seq<Todo>, i: nat)
    requires i < |ts|
    requires forall j :: i < j < |ts| ==> ts[j].id != ts[i].id
    ensures Stored(ts[i], WithRecords(m, ts))
  {
    var n := |ts| - 1;
    if i < n {
      var init := ts[..n];
      forall j | i < j < |init|
        ensures init[j].id != init[i].id
      {
        assert init[j] == ts[j];
      }
      WithRecordsAt(m, init, i);
      assert ts[n].id != ts[i].id;
    }
  }

  /** A stored key that no record of `ts` carries keeps its record. */
  lemma {:induction false} WithRecordsKeeps(m: map<int, Todo>, ts: seq<Todo>, k: int)
    requires k in m
    requires forall j :: 0 <= j < |ts| ==> ts[j].id != k
    ensures k in WithRecords(m, ts) && WithRecords(m, ts)[k] == m[k]
  {
    if ts != [] {
      var init := ts[..|ts| - 1];
      forall j | 0 <= j < |init|
        ensures init[j].id != k
      {
        assert init[j] == ts[j];
      }
      WithRecordsKeeps(m, init, k);
      assert ts[|ts| - 1].id != k;
    }
  }

  /**
   * After a bulk create from counter `first`, above every stored key, each created record
   * is stored under its id and every earlier record is kept as it was.
   */
  lemma BulkStored(m: map<int, Todo>, items: seq<Body>, first: int)
    requires KeysBelow(m, first)
    ensures var ts := BulkTodos(items, first);
      && (forall t :: t in ts ==> Stored(t, WithRecords(m, ts)))
      && (forall k :: k in m ==> k in WithRecords(m, ts) && WithRecords(m, ts)[k] == m[k])
  {
    var ts := BulkTodos(items, first);
    forall t | t in ts
      ensures Stored(t, WithRecords(m, ts))
    {
      var i :| 0 <= i < |ts| && ts[i] == t;
      forall j | i < j < |ts|
        ensures ts[j].id != ts[i].id
      {
        assert ts[j].id == first + j && ts[i].id == first + i;
      }
      WithRecordsAt(m, ts, i);
    }
    forall k | k in m
      ensures k in WithRecords(m, ts) && WithRecords(m, ts)[k] == m[k]
    {
      forall j | 0 <= j < |ts|
        ensures ts[j].id != k
      {
        assert ts[j].id == first + j;
      }
      WithRecordsKeeps(m, ts, k);
    }
  }

  /** The ids of `ts`, in order. */
  function IdsOf(ts: seq<Todo>): seq<int> {
    if ts == [] then [] else IdsOf(ts[..|ts| - 1]) + [ts[|ts| - 1].id]
  }

  /** One more item of a bulk create adds one record, exactly when the item has a title. */
  lemma BulkStep(list: seq<Body>, i: nat, first: int)
    requires i < |list|
    ensures var made := BulkTodos(list[..i], first);
      BulkTodos(list[..i + 1], first)
        == if HasTitle(list[i]) then made + [FromBody(first + |made|, list[i])] else made
  {
    var v, w := ValidItems(list[..i]), ValidItems(list[..i + 1]);
    assert list[..i + 1][..i] == list[..i];
    assert w == if HasTitle(list[i]) then v + [list[i]] else v;
  }

  /** Appending a record extends its map, its ids and their set by that record. */
  lemma AppendCreated(m: map<int, Todo>, ts: seq<Todo>, t: Todo)
    ensures WithRecords(m, ts + [t]) == WithRecords(m, ts)[t.id := t]
    ensures IdsOf(ts + [t]) == IdsOf(ts) + [t.id]
    ensures Elems(IdsOf(ts + [t])) == Elems(IdsOf(ts)) + {t.id}
  {
    assert (ts + [t])[..|ts|] == ts;
  }
}
