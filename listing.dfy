/** The read-only part of listing: status filtering and Python's stable sort by position. */
module Listing {
  import opened TodoTypes
  import opened IdSeqs

  /** Whether a record passes the `status` query parameter: "open", "done", anything else means all. */
  predicate Matches(t: Todo, status: string) {
    if status == "open" then !t.isDone
    else if status == "done" then t.isDone
    else true
  }

  predicate IdsIncreasing(ts: seq<Todo>) {
    forall i, j :: 0 <= i < j < |ts| ==> ts[i].id < ts[j].id
  }

  predicate SortedByPosition(ts: seq<Todo>) {
    forall i, j :: 0 <= i < j < |ts| ==> ts[i].position <= ts[j].position
  }

  /** `a` comes before `b` ordering by position and, among equal positions, by id. */
  predicate Before(a: Todo, b: Todo) {
    a.position < b.position || (a.position == b.position && a.id < b.id)
  }

  predicate SortedByPositionThenId(ts: seq<Todo>) {
    forall i, j :: 0 <= i < j < |ts| ==> Before(ts[i], ts[j])
  }

  /** Every key maps to a record carrying that key as its id. */
  predicate KeysAreIds(m: map<int, Todo>) {
    forall k :: k in m ==> m[k].id == k
  }

  /** `t` is the record stored under its own id. */
  predicate Stored(t: Todo, m: map<int, Todo>) {
    t.id in m && m[t.id] == t
  }

  /** The records of the map in the order the key sequence lists them (`TODOS.values()`). */
  function Values(ids: seq<int>, m: map<int, Todo>): (r: seq<Todo>)
    requires forall i :: 0 <= i < |ids| ==> ids[i] in m
    ensures |r| == |ids|
    ensures forall i :: 0 <= i < |ids| ==> r[i] == m[ids[i]]
    ensures forall k :: k in ids ==> m[k] in r
    ensures KeysAreIds(m) ==> forall i :: 0 <= i < |r| ==> Stored(r[i], m)
    ensures KeysAreIds(m) && Increasing(ids) ==> IdsIncreasing(r)
  {
    var r := seq(|ids|, i requires 0 <= i < |ids| => m[ids[i]]);
    assert KeysAreIds(m) ==> forall i :: 0 <= i < |r| ==> Stored(r[i], m) by {
      if KeysAreIds(m) {
        forall i | 0 <= i < |r|
          ensures Stored(r[i], m)
        {
          assert ids[i] in m && r[i] == m[ids[i]];
          assert m[ids[i]].id == ids[i];
        }
      }
    }
    r
  }

  /** A record listed in a sequence of stored records is stored. */
  lemma StoredIn(s: seq<Todo>, m: map<int, Todo>, t: Todo)
    requires forall i :: 0 <= i < |s| ==> Stored(s[i], m)
    requires t in s
    ensures Stored(t, m)
  {
    var i :| 0 <= i < |s| && s[i] == t;
  }

  /** The positions of the records, in order. */
  function Positions(ts: seq<Todo>): seq<int> {
    seq(|ts|, i requires 0 <= i < |ts| => ts[i].position)
  }

  /** The status filter of the listing, keeping the order of the records. */
  function FilterByStatus(ts: seq<Todo>, status: string): (r: seq<Todo>)
    ensures forall t :: t in r <==> t in ts && Matches(t, status)
    ensures status != "open" && status != "done" ==> r == ts
    ensures IdsIncreasing(ts) ==> IdsIncreasing(r)
  {
    if ts == [] then []
    else
      var rest := FilterByStatus(ts[1..], status);
      assert forall k :: 0 <= k < |rest| ==> rest[k] in ts[1..] by {
        forall k | 0 <= k < |rest| ensures rest[k] in ts[1..] {
          assert rest[k] in rest;
        }
      }
      if Matches(ts[0], status) then [ts[0]] + rest else rest
  }

  /** The head of a sequence sorted by position has the least position. */
  lemma HeadIsLeast(s: seq<Todo>)
    requires SortedByPosition(s) && s != []
    ensures forall u :: u in s[1..] ==> s[0].position <= u.position
  {
    forall u | u in s[1..]
      ensures s[0].position <= u.position
    {
      var j :| 0 <= j < |s[1..]| && s[1..][j] == u;
      assert s[j + 1] == u;
    }
  }

  /** Putting a record in front of sorted records whose positions are not below its own keeps them sorted. */
  lemma ConsSorted(x: Todo, r: seq<Todo>)
    requires SortedByPosition(r)
    requires forall u :: u in r ==> x.position <= u.position
    ensures SortedByPosition([x] + r)
  {
    forall k | 0 <= k < |r|
      ensures x.position <= r[k].position
    {
      assert r[k] in r;
    }
  }

  /**
   * Inserts `t` in front of the first record whose position is not below its own, so that
   * among equal positions `t` stays first, as a stable sort keeps the earlier record first.
   */
  function Insert(t: Todo, s: seq<Todo>): (r: seq<Todo>)
    requires SortedByPosition(s)
    ensures SortedByPosition(r)
    ensures multiset(r) == multiset(s) + multiset{t}
    ensures forall u :: u in r <==> u in s || u == t
  {
    if s == [] || t.position <= s[0].position then [t] + s
    else
      var rest := Insert(t, s[1..]);
      HeadIsLeast(s);
      ConsSorted(s[0], rest);
      assert s == [s[0]] + s[1..];
      [s[0]] + rest
  }

  /** Python's `list.sort(key=position)`: sorted by position and a permutation of the input. */
  function SortByPosition(ts: seq<Todo>): (r: seq<Todo>)
    ensures SortedByPosition(r)
    ensures multiset(r) == multiset(ts)
    ensures |r| == |ts|
    ensures forall u :: u in r <==> u in ts
  {
    if ts == [] then []
    else
      assert ts == [ts[0]] + ts[1..];
      var r := Insert(ts[0], SortByPosition(ts[1..]));
      assert |r| == |multiset(r)|;
      r
  }

  lemma {:induction false} InsertBefore(t: Todo, s: seq<Todo>)
    requires SortedByPositionThenId(s)
    requires forall u :: u in s ==> t.id < u.id
    ensures SortedByPosition(s)
    ensures SortedByPositionThenId(Insert(t, s))
  {
    if s != [] && t.position > s[0].position {
      assert forall u :: u in s[1..] ==> u in s;
      InsertBefore(t, s[1..]);
      HeadBefore(t, s);
      ConsBefore(s[0], Insert(t, s[1..]));
    }
  }

  /** The head of the records comes before everything `t` is inserted among after it. */
  lemma HeadBefore(t: Todo, s: seq<Todo>)
    requires SortedByPositionThenId(s) && s != []
    requires t.position > s[0].position
    ensures SortedByPosition(s[1..])
    ensures forall u :: u in Insert(t, s[1..]) ==> Before(s[0], u)
  {
    forall u | u in Insert(t, s[1..])
      ensures Before(s[0], u)
    {
      if u != t {
        var k :| 0 <= k < |s[1..]| && s[1..][k] == u;
        assert s[k + 1] == u;
      }
    }
  }

  /** Putting a record in front of records it comes before keeps them ordered by position then id. */
  lemma ConsBefore(x: Todo, r: seq<Todo>)
    requires SortedByPositionThenId(r)
    requires forall u :: u in r ==> Before(x, u)
    ensures SortedByPositionThenId([x] + r)
  {
    forall k | 0 <= k < |r|
      ensures Before(x, r[k])
    {
      assert r[k] in r;
    }
  }

  /**
   * The stable sort of records listed in increasing id order orders them by position and,
   * among equal positions, by id: so the listing is completely determined.
   */
  lemma {:induction false} SortTieBreaksById(ts: seq<Todo>)
    requires IdsIncreasing(ts)
    ensures SortedByPositionThenId(SortByPosition(ts))
  {
    if ts != [] {
      SortTieBreaksById(ts[1..]);
      forall u | u in SortByPosition(ts[1..])
        ensures ts[0].id < u.id
      {
        var k :| 0 <= k < |ts[1..]| && ts[1..][k] == u;
        assert ts[k + 1] == u;
      }
      InsertBefore(ts[0], SortByPosition(ts[1..]));
    }
  }
}
