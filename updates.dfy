/**
 * The outcome of each handler as a function of the stored records: which record is
 * created or rewritten, or which error is reported. The store's methods are specified by these.
 */
module Updates {
  import opened TodoTypes
  import opened IdSeqs
  import opened Listing

  /**
   * The shape of the store: `ids` lists exactly the keys of `m`, in increasing order (the
   * dictionary's insertion order), and every key maps to a record carrying it as its id.
   */
  predicate Consistent(m: map<int, Todo>, ids: seq<int>) {
    && (forall k :: k in m ==> k in ids)
    && (forall i :: 0 <= i < |ids| ==> ids[i] in m)
    && Increasing(ids)
    && KeysAreIds(m)
  }

  /** Listing the store's records in key order lists exactly the stored records. */
  lemma ValuesOfStore(m: map<int, Todo>, ids: seq<int>)
    requires Consistent(m, ids)
    ensures forall k :: k in m ==> m[k] in Values(ids, m)
    ensures forall t :: t in Values(ids, m) ==> Stored(t, m)
    ensures IdsIncreasing(Values(ids, m))
  {
    var vs := Values(ids, m);
    forall k | k in m
      ensures m[k] in vs
    {
      assert k in ids;
      var i :| 0 <= i < |ids| && ids[i] == k;
      assert vs[i] == m[k];
    }
    forall t | t in vs
      ensures Stored(t, m)
    {
      StoredIn(vs, m, t);
    }
  }

  /** Removing the keys listed in `d` from the map and from the key order keeps the store consistent. */
  lemma RemoveKeys(m: map<int, Todo>, ids: seq<int>, d: seq<int>)
    requires Consistent(m, ids)
    ensures Consistent(m - Elems(d), Without(ids, d))
  {
    var w := Without(ids, d);
    forall i | 0 <= i < |w|
      ensures w[i] in m - Elems(d)
    {
      assert w[i] in w;
      var j :| 0 <= j < |ids| && ids[j] == w[i];
    }
  }

  /** `get_todo_or_404`: the stored record, or `NotFound`. */
  function Lookup(m: map<int, Todo>, id: int): (r: Result<Todo>)
    ensures r.Ok? <==> id in m
    ensures r.Ok? ==> r.value == m[id]
    ensures r.Err? ==> r.error == NotFound
  {
    if id in m then Ok(m[id]) else Err(NotFound)
  }

  /** A title that create accepts: present and not the empty string. */
  predicate HasTitle(b: Body) {
    b.title.Some? && b.title.value != ""
  }

  /** The record `make_todo` builds for id `id`: is_done defaults to false, priority to 1, position is the id. */
  function FromBody(id: int, b: Body): Todo
    requires b.title.Some?
  {
    Todo(id, b.title.value, b.isDone.GetOr(false), b.priority.GetOr(1), id)
  }

  /** The items a bulk create accepts, in input order. */
  function ValidItems(items: seq<Body>): (r: seq<Body>)
    ensures |r| <= |items|
    ensures forall b :: b in r <==> b in items && HasTitle(b)
    ensures forall i :: 0 <= i < |r| ==> HasTitle(r[i])
  {
    if items == [] then []
    else
      var init, last := items[..|items| - 1], items[|items| - 1];
      assert items == init + [last];
      if HasTitle(last) then ValidItems(init) + [last] else ValidItems(init)
  }

  /**
   * The records a bulk create makes when the counter stands at `first`: one per accepted
   * item, built from it, with consecutive ids from `first` in input order.
   */
  function BulkTodos(items: seq<Body>, first: int): (r: seq<Todo>)
    ensures |r| == |ValidItems(items)| <= |items|
  {
    var v := ValidItems(items);
    seq(|v|, i requires 0 <= i < |v| => FromBody(first + i, v[i]))
  }

  /** Created records get consecutive ids from `first`, equal to their positions, and their titles are not empty. */
  lemma BulkIds(items: seq<Body>, first: int)
    ensures var r := BulkTodos(items, first);
      forall i :: 0 <= i < |r| ==> r[i].id == first + i && r[i].position == first + i
    ensures var r := BulkTodos(items, first);
      forall i, j :: 0 <= i < j < |r| ==> first <= r[i].id < r[j].id < first + |r|
    ensures forall t :: t in BulkTodos(items, first) ==> t.position == t.id && t.title != ""
  {
    var r := BulkTodos(items, first);
    forall t | t in r
      ensures t.position == t.id && t.title != ""
    {
      var i :| 0 <= i < |r| && r[i] == t;
      assert ValidItems(items)[i] in ValidItems(items);
    }
  }

  /** Bulk create judges each item on its own: the accepted items of a concatenation are those of its parts, in turn. */
  lemma {:induction false} ValidItemsAppend(a: seq<Body>, b: seq<Body>)
    ensures ValidItems(a + b) == ValidItems(a) + ValidItems(b)
  {
    if b == [] {
      assert a + b == a;
    } else {
      var init := b[..|b| - 1];
      ValidItemsAppend(a, init);
      assert (a + b)[..|a + b| - 1] == a + init;
    }
  }

  /** A single item is accepted, once, exactly when it has a title. */
  lemma ValidItemsOne(x: Body)
    ensures ValidItems([x]) == if HasTitle(x) then [x] else []
  {
    assert [x][..0] == [];
  }

  /** When every item has a title, bulk create accepts all of them. */
  lemma {:induction false} ValidItemsAll(items: seq<Body>)
    requires forall i :: 0 <= i < |items| ==> HasTitle(items[i])
    ensures ValidItems(items) == items
  {
    if items != [] {
      var init := items[..|items| - 1];
      ValidItemsAll(init);
      assert items == init + [items[|items| - 1]];
    }
  }

  /** A bulk create of one item makes what a single create makes, or nothing. */
  lemma BulkOfOne(b: Body, first: int)
    ensures BulkTodos([b], first) == if HasTitle(b) then [FromBody(first, b)] else []
  {
    assert [b][..0] == [];
  }

  /** `replace_todo`: all three fields are required; the id and the position are kept. */
  function Replaced(m: map<int, Todo>, id: int, b: Body): (r: Result<Todo>)
    ensures r.Ok? <==> id in m && b.title.Some? && b.isDone.Some? && b.priority.Some?
    ensures r.Err? ==> r.error == if id in m then AllFieldsRequired else NotFound
    ensures r.Ok? ==> r.value.id == id && r.value.position == m[id].position
    ensures r.Ok? ==> r.value.title == b.title.value && r.value.isDone == b.isDone.value
                      && r.value.priority == b.priority.value
  {
    match Lookup(m, id)
    case Err(e) => Err(e)
    case Ok(existing) =>
      if b.title.Some? && b.isDone.Some? && b.priority.Some? then
        Ok(Todo(id, b.title.value, b.isDone.value, b.priority.value, existing.position))
      else
        Err(AllFieldsRequired)
  }

  /** Replacing again with the same body changes nothing. */
  lemma ReplaceIdempotent(m: map<int, Todo>, id: int, b: Body)
    requires Replaced(m, id, b).Ok?
    ensures var t := Replaced(m, id, b).value;
      Replaced(m[id := t], id, b) == Ok(t)
  {
  }

  /** `put_todo_status`: only `is_done` changes. */
  function StatusSet(m: map<int, Todo>, id: int, isDone: Option<bool>): (r: Result<Todo>)
    ensures r.Ok? <==> id in m && isDone.Some?
    ensures r.Err? ==> r.error == if id in m then IsDoneRequired else NotFound
    ensures r.Ok? ==> r.value.isDone == isDone.value && r.value.(isDone := m[id].isDone) == m[id]
  {
    match Lookup(m, id)
    case Err(e) => Err(e)
    case Ok(existing) =>
      if isDone.Some? then Ok(existing.(isDone := isDone.value)) else Err(IsDoneRequired)
  }

  /** Setting the same status again changes nothing. */
  lemma StatusIdempotent(m: map<int, Todo>, id: int, isDone: Option<bool>)
    requires StatusSet(m, id, isDone).Ok?
    ensures var t := StatusSet(m, id, isDone).value;
      StatusSet(m[id := t], id, isDone) == Ok(t)
  {
  }

  /** `patch_todo`: at least one field is required; exactly the supplied fields change. */
  function Patched(m: map<int, Todo>, id: int, b: Body): (r: Result<Todo>)
    ensures r.Ok? <==> id in m && (b.title.Some? || b.isDone.Some? || b.priority.Some?)
    ensures r.Err? ==> r.error == if id in m then NoPatchField else NotFound
    ensures r.Ok? ==> r.value.id == m[id].id && r.value.position == m[id].position
    ensures r.Ok? ==> r.value.title == (if b.title.Some? then b.title.value else m[id].title)
    ensures r.Ok? ==> r.value.isDone == (if b.isDone.Some? then b.isDone.value else m[id].isDone)
    ensures r.Ok? ==> r.value.priority == (if b.priority.Some? then b.priority.value else m[id].priority)
  {
    match Lookup(m, id)
    case Err(e) => Err(e)
    case Ok(existing) =>
      if b.title.None? && b.isDone.None? && b.priority.None? then Err(NoPatchField)
      else
        var t1 := if b.title.Some? then existing.(title := b.title.value) else existing;
        var t2 := if b.isDone.Some? then t1.(isDone := b.isDone.value) else t1;
        var t3 := if b.priority.Some? then t2.(priority := b.priority.value) else t2;
        Ok(t3)
  }

  /** A patch that supplies every field is a replace. */
  lemma PatchAllIsReplace(m: map<int, Todo>, id: int, b: Body)
    requires KeysAreIds(m)
    requires b.title.Some? && b.isDone.Some? && b.priority.Some?
    ensures Patched(m, id, b) == Replaced(m, id, b)
  {
  }

  /** A patch that supplies only `is_done` is a status update. */
  lemma PatchStatusIsStatusSet(m: map<int, Todo>, id: int, isDone: bool)
    ensures Patched(m, id, Body(None, Some(isDone), None)) == StatusSet(m, id, Some(isDone))
  {
  }

  /** Every entry of `s` is a key of `m`. */
  predicate AllIn(s: seq<int>, m: map<int, Todo>) {
    forall j :: 0 <= j < |s| ==> s[j] in m
  }

  /** The ids of `order` that are not stored, in the order `order` lists them (duplicates kept). */
  function Missing(order: seq<int>, m: map<int, Todo>): (r: seq<int>)
    ensures r == [] <==> AllIn(order, m)
  {
    if order == [] then []
    else
      (if order[0] in m then [] else [order[0]]) + Missing(order[1..], m)
  }

  /** The reported ids are exactly the unknown ids of `order`. */
  lemma {:induction false} MissingIds(order: seq<int>, m: map<int, Todo>)
    ensures forall x :: x in Missing(order, m) <==> x in order && x !in m
  {
    if order != [] {
      MissingIds(order[1..], m);
      assert order == [order[0]] + order[1..];
    }
  }

  /** Unknown ids are reported part by part: for a concatenation, those of the first part, then those of the second. */
  lemma {:induction false} MissingAppend(a: seq<int>, b: seq<int>, m: map<int, Todo>)
    ensures Missing(a + b, m) == Missing(a, m) + Missing(b, m)
  {
    if a != [] {
      MissingAppend(a[1..], b, m);
      assert (a + b)[1..] == a[1..] + b;
    } else {
      assert a + b == b;
    }
  }

  /** The ids of completed records, in the order `ids` lists them. */
  function DoneIds(ids: seq<int>, m: map<int, Todo>): (r: seq<int>)
    requires forall i :: 0 <= i < |ids| ==> ids[i] in m
    ensures forall k :: k in r <==> k in ids && k in m && m[k].isDone
    ensures Increasing(ids) ==> Increasing(r)
  {
    if ids == [] then []
    else
      var rest := DoneIds(ids[1..], m);
      assert Increasing(ids) ==> forall j :: 0 <= j < |rest| ==> ids[0] < rest[j] by {
        if Increasing(ids) {
          forall j | 0 <= j < |rest|
            ensures ids[0] < rest[j]
          {
            assert rest[j] in rest;
            var i :| 0 <= i < |ids[1..]| && ids[1..][i] == rest[j];
            assert ids[i + 1] == rest[j];
          }
        }
      }
      if m[ids[0]].isDone then [ids[0]] + rest else rest
  }
}
