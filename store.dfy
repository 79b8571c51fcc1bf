/**
 * The in-memory todo store: the `TODOS` dictionary and the `NEXT_ID` counter, with one
 * method per request handler. Request bodies arrive typed; errors come back as `Err`.
 */
module TodoStore {
  import opened TodoTypes
  import opened IdSeqs
  import opened Listing
  import opened Updates
  import opened Reordering
  import opened StoreSteps

  class Store {
    /** `TODOS`: the records by id. */
    var todos: map<int, Todo>
    /** The key order of `TODOS`, which iterates in insertion order. */
    var ids: seq<int>
    /** `NEXT_ID`: the id the next created record gets. */
    var nextId: int
    /** Every id handed out so far, including those of deleted records. */
    ghost var issued: set<int>

    ghost predicate Valid()
      reads this
    {
      Inv(todos, ids, nextId, issued)
    }

    constructor ()
      ensures Valid()
      ensures todos == map[] && ids == [] && nextId == 1 && issued == {}
    {
      todos, ids, nextId := map[], [], 1;
      issued := {};
    }

    /** `make_todo`: builds a record with the next id, the position equal to it, and advances the counter. */
    method MakeTodo(title: string, isDone: bool, priority: int) returns (t: Todo)
      requires Valid()
      modifies this`nextId, this`issued
      ensures Valid()
      ensures t == Todo(old(nextId), title, isDone, priority, old(nextId))
      ensures t.id !in old(issued) && forall k :: k in old(todos) ==> k < t.id
      ensures nextId == old(nextId) + 1 && issued == old(issued) + {t.id}
    {
      var todoId := nextId;
      issued := issued + {todoId};
      nextId := nextId + 1;
      t := Todo(todoId, title, isDone, priority, todoId);
    }

    /** Makes a record from a body with a title and stores it under its id, as both create handlers do. */
    method Add(b: Body) returns (t: Todo)
      requires Valid() && b.title.Some?
      modifies this
      ensures Valid()
      ensures t == FromBody(old(nextId), b) && t.id !in old(issued)
      ensures todos == old(todos)[t.id := t] && ids == old(ids) + [t.id]
      ensures nextId == old(nextId) + 1 && issued == old(issued) + {t.id}
    {
      t := MakeTodo(b.title.value, b.isDone.GetOr(false), b.priority.GetOr(1));
      ConsistentAdd(todos, ids, t);
      todos := todos[t.id := t];
      ids := ids + [t.id];
    }

    /** `create_todo`: a missing or empty title is refused; otherwise one record is created. */
    method Create(b: Body) returns (r: Result<Todo>)
      requires Valid()
      modifies this
      ensures Valid()
      ensures !HasTitle(b) ==> r == Err(TitleRequired) && unchanged(this)
      ensures HasTitle(b) ==>
        && r == Ok(FromBody(old(nextId), b))
        && todos == old(todos)[r.value.id := r.value]
        && ids == old(ids) + [r.value.id]
        && nextId == old(nextId) + 1
        && issued == old(issued) + {r.value.id}
      ensures r.Ok? ==> r.value.id !in old(issued) && forall k :: k in old(todos) ==> k < r.value.id
    {
      if !HasTitle(b) {
        return Err(TitleRequired);
      }
      var t := Add(b);
      r := Ok(t);
    }

    /**
     * `create_todos_bulk`: refused when "items" is not a list; otherwise every item with a
     * title is created in input order and the others are skipped.
     */
    method CreateBulk(items: Option<seq<Body>>) returns (r: Result<Bulk>)
      requires Valid()
      modifies this
      ensures Valid()
      ensures items.None? ==> r == Err(ItemsNotAList) && unchanged(this)
      ensures items.Some? ==>
        var created := BulkTodos(items.value, old(nextId));
        && r == Ok(Bulk(created, |created|))
        && nextId == old(nextId) + |created|
        && todos == WithRecords(old(todos), created)
        && ids == old(ids) + IdsOf(created)
        && issued == old(issued) + Elems(IdsOf(created))
        && (forall t :: t in created ==> Stored(t, todos))
        && (forall k :: k in old(todos) ==> k in todos && todos[k] == old(todos)[k])
    {
      if items.None? {
        return Err(ItemsNotAList);
      }
      var created;
      WithRecordsKeys(todos, BulkTodos(items.value, nextId));
      BulkStored(todos, items.value, nextId);
      todos, ids, created := AddEach(todos, ids, nextId, items.value);
      issued := issued + Elems(IdsOf(created));
      nextId := nextId + |created|;
      r := Ok(Bulk(created, |created|));
    }

    /** `list_todos`: the records passing the status filter, sorted by position. */
    function List(status: string): (r: seq<Todo>)
      reads this
      requires Valid()
      ensures forall k :: k in todos && Matches(todos[k], status) ==> todos[k] in r
      ensures forall t :: t in r ==> Stored(t, todos) && Matches(t, status)
      ensures SortedByPositionThenId(r)
    {
      ValuesOfStore(todos, ids);
      var records := Values(ids, todos);
      SortTieBreaksById(FilterByStatus(records, status));
      SortByPosition(FilterByStatus(records, status))
    }

    /** `replace_todo`: overwrites title, is_done and priority, keeping the id and the position. */
    method Replace(id: int, b: Body) returns (r: Result<Todo>)
      requires Valid()
      modifies this
      ensures Valid()
      ensures r == Replaced(old(todos), id, b)
      ensures todos == if r.Ok? then old(todos)[id := r.value] else old(todos)
      ensures ids == old(ids) && nextId == old(nextId) && issued == old(issued)
    {
      var existing := Lookup(todos, id);
      if existing.Err? {
        return Err(existing.error);
      }
      if !(b.title.Some? && b.isDone.Some? && b.priority.Some?) {
        return Err(AllFieldsRequired);
      }
      var position := existing.value.position;
      var updated := Todo(id, b.title.value, b.isDone.value, b.priority.value, position);
      todos := todos[id := updated];
      r := Ok(updated);
    }

    /** `put_todo_status`: sets is_done and nothing else. */
    method SetStatus(id: int, isDone: Option<bool>) returns (r: Result<Todo>)
      requires Valid()
      modifies this
      ensures Valid()
      ensures r == StatusSet(old(todos), id, isDone)
      ensures todos == if r.Ok? then old(todos)[id := r.value] else old(todos)
      ensures ids == old(ids) && nextId == old(nextId) && issued == old(issued)
    {
      var existing := Lookup(todos, id);
      if existing.Err? {
        return Err(existing.error);
      }
      if isDone.None? {
        return Err(IsDoneRequired);
      }
      var t := existing.value.(isDone := isDone.value);
      todos := todos[id := t];
      r := Ok(t);
    }

    /** `patch_todo`: sets exactly the supplied fields, and refuses a body with none of them. */
    method Patch(id: int, b: Body) returns (r: Result<Todo>)
      requires Valid()
      modifies this
      ensures Valid()
      ensures r == Patched(old(todos), id, b)
      ensures todos == if r.Ok? then old(todos)[id := r.value] else old(todos)
      ensures ids == old(ids) && nextId == old(nextId) && issued == old(issued)
    {
      var existing := Lookup(todos, id);
      if existing.Err? {
        return Err(existing.error);
      }
      if b.title.None? && b.isDone.None? && b.priority.None? {
        return Err(NoPatchField);
      }
      var t := existing.value;
      if b.title.Some? {
        t := t.(title := b.title.value);
      }
      if b.isDone.Some? {
        t := t.(isDone := b.isDone.value);
      }
      if b.priority.Some? {
        t := t.(priority := b.priority.value);
      }
      todos := todos[id := t];
      r := Ok(t);
    }

    /**
     * `reorder_todos`: refused, changing nothing, when "order" is not a list or names an
     * unknown id; otherwise the ids of `order` get positions from 1 in turn, the other
     * records the following positions in key order, and all records come back sorted.
     */
    method Reorder(order: Option<seq<int>>) returns (r: Result<seq<Todo>>)
      requires Valid()
      modifies this
      ensures Valid()
      ensures order.None? ==> r == Err(OrderNotAList) && unchanged(this)
      ensures order.Some? && Missing(order.value, old(todos)) != [] ==>
        r == Err(UnknownIds(Missing(order.value, old(todos)))) && unchanged(this)
      ensures order.Some? && Missing(order.value, old(todos)) == [] ==>
        && todos == Reordered(old(todos), old(ids), order.value)
        && r == Ok(Relisted(old(todos), old(ids), order.value))
        && r.value == List("all")
      ensures ids == old(ids) && nextId == old(nextId) && issued == old(issued)
    {
      if order.None? {
        return Err(OrderNotAList);
      }
      var ord := order.value;
      var missing := Missing(ord, todos);
      if missing != [] {
        return Err(UnknownIds(missing));
      }
      var listed := Renumber(ord);
      r := Ok(listed);
    }

    /** The accepted reorder: both loops over the records, then the listing of all of them. */
    method Renumber(order: seq<int>) returns (listed: seq<Todo>)
      requires Valid() && Missing(order, todos) == []
      modifies this`todos
      ensures Valid()
      ensures todos == Reordered(old(todos), ids, order)
      ensures listed == Relisted(old(todos), ids, order) && listed == List("all")
    {
      ReorderKeepsInv(todos, ids, order, nextId, issued);
      todos, listed := ReorderRecords(todos, ids, order);
    }

    /** `delete_todo`: removes exactly the given record, or reports `NotFound` and changes nothing. */
    method Delete(id: int) returns (r: Result<int>)
      requires Valid()
      modifies this
      ensures Valid()
      ensures id !in old(todos) ==> r == Err(NotFound) && unchanged(this)
      ensures id in old(todos) ==>
        && r == Ok(id)
        && todos == old(todos) - {id}
        && ids == Without(old(ids), [id])
        && nextId == old(nextId) && issued == old(issued)
    {
      if id !in todos {
        return Err(NotFound);
      }
      RemoveKeys(todos, ids, [id]);
      assert Elems([id]) == {id};
      todos := todos - {id};
      ids := Without(ids, [id]);
      r := Ok(id);
    }

    /**
     * `delete_many_todos`: with `completedOnly` removes the completed records and returns
     * their ids in key order; otherwise empties the store and returns every id it held.
     */
    method DeleteMany(completedOnly: bool) returns (deleted: seq<int>)
      requires Valid()
      modifies this
      ensures Valid()
      ensures forall k :: k in deleted <==> k in old(todos) && (completedOnly ==> old(todos)[k].isDone)
      ensures completedOnly ==>
        && deleted == DoneIds(old(ids), old(todos))
        && todos == (map k | k in old(todos) && !old(todos)[k].isDone :: old(todos)[k])
        && ids == Without(old(ids), deleted)
      ensures !completedOnly ==> deleted == old(ids) && todos == map[] && ids == []
      ensures nextId == old(nextId) && issued == old(issued)
    {
      if completedOnly {
        deleted := DoneIds(ids, todos);
        RemoveKeys(todos, ids, deleted);
        DoneRemoved(todos, ids);
        todos, ids := RemoveEach(todos, ids, deleted);
      } else {
        deleted := ids;
        todos := map[];
        ids := [];
      }
    }
  }

  /**
   * What the store keeps between requests: the records and their key order agree, the
   * counter is positive, and every stored or deleted id was handed out below it.
   */
  ghost predicate Inv(todos: map<int, Todo>, ids: seq<int>, nextId: int, issued: set<int>) {
    && Consistent(todos, ids)
    && 1 <= nextId
    && todos.Keys <= issued
    && (forall k :: k in issued ==> 1 <= k < nextId)
  }

  /** A reorder keeps the invariant: it changes positions only. */
  lemma ReorderKeepsInv(m: map<int, Todo>, ids: seq<int>, order: seq<int>, nextId: int, issued: set<int>)
    requires Inv(m, ids, nextId, issued)
    ensures Inv(Reordered(m, ids, order), ids, nextId, issued)
  {
    ReorderKeepsRecords(m, ids, order);
  }
}
