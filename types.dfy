/** The values the todo store works with: records, typed request bodies and errors. */
module TodoTypes {

  datatype Option<T> = None | Some(value: T) {

    /** The value if present, or the given default (a missing JSON key). */
    function GetOr(default: T): T {
      match this
      case Some(v) => v
      case None => default
    }
  }

  /** One todo record, as stored under key `id` and serialised to clients. */
  datatype Todo = Todo(id: int, title: string, isDone: bool, priority: int, position: int)

  /** The recognised fields of a request body, already typed; `None` means the key is absent. */
  datatype Body = Body(title: Option<string>, isDone: Option<bool>, priority: Option<int>)

  /** The failures a handler reports; each but `NotFound` is a validation error (HTTP 400). */
  datatype Error =
    | NotFound                    // "Todo not found" (HTTP 404)
    | TitleRequired               // create without a non-empty title
    | ItemsNotAList               // bulk create whose "items" is not a list
    | AllFieldsRequired           // replace missing one of title, is_done, priority
    | IsDoneRequired              // status update without is_done
    | NoPatchField                // patch with none of the allowed fields
    | OrderNotAList               // reorder whose "order" is not a list
    | UnknownIds(ids: seq<int>)   // reorder naming ids that are not stored
  {
    predicate IsValidation() {
      !NotFound?
    }
  }

  datatype Result<T> = Ok(value: T) | Err(error: Error)

  /** The answer of a bulk create: the created records and how many there are. */
  datatype Bulk = Bulk(created: seq<Todo>, count: int)
}
