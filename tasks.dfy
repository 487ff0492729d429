/**
 * The server-side task handlers: request validation, the response each one gives,
 * and their effect on the document store, which is modelled as a map from `_id` to record.
 */
module Tasks {
  import opened Basics

  /** A request body: every field may be missing. */
  datatype TaskInput = TaskInput(
    title: Option<string>,
    description: Option<string>,
    dueDate: Option<string>,
    priority: Option<string>,
    tags: Option<string>,
    status: Option<string>)

  /**
   * A stored task document. The due date is kept as the text it was given in
   * (date parsing is not modelled); `description` and `tags` may be absent.
   */
  datatype Record = Record(
    title: string,
    description: Option<string>,
    dueDate: string,
    priority: string,
    tags: Option<string>,
    status: string)

  /** A document together with its `_id`. */
  datatype Doc = Doc(id: Id, record: Record)

  /** The JSON body of a response, reduced to what the handlers put in it. */
  datatype Body =
    | Error(message: string)     // `{ error: message }`
    | Todo(doc: Doc)             // `{ todo: document }`
    | Found(found: Option<Record>) // the document itself, or `null`
    | Deleted                    // `{ success: true }`

  datatype Response = Response(status: int, body: Body)

  const TitleStatusRequired := "Title and status are required"
  const DueDateRequired := "dueDate are required"
  const TaskNotFound := "Task not found"
  /** The message of the schema's `required` validator for `priority`. */
  const PriorityRequired := "Task validation failed: priority: Path `priority` is required."

  /** `error.message || fallback`. */
  function ErrorText(message: string, fallback: string): (r: string)
    ensures r != "" || fallback == ""
    ensures message != "" ==> r == message
    ensures message == "" ==> r == fallback
  {
    if message != "" then message else fallback
  }

  /**
   * The checks `createTask` and `updateTask` run before touching the store, in order:
   * title and status first, then the due date. `None` means the input passed.
   */
  function Validate(input: TaskInput): (r: Option<Response>)
    ensures r.None? <==> Truthy(input.title) && Truthy(input.status) && Truthy(input.dueDate)
    ensures r.Some? ==> r.value.status == 400
    ensures !Truthy(input.title) || !Truthy(input.status)
      ==> r == Some(Response(400, Error(TitleStatusRequired)))
    ensures Truthy(input.title) && Truthy(input.status) && !Truthy(input.dueDate)
      ==> r == Some(Response(400, Error(DueDateRequired)))
  {
    if !Truthy(input.title) || !Truthy(input.status) then
      Some(Response(400, Error(TitleStatusRequired)))
    else if !Truthy(input.dueDate) then
      Some(Response(400, Error(DueDateRequired)))
    else
      None
  }

  /** The title/status check wins over the due-date check when both fail. */
  lemma TitleCheckedBeforeDueDate(input: TaskInput)
    requires !Truthy(input.title) && !Truthy(input.dueDate)
    ensures Validate(input) == Some(Response(400, Error(TitleStatusRequired)))
  {
  }

  /** The record `Task.create` stores for a validated input with a priority. */
  function NewRecord(input: TaskInput): (r: Record)
    requires Validate(input).None? && input.priority.Some?
    ensures r.title == input.title.value && r.status == input.status.value
    ensures r.dueDate == input.dueDate.value && r.priority == input.priority.value
    ensures r.description == input.description && r.tags == input.tags
  {
    Record(input.title.value, input.description, input.dueDate.value,
           input.priority.value, input.tags, input.status.value)
  }

  /**
   * The record `findByIdAndUpdate` leaves behind: every field the input carries
   * replaces the stored one; a field the input lacks keeps its stored value.
   */
  function Merged(old_: Record, input: TaskInput): (r: Record)
    requires Validate(input).None?
    ensures r.title == input.title.value && r.status == input.status.value
    ensures r.dueDate == input.dueDate.value
    ensures r.description == (if input.description.Some? then input.description else old_.description)
    ensures r.tags == (if input.tags.Some? then input.tags else old_.tags)
    ensures r.priority == (if input.priority.Some? then input.priority.value else old_.priority)
  {
    Record(input.title.value,
           if input.description.Some? then input.description else old_.description,
           input.dueDate.value,
           if input.priority.Some? then input.priority.value else old_.priority,
           if input.tags.Some? then input.tags else old_.tags,
           input.status.value)
  }

  /** An update that carries all six fields replaces the whole record, whatever was stored. */
  lemma MergedReplacesAll(old_: Record, input: TaskInput)
    requires Validate(input).None?
    requires input.description.Some? && input.priority.Some? && input.tags.Some?
    ensures Merged(old_, input) == NewRecord(input)
  {
  }

  /** A handler's response together with the store it leaves behind. */
  datatype Outcome = Outcome(resp: Response, records: map<Id, Record>)

  /**
   * `createTask(input)`: validation, then the schema's `required` check on
   * `priority`, then the write, which may fail (`fault` holds the error message).
   * `newId` is the `_id` the store assigns.
   */
  function CreateOutcome(db: map<Id, Record>, input: TaskInput, newId: Id, fault: Option<string>): (o: Outcome)
    requires newId !in db
    ensures o.resp.status == 201
      <==> Validate(input).None? && Truthy(input.priority) && fault.None?
    ensures o.resp.status == 201
      ==> o.records == db[newId := NewRecord(input)] && o.resp.body == Todo(Doc(newId, NewRecord(input)))
    ensures o.resp.status != 201 ==> o.records == db
    ensures |o.records| == |db| + (if o.resp.status == 201 then 1 else 0)
  {
    if Validate(input).Some? then Outcome(Validate(input).value, db)
    else if !Truthy(input.priority) then Outcome(Response(500, Error(PriorityRequired)), db)
    else if fault.Some? then Outcome(Response(500, Error(ErrorText(fault.value, "Failed to create todo"))), db)
    else
      var r := NewRecord(input);
      Outcome(Response(201, Todo(Doc(newId, r))), db[newId := r])
  }

  /** Every validation failure is answered before the store is touched. */
  lemma CreateRejectsBeforeStore(db: map<Id, Record>, input: TaskInput, newId: Id, fault: Option<string>)
    requires newId !in db && Validate(input).Some?
    ensures CreateOutcome(db, input, newId, fault) == Outcome(Validate(input).value, db)
  {
  }

  /** A created task can be read back under its new `_id` with exactly the given fields. */
  lemma CreateThenFind(db: map<Id, Record>, input: TaskInput, newId: Id)
    requires newId !in db && Validate(input).None? && Truthy(input.priority)
    ensures var o := CreateOutcome(db, input, newId, None);
      newId in o.records && o.records[newId] == NewRecord(input)
      && o.records[newId].title == input.title.value
      && o.records[newId].status == input.status.value
  {
  }

  /**
   * `updateTask(id, input)`: validation, then the write (which may fail), then
   * 404 when no document has that `_id`; otherwise the merged record, with 200.
   */
  function UpdateOutcome(db: map<Id, Record>, id: Id, input: TaskInput, fault: Option<string>): (o: Outcome)
    ensures o.records.Keys == db.Keys
    ensures forall k :: k in db && k != id ==> o.records[k] == db[k]
    ensures o.resp.status == 200 <==> Validate(input).None? && fault.None? && id in db
    ensures o.resp.status == 200
      ==> o.records[id] == Merged(db[id], input) && o.resp.body == Todo(Doc(id, Merged(db[id], input)))
    ensures o.resp.status != 200 ==> o.records == db
  {
    if Validate(input).Some? then Outcome(Validate(input).value, db)
    else if fault.Some? then Outcome(Response(500, Error(ErrorText(fault.value, "Failed to update todo"))), db)
    else if id !in db then Outcome(Response(404, Error(TaskNotFound)), db)
    else
      var r := Merged(db[id], input);
      Outcome(Response(200, Todo(Doc(id, r))), db[id := r])
  }

  /** An unknown `_id` with a valid input gives 404 and leaves the store alone. */
  lemma UpdateUnknownId(db: map<Id, Record>, id: Id, input: TaskInput)
    requires id !in db && Validate(input).None?
    ensures UpdateOutcome(db, id, input, None) == Outcome(Response(404, Error(TaskNotFound)), db)
  {
  }

  /** Validation comes before the lookup: an invalid input is a 400 even for an unknown `_id`. */
  lemma UpdateValidatesFirst(db: map<Id, Record>, id: Id, input: TaskInput, fault: Option<string>)
    requires Validate(input).Some?
    ensures UpdateOutcome(db, id, input, fault).resp.status == 400
    ensures UpdateOutcome(db, id, input, fault).records == db
  {
  }

  /**
   * `deleteTask(id)`: `findByIdAndDelete` then `{ success: true }`, whether or not a
   * document had that `_id`. A missing `_id` (`null`) matches no document.
   */
  function DeleteOutcome(db: map<Id, Record>, id: Option<Id>, fault: Option<string>): (o: Outcome)
    ensures fault.None? ==> o.resp == Response(200, Deleted)
    ensures fault.Some? ==> o.resp.status == 500 && o.records == db
    ensures fault.None? && id.Some? ==> id.value !in o.records
    ensures forall k :: k in db && (id.None? || k != id.value) ==> k in o.records && o.records[k] == db[k]
    ensures o.records.Keys <= db.Keys
  {
    if fault.Some? then Outcome(Response(500, Error(ErrorText(fault.value, "Failed to delete todo"))), db)
    else if id.Some? then Outcome(Response(200, Deleted), db - {id.value})
    else Outcome(Response(200, Deleted), db)
  }

  /** Deleting the same `_id` twice answers the same and leaves the same store as deleting it once. */
  lemma DeleteIdempotent(db: map<Id, Record>, id: Id)
    ensures var once := DeleteOutcome(db, Some(id), None);
      DeleteOutcome(once.records, Some(id), None) == once
  {
    var once := DeleteOutcome(db, Some(id), None);
    assert once.records - {id} == once.records;
  }

  /** Deleting an `_id` no document has changes nothing. */
  lemma DeleteAbsent(db: map<Id, Record>, id: Id)
    requires id !in db
    ensures DeleteOutcome(db, Some(id), None) == Outcome(Response(200, Deleted), db)
  {
    assert db - {id} == db;
  }

  /** The task document collection and the handlers that read and write it. */
  class TaskDb {
    var records: map<Id, Record>

    constructor ()
      ensures records == map[]
    {
      records := map[];
    }

    /**
     * `getTask(id)`: 200 with the document, or with `null` when no document has
     * that `_id` (there is no 404 here); a store failure forwards its message.
     */
    method Get(id: Id, fault: Option<string>) returns (resp: Response)
      ensures fault.Some? ==> resp == Response(500, Error(fault.value))
      ensures fault.None? && id in records ==> resp == Response(200, Found(Some(records[id])))
      ensures fault.None? && id !in records ==> resp == Response(200, Found(None))
    {
      if fault.Some? {
        resp := Response(500, Error(fault.value));
      } else if id in records {
        resp := Response(200, Found(Some(records[id])));
      } else {
        resp := Response(200, Found(None));
      }
    }

    /** `createTask(input)`; see `CreateOutcome`. */
    method Create(input: TaskInput, newId: Id, fault: Option<string>) returns (resp: Response)
      requires newId !in records
      modifies this
      ensures resp == CreateOutcome(old(records), input, newId, fault).resp
      ensures records == CreateOutcome(old(records), input, newId, fault).records
    {
      var o := CreateOutcome(records, input, newId, fault);
      resp, records := o.resp, o.records;
    }

    /** `updateTask(id, input)`; see `UpdateOutcome`. */
    method Update(id: Id, input: TaskInput, fault: Option<string>) returns (resp: Response)
      modifies this
      ensures resp == UpdateOutcome(old(records), id, input, fault).resp
      ensures records == UpdateOutcome(old(records), id, input, fault).records
    {
      var o := UpdateOutcome(records, id, input, fault);
      resp, records := o.resp, o.records;
    }

    /** `deleteTask(id)`; see `DeleteOutcome`. */
    method Delete(id: Option<Id>, fault: Option<string>) returns (resp: Response)
      modifies this
      ensures resp == DeleteOutcome(old(records), id, fault).resp
      ensures records == DeleteOutcome(old(records), id, fault).records
    {
      var o := DeleteOutcome(records, id, fault);
      resp, records := o.resp, o.records;
    }
  }
}
