/**
 * The notebook table and the server functions over it: create with
 * defaults, the field-by-field update merge, content update, delete and
 * the two queries.
 *
 * The database is a map from notebook id to row; which kinds of call fail
 * and how is part of the input. Each function also returns the calls it
 * made, in order.
 */
module NotebookStore {
  import opened Wrappers

  /** A JavaScript field value: missing, `null`, or a string. */
  datatype Value = Undefined | Null | Str(s: string)

  /** `a ?? b`. */
  function Coalesce(a: Value, b: Value): Value {
    if a.Str? then a else b
  }

  datatype Row = Row(
    id: string, title: Value, description: Value, content: Value,
    userId: string, createdAt: nat, updatedAt: nat)

  datatype Op = Insert | Query | Update | Delete

  /** What a failing call throws: an `Error` with a message, or some other value. */
  datatype Fault = ErrorWith(message: string) | NonError

  datatype Db = Db(rows: map<string, Row>, faults: map<Op, Fault>)

  /** A function's result, the rows afterwards and the calls it made. */
  datatype Outcome<T> = Outcome(result: Result<T, string>, rows: map<string, Row>, calls: seq<Op>)

  /** The fields an update may supply. */
  datatype UpdateData = UpdateData(title: Value, description: Value, content: Value)

  /** `createNotebook`: insert a row with empty content and a description defaulting to `""`. */
  function CreateNotebook(db: Db, userId: string, title: string, description: Value, id: string, now: nat)
    : Outcome<string>
  {
    if Insert in db.faults || id in db.rows then Outcome(Failure("Failed to create notebook"), db.rows, [Insert])
    else
      var d := if description.Str? && description.s != [] then description.s else "";
      Outcome(Success(id), db.rows[id := Row(id, Str(title), Str(d), Str(""), userId, now, now)], [Insert])
  }

  /** The update payload before filtering. */
  datatype Payload = Payload(title: string, description: Value, content: Value, updatedAt: nat)

  /**
   * The merge of `updateNotebook`: the title falls back to the existing one,
   * then to `""`; the description and the content take any supplied value,
   * `null` included, and otherwise the existing value or `null`.
   */
  function MergePayload(existing: Row, data: UpdateData, now: nat): Payload {
    Payload(
      if data.title.Str? then data.title.s else if existing.title.Str? then existing.title.s else "",
      if data.description != Undefined then data.description else Coalesce(existing.description, Null),
      if data.content != Undefined then data.content else Coalesce(existing.content, Null),
      now)
  }

  /** One entry of the payload object. */
  datatype Field = UpdatedAtField(at: nat) | TitleField(title: string) | DescriptionField(description: Value) | ContentField(content: Value)

  predicate IsUndefinedField(f: Field) {
    (f.DescriptionField? && f.description == Undefined) || (f.ContentField? && f.content == Undefined)
  }

  /** The payload's entries in the order the source sets them. */
  function Entries(p: Payload): seq<Field> {
    [UpdatedAtField(p.updatedAt), TitleField(p.title), DescriptionField(p.description), ContentField(p.content)]
  }

  /** The entries whose value is not `undefined`. */
  function Defined(fs: seq<Field>): (r: seq<Field>)
    ensures forall f :: f in r ==> f in fs && !IsUndefinedField(f)
  {
    if fs == [] then [] else (if IsUndefinedField(fs[0]) then [] else [fs[0]]) + Defined(fs[1..])
  }

  function Apply(row: Row, p: Payload): Row {
    row.(title := Str(p.title), description := p.description, content := p.content, updatedAt := p.updatedAt)
  }

  function UpdateError(f: Fault): string {
    match f
    case ErrorWith(m) => "Failed to update notebook: " + m
    case NonError => "Failed to update notebook: An unknown error occurred"
  }

  /** `updateNotebook`: look the row up, merge, write the merged fields. */
  function UpdateNotebook(db: Db, notebookId: string, data: UpdateData, now: nat): Outcome<()> {
    if Query in db.faults then Outcome(Failure(UpdateError(db.faults[Query])), db.rows, [Query])
    else if notebookId !in db.rows then Outcome(Failure("Notebook not found"), db.rows, [Query])
    else if Update in db.faults then Outcome(Failure(UpdateError(db.faults[Update])), db.rows, [Query, Update])
    else
      var p := MergePayload(db.rows[notebookId], data, now);
      Outcome(Success(()), db.rows[notebookId := Apply(db.rows[notebookId], p)], [Query, Update])
  }

  /** `updateNotebookContent`: set the content of the row with that id, if there is one. */
  function UpdateNotebookContent(db: Db, notebookId: string, content: string, now: nat): Outcome<()> {
    if Update in db.faults then Outcome(Failure("Failed to update notebook content"), db.rows, [Update])
    else if notebookId !in db.rows then Outcome(Success(()), db.rows, [Update])
    else Outcome(Success(()), db.rows[notebookId := db.rows[notebookId].(content := Str(content), updatedAt := now)], [Update])
  }

  /** `deleteNotebook`. */
  function DeleteNotebook(db: Db, notebookId: string): Outcome<()> {
    if Delete in db.faults then Outcome(Failure("Failed to delete notebook"), db.rows, [Delete])
    else Outcome(Success(()), db.rows - {notebookId}, [Delete])
  }

  /** `getNotebook`: the row with that id, if any. */
  function GetNotebook(db: Db, notebookId: string): Outcome<Option<Row>> {
    if Query in db.faults then Outcome(Failure("Failed to get notebook"), db.rows, [Query])
    else Outcome(Success(if notebookId in db.rows then Some(db.rows[notebookId]) else None), db.rows, [Query])
  }

  /** `getUserNotebooks`: the rows of one user. */
  function GetUserNotebooks(db: Db, userId: string): Outcome<set<Row>> {
    if Query in db.faults then Outcome(Failure("Failed to get user notebooks"), db.rows, [Query])
    else Outcome(Success(set r | r in db.rows.Values && r.userId == userId), db.rows, [Query])
  }

  // ---------------------------------------------------------------------
  // Properties
  // ---------------------------------------------------------------------

  /** A created notebook has the given title, empty content and a description defaulting to `""`; its id is returned. */
  lemma CreateDefaults(db: Db, userId: string, title: string, description: Value, id: string, now: nat)
    ensures var o := CreateNotebook(db, userId, title, description, id, now);
            (o.result.Success? <==> Insert !in db.faults && id !in db.rows)
            && (o.result.Success? ==>
                  o.result.value == id && id in o.rows
                  && o.rows[id].title == Str(title) && o.rows[id].content == Str("")
                  && o.rows[id].description == (if description.Str? then Str(description.s) else Str(""))
                  && o.rows[id].userId == userId && o.rows[id].createdAt == now == o.rows[id].updatedAt
                  && o.rows - {id} == db.rows)
            && (o.result.Failure? ==> o.rows == db.rows)
  {
    var o := CreateNotebook(db, userId, title, description, id, now);
    if o.result.Success? {
      assert o.rows - {id} == db.rows;
    }
  }

  /** The title: the supplied one wins, then the existing one, then `""`. */
  lemma TitleFallback(existing: Row, data: UpdateData, now: nat)
    ensures var t := MergePayload(existing, data, now).title;
            (data.title.Str? ==> t == data.title.s)
            && (!data.title.Str? && existing.title.Str? ==> t == existing.title.s)
            && (!data.title.Str? && !existing.title.Str? ==> t == "")
  {}

  /** The description and the content: any value but `undefined` wins, even `null`; else the existing value or `null`. */
  lemma OptionalFieldsFallback(existing: Row, data: UpdateData, now: nat)
    ensures var p := MergePayload(existing, data, now);
            (data.description != Undefined ==> p.description == data.description)
            && (data.description == Undefined ==> p.description == if existing.description.Str? then existing.description else Null)
            && (data.content != Undefined ==> p.content == data.content)
            && (data.content == Undefined ==> p.content == if existing.content.Str? then existing.content else Null)
            && p.updatedAt == now
  {}

  /** No merged field is `undefined`, so the filter keeps all four entries. */
  lemma PayloadHasNoUndefined(existing: Row, data: UpdateData, now: nat)
    ensures var p := MergePayload(existing, data, now);
            p.description != Undefined && p.content != Undefined
            && Defined(Entries(p)) == Entries(p)
  {
    DefinedKeepsDefined(Entries(MergePayload(existing, data, now)));
  }

  /** Filtering out `undefined` entries from a list with none changes nothing. */
  lemma {:induction false} DefinedKeepsDefined(fs: seq<Field>)
    requires forall k :: 0 <= k < |fs| ==> !IsUndefinedField(fs[k])
    ensures Defined(fs) == fs
  {
    if fs != [] {
      DefinedKeepsDefined(fs[1..]);
      assert [fs[0]] + fs[1..] == fs;
    }
  }

  /** A missing notebook is reported and nothing is written. */
  lemma UpdateMissingIsNotFound(db: Db, notebookId: string, data: UpdateData, now: nat)
    requires Query !in db.faults && notebookId !in db.rows
    ensures UpdateNotebook(db, notebookId, data, now) == Outcome(Failure("Notebook not found"), db.rows, [Query])
  {}

  /** A successful update writes the merged fields into that row and changes no other row. */
  lemma UpdateWritesMerge(db: Db, notebookId: string, data: UpdateData, now: nat)
    ensures var o := UpdateNotebook(db, notebookId, data, now);
            (o.result.Success? <==> Query !in db.faults && notebookId in db.rows && Update !in db.faults)
            && (o.result.Success? ==>
                  o.rows == db.rows[notebookId := Apply(db.rows[notebookId], MergePayload(db.rows[notebookId], data, now))])
            && (o.result.Failure? ==> o.rows == db.rows)
            && o.rows.Keys == db.rows.Keys
  {}
}
