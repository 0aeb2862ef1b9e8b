/**
 * The server actions over notebooks: each checks, in order, that there is
 * a signed-in user, that its arguments are present, that the notebook
 * exists and that the user owns it, and only then calls the store.
 */
module NotebookActions {
  import opened Wrappers
  import opened Text
  import opened NotebookStore

  /** The session the request carries; an empty user id counts as none. */
  datatype Session = NoSession | Session(userId: string)

  function SignedInUser(session: Session): Option<string> {
    if session.Session? && session.userId != [] then Some(session.userId) else None
  }

  /** `x || fallback` on an error message. */
  function OrElse(message: string, fallback: string): string {
    if message != [] then message else fallback
  }

  /** A rejection made before any call to the store. */
  function Reject<T>(db: Db, message: string): Outcome<T> {
    Outcome(Failure(message), db.rows, [])
  }

  /** The lookup and the ownership check shared by the two update actions. */
  function CheckOwner(db: Db, notebookId: string, userId: string, unauthorized: string): Option<Outcome<()>> {
    var g := GetNotebook(db, notebookId);
    if g.result.Failure? || g.result.value.None? then Some(Outcome(Failure("Notebook not found."), db.rows, g.calls))
    else if g.result.value.value.userId != userId then Some(Outcome(Failure(unauthorized), db.rows, g.calls))
    else None
  }

  /** `createNotebookAction`. */
  function CreateNotebookAction(session: Session, title: string, description: Value, db: Db, id: string, now: nat)
    : Outcome<string>
  {
    if SignedInUser(session).None? then Reject(db, "Authentication required to create a notebook.")
    else if Trim(title) == [] then Reject(db, "Notebook title cannot be empty.")
    else
      var o := CreateNotebook(db, SignedInUser(session).value, title, description, id, now);
      if o.result.Success? then o
      else o.(result := Failure(OrElse(o.result.error, "Failed to create notebook due to an unknown error.")))
  }

  /** `updateNotebookAction`. */
  function UpdateNotebookAction(session: Session, notebookId: string, data: UpdateData, db: Db, now: nat)
    : Outcome<()>
  {
    if SignedInUser(session).None? then Reject(db, "Authentication required to update a notebook.")
    else if notebookId == [] then Reject(db, "Notebook ID is required for update.")
    else
      var check := CheckOwner(db, notebookId, SignedInUser(session).value, "You are not authorized to update this notebook.");
      if check.Some? then check.value
      else
        var u := UpdateNotebook(db, notebookId, data, now);
        var result := if u.result.Success? then u.result
                      else Failure(OrElse(u.result.error, "Failed to update notebook due to an unknown error."));
        Outcome(result, u.rows, [Query] + u.calls)
  }

  /** `updateNotebookContentAction`: the empty string is valid content, `null` and `undefined` are not. */
  function UpdateNotebookContentAction(session: Session, notebookId: string, content: Value, db: Db, now: nat)
    : Outcome<()>
  {
    if SignedInUser(session).None? then Reject(db, "Authentication required to update notebook content.")
    else if notebookId == [] then Reject(db, "Notebook ID is required for content update.")
    else if !content.Str? then Reject(db, "Content cannot be undefined or null.")
    else
      var check := CheckOwner(db, notebookId, SignedInUser(session).value, "You are not authorized to update this notebook's content.");
      if check.Some? then check.value
      else
        var u := UpdateNotebookContent(db, notebookId, content.s, now);
        var result := if u.result.Success? then u.result
                      else Failure(OrElse(u.result.error, "Failed to update notebook content due to an unknown error."));
        Outcome(result, u.rows, [Query] + u.calls)
  }

  /** `getUserNotebooksAction`. */
  function GetUserNotebooksAction(session: Session, db: Db): Outcome<set<Row>> {
    if SignedInUser(session).None? then Reject(db, "Authentication required to view notebooks.")
    else
      var o := GetUserNotebooks(db, SignedInUser(session).value);
      if o.result.Success? then o else o.(result := Failure(OrElse(o.result.error, "Failed to fetch notebooks.")))
  }

  /** `getNotebookAction`: the notebook, only to its owner. */
  function GetNotebookAction(session: Session, notebookId: string, db: Db): Outcome<Row> {
    if SignedInUser(session).None? then Reject(db, "Authentication required to view notebook.")
    else if notebookId == [] then Reject(db, "Notebook ID is required.")
    else
      var g := GetNotebook(db, notebookId);
      if g.result.Failure? then Outcome(Failure(OrElse(g.result.error, "Notebook not found.")), db.rows, g.calls)
      else if g.result.value.None? then Outcome(Failure("Notebook not found."), db.rows, g.calls)
      else if g.result.value.value.userId != SignedInUser(session).value then
        Outcome(Failure("You are not authorized to view this notebook."), db.rows, g.calls)
      else Outcome(Success(g.result.value.value), db.rows, g.calls)
  }

  // ---------------------------------------------------------------------
  // Properties
  // ---------------------------------------------------------------------

  /** Without a signed-in user every action fails with its own message and calls nothing. */
  lemma NoSessionNoCalls(session: Session, notebookId: string, title: string, description: Value,
                         data: UpdateData, content: Value, db: Db, id: string, now: nat)
    requires session.NoSession? || session.userId == []
    ensures CreateNotebookAction(session, title, description, db, id, now)
            == Outcome(Failure("Authentication required to create a notebook."), db.rows, [])
    ensures UpdateNotebookAction(session, notebookId, data, db, now)
            == Outcome(Failure("Authentication required to update a notebook."), db.rows, [])
    ensures UpdateNotebookContentAction(session, notebookId, content, db, now)
            == Outcome(Failure("Authentication required to update notebook content."), db.rows, [])
    ensures GetUserNotebooksAction(session, db)
            == Outcome(Failure("Authentication required to view notebooks."), db.rows, [])
    ensures GetNotebookAction(session, notebookId, db)
            == Outcome(Failure("Authentication required to view notebook."), db.rows, [])
  {}

  /** With a signed-in user, an empty notebook id is refused with the action's message before any call. */
  lemma EmptyIdNoCalls(session: Session, data: UpdateData, content: Value, db: Db, now: nat)
    requires SignedInUser(session).Some?
    ensures UpdateNotebookAction(session, [], data, db, now)
            == Outcome(Failure("Notebook ID is required for update."), db.rows, [])
    ensures UpdateNotebookContentAction(session, [], content, db, now)
            == Outcome(Failure("Notebook ID is required for content update."), db.rows, [])
    ensures GetNotebookAction(session, [], db)
            == Outcome(Failure("Notebook ID is required."), db.rows, [])
  {}

  /** A notebook that is not stored is reported as not found after one lookup, and nothing changes. */
  lemma MissingNotebookNotFound(session: Session, notebookId: string, data: UpdateData, content: Value, db: Db, now: nat)
    requires SignedInUser(session).Some? && notebookId != [] && Query !in db.faults && notebookId !in db.rows
    ensures UpdateNotebookAction(session, notebookId, data, db, now)
            == Outcome(Failure("Notebook not found."), db.rows, [Query])
    ensures content.Str? ==>
              UpdateNotebookContentAction(session, notebookId, content, db, now)
              == Outcome(Failure("Notebook not found."), db.rows, [Query])
  {}

  /** A blank title is refused before the store is called; any other title reaches it. */
  lemma BlankTitleRejected(session: Session, title: string, description: Value, db: Db, id: string, now: nat)
    requires SignedInUser(session).Some?
    ensures var o := CreateNotebookAction(session, title, description, db, id, now);
            (Trim(title) == [] ==> o == Outcome(Failure("Notebook title cannot be empty."), db.rows, []))
            && (Trim(title) != [] ==> o.calls == [Insert])
  {}

  /** A created notebook belongs to the signed-in user and its id is returned. */
  lemma CreatedForSignedInUser(session: Session, title: string, description: Value, db: Db, id: string, now: nat)
    ensures var o := CreateNotebookAction(session, title, description, db, id, now);
            o.result.Success? ==>
              SignedInUser(session).Some? && Trim(title) != [] && o.result.value == id
              && id in o.rows && o.rows[id].userId == SignedInUser(session).value && o.rows[id].content == Str("")
  {
    var o := CreateNotebookAction(session, title, description, db, id, now);
    if o.result.Success? {
      CreateDefaults(db, SignedInUser(session).value, title, description, id, now);
    }
  }

  /** The store is written only for an existing notebook the signed-in user owns. */
  lemma UpdateOnlyByOwner(session: Session, notebookId: string, data: UpdateData, db: Db, now: nat)
    ensures var o := UpdateNotebookAction(session, notebookId, data, db, now);
            (Update in o.calls || o.result.Success?) ==>
              SignedInUser(session).Some? && notebookId != [] && notebookId in db.rows
              && db.rows[notebookId].userId == SignedInUser(session).value
    ensures var o := UpdateNotebookAction(session, notebookId, data, db, now);
            o.rows != db.rows ==> o.result.Success?
  {
    if SignedInUser(session).Some? && notebookId != [] {
      var user, msg := SignedInUser(session).value, "You are not authorized to update this notebook.";
      CheckOwnerCases(db, notebookId, user, msg);
      if CheckOwner(db, notebookId, user, msg).None? {
        UpdateWritesMerge(db, notebookId, data, now);
        var u := UpdateNotebook(db, notebookId, data, now);
        assert Update in [Query] + u.calls ==> Update in u.calls;
      }
    }
  }

  /** The ownership check lets through exactly the owner of an existing notebook, after one lookup. */
  lemma CheckOwnerCases(db: Db, notebookId: string, userId: string, unauthorized: string)
    ensures var c := CheckOwner(db, notebookId, userId, unauthorized);
            (c.None? <==> Query !in db.faults && notebookId in db.rows && db.rows[notebookId].userId == userId)
            && (c.Some? ==> c.value.result.Failure? && c.value.rows == db.rows && c.value.calls == [Query])
  {}

  /** With every check passed, the update stores exactly the merged fields. */
  lemma UpdateByOwnerStoresMerge(session: Session, notebookId: string, data: UpdateData, db: Db, now: nat)
    requires SignedInUser(session).Some? && notebookId != [] && db.faults == map[]
    requires notebookId in db.rows && db.rows[notebookId].userId == SignedInUser(session).value
    ensures UpdateNotebookAction(session, notebookId, data, db, now)
            == Outcome(Success(()), db.rows[notebookId := Apply(db.rows[notebookId], MergePayload(db.rows[notebookId], data, now))],
                       [Query, Query, Update])
  {}

  /** Another user's notebook is refused after one lookup, and nothing changes. */
  lemma UpdateOfOthersNotebookRefused(session: Session, notebookId: string, data: UpdateData, content: Value, db: Db, now: nat)
    requires SignedInUser(session).Some? && notebookId != [] && Query !in db.faults
    requires notebookId in db.rows && db.rows[notebookId].userId != SignedInUser(session).value
    ensures UpdateNotebookAction(session, notebookId, data, db, now)
            == Outcome(Failure("You are not authorized to update this notebook."), db.rows, [Query])
    ensures content.Str? ==>
              UpdateNotebookContentAction(session, notebookId, content, db, now)
              == Outcome(Failure("You are not authorized to update this notebook's content."), db.rows, [Query])
    ensures GetNotebookAction(session, notebookId, db)
            == Outcome(Failure("You are not authorized to view this notebook."), db.rows, [Query])
  {}

  /** Missing content is refused before any lookup; the empty string is stored. */
  lemma ContentMustBePresent(session: Session, notebookId: string, content: Value, db: Db, now: nat)
    requires SignedInUser(session).Some? && notebookId != []
    ensures !content.Str? ==>
              UpdateNotebookContentAction(session, notebookId, content, db, now)
              == Outcome(Failure("Content cannot be undefined or null."), db.rows, [])
    ensures content == Str("") && db.faults == map[] && notebookId in db.rows
            && db.rows[notebookId].userId == SignedInUser(session).value ==>
              var o := UpdateNotebookContentAction(session, notebookId, content, db, now);
              o.result.Success? && o.rows[notebookId].content == Str("") && o.calls == [Query, Update]
  {}

  /** A notebook is shown only to its owner; a missing one is reported as not found. */
  lemma ViewOnlyByOwner(session: Session, notebookId: string, db: Db)
    ensures var o := GetNotebookAction(session, notebookId, db);
            o.rows == db.rows
            && (o.result.Success? <==>
                  SignedInUser(session).Some? && notebookId != [] && Query !in db.faults && notebookId in db.rows
                  && db.rows[notebookId].userId == SignedInUser(session).value)
            && (o.result.Success? ==> o.result.value == db.rows[notebookId])
    ensures SignedInUser(session).Some? && notebookId != [] && Query !in db.faults && notebookId !in db.rows ==>
              GetNotebookAction(session, notebookId, db).result == Failure("Notebook not found.")
  {}

  /** The list holds exactly the signed-in user's notebooks. */
  lemma ListIsOwnNotebooks(session: Session, db: Db)
    requires SignedInUser(session).Some? && Query !in db.faults
    ensures var o := GetUserNotebooksAction(session, db);
            o.result.Success?
            && forall r :: r in o.result.value <==> r in db.rows.Values && r.userId == SignedInUser(session).value
  {}
}
