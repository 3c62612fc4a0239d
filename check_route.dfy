/**
 * The `PATCH` handler of src/app/api/todo/check/route.ts.
 *
 * The session provider and the document store are abstracted: the session
 * is an optional user id, the store a map from record id to record, and
 * whether the database connection comes up is a parameter.
 */
module CheckRoute {
  import opened Common
  import opened Validators

  type UserId = string
  type RecordId = string

  /** A stored task: its owner, its state and the fields the handler never touches. */
  datatype Record = Record(owner: UserId, state: TaskState, title: string, order: int)

  const OK := 200
  const Unauthorized := 401
  const NotFound := 404
  const ServerError := 500

  /** A checked task goes to review, an unchecked one back to in-progress. */
  function CheckedState(checked: bool): (s: TaskState)
    ensures checked <==> s == Review
    ensures !checked <==> s == InProgress
  {
    if checked then Review else InProgress
  }

  /** The record key a body id addresses, when it is one the store can hold. */
  function Key(id: Option<Json>): Option<RecordId>
  {
    match id
    case Some(JString(k)) => Some(k)
    case _ => None
  }

  /** `find({ _id: id, Owner: user })` returns a record. */
  predicate Owns(store: map<RecordId, Record>, user: UserId, id: Option<Json>)
  {
    Key(id).Some? && Key(id).value in store && store[Key(id).value].owner == user
  }

  /**
   * The handler's response and the store afterwards. `body` is None when
   * the request body is not JSON; `connected` is whether the database
   * connection comes up.
   */
  function Handle(session: Option<UserId>, body: Option<CheckBody>, connected: bool,
                  store: map<RecordId, Record>): (r: (int, map<RecordId, Record>))
    ensures r.0 in {OK, Unauthorized, NotFound, ServerError}
    ensures r.0 == Unauthorized <==> session.None?
    ensures r.0 == ServerError <==> session.Some? && (body.None? || ParseCheck(body.value).Invalid? || !connected)
    ensures r.0 == NotFound <==> session.Some? && body.Some? && ParseCheck(body.value).Valid? && connected &&
                                 !Owns(store, session.value, body.value.id)
    ensures r.0 != OK ==> r.1 == store
    ensures r.0 == OK ==>
      (&& session.Some? && body.Some? && ParseCheck(body.value).Valid?
       && Owns(store, session.value, body.value.id)
       && var k := Key(body.value.id).value;
          r.1 == store[k := store[k].(state := CheckedState(ParseCheck(body.value).value.checked))])
  {
    if session.None? then (Unauthorized, store)
    else if body.None? then (ServerError, store)
    else match ParseCheck(body.value)
      case Invalid => (ServerError, store)
      case Valid(req) =>
        if !connected then (ServerError, store)
        else if !Owns(store, session.value, req.id) then (NotFound, store)
        else
          var k := Key(req.id).value;
          (OK, store[k := store[k].(state := CheckedState(req.checked))])
  }

  /**
   * Only the state of the one addressed, owned record changes: every other
   * record, and every other field of that one, stays as it was.
   */
  lemma HandleFrame(session: Option<UserId>, body: Option<CheckBody>, connected: bool, store: map<RecordId, Record>)
    ensures var after := Handle(session, body, connected, store).1;
      && after.Keys == store.Keys
      && (forall k :: k in store ==> after[k].owner == store[k].owner && after[k].title == store[k].title && after[k].order == store[k].order)
      && (forall k :: k in store && after[k] != store[k] ==>
            session.Some? && body.Some? && Key(body.value.id) == Some(k) && store[k].owner == session.value)
  {
  }

  /** A record a user does not own is never changed by that user's request. */
  lemma ForeignRecordsUntouched(session: Option<UserId>, body: Option<CheckBody>, connected: bool,
                                store: map<RecordId, Record>, k: RecordId)
    requires k in store && (session.None? || store[k].owner != session.value)
    ensures Handle(session, body, connected, store).1[k] == store[k]
  {
    HandleFrame(session, body, connected, store);
  }

  /** Checking a record twice leaves it where checking it once did. */
  lemma HandleIdempotent(session: Option<UserId>, body: Option<CheckBody>, store: map<RecordId, Record>)
    ensures var once := Handle(session, body, true, store);
      Handle(session, body, true, once.1) == once
  {
    var once := Handle(session, body, true, store);
    if once.0 == OK {
      var k := Key(body.value.id).value;
      var s := CheckedState(ParseCheck(body.value).value.checked);
      assert Owns(once.1, session.value, body.value.id);
      assert once.1[k := once.1[k].(state := s)] == once.1;
    }
  }

  /** The store as the handler sees it. */
  class TodoStore {
    var records: map<RecordId, Record>

    constructor (records: map<RecordId, Record>)
      ensures this.records == records
    {
      this.records := records;
    }

    /** The handler, step by step: session, body, validation, connection, lookup, update. */
    method Patch(session: Option<UserId>, body: Option<CheckBody>, connected: bool) returns (status: int)
      modifies this
      ensures (status, records) == Handle(session, body, connected, old(records))
    {
      if session.None? {
        return Unauthorized;
      }
      if body.None? {
        return ServerError;
      }
      var parsed := ParseCheck(body.value);
      if parsed.Invalid? {
        return ServerError;
      }
      if !connected {
        return ServerError;
      }
      var id, checked := parsed.value.id, parsed.value.checked;
      if !Owns(records, session.value, id) {
        return NotFound;
      }
      var k := Key(id).value;
      records := records[k := records[k].(state := CheckedState(checked))];
      return OK;
    }
  }
}
