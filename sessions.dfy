/**
  Sequences of requests served one after another against one store, as the
  server does when requests do not overlap. The store's size after a session
  is its size before, plus the inserts that answered 201, minus the deletes
  that answered 204, provided every id handed to a successful insert is fresh.
*/
module Sessions {

  import opened Wrappers
  import opened Uuids
  import opened Api

  datatype Request =
    | InsertRequest(body: Option<User>, newId: Uuid)
    | DeleteRequest(id: Option<Uuid>)
    | UpdateRequest(body: Option<User>, id: Option<Uuid>)
    | FindAllRequest
    | FindByIdRequest(id: Option<Uuid>)

  /** The status a request is answered with and the store it leaves behind. */
  function Serve(db: Store, req: Request): (r: (int, Store))
    ensures req.FindAllRequest? || req.FindByIdRequest? ==> r.1 == db
    ensures req.FindAllRequest? ==> r.0 == StatusCreated
    ensures r.0 == StatusUnprocessableEntity ==> r.1 == db
    ensures r.0 == StatusNotFound ==> r.1 == db
  {
    match req
    case InsertRequest(body, newId) =>
      var h := HandleInsert(db, body, newId); (h.status, h.store)
    case DeleteRequest(id) =>
      var h := HandleDelete(db, id); (h.status, h.store)
    case UpdateRequest(body, id) =>
      var h := HandleUpdate(db, body, id); (h.status, h.store)
    case FindAllRequest => (StatusCreated, db)
    case FindByIdRequest(id) => (FindById(db, id).status, db)
  }

  datatype Session = Session(statuses: seq<int>, final: Store)

  /** Serves the requests in order, each against the store the previous one left. */
  function Run(db: Store, reqs: seq<Request>): (s: Session)
    ensures |s.statuses| == |reqs|
    decreases |reqs|
  {
    if reqs == [] then Session([], db)
    else
      var (status, next) := Serve(db, reqs[0]);
      var rest := Run(next, reqs[1..]);
      Session([status] + rest.statuses, rest.final)
  }

  /** How many requests are inserts answered 201. */
  function Created(reqs: seq<Request>, statuses: seq<int>): nat
    requires |statuses| == |reqs|
    decreases |reqs|
  {
    if reqs == [] then 0
    else (if reqs[0].InsertRequest? && statuses[0] == StatusCreated then 1 else 0)
         + Created(reqs[1..], statuses[1..])
  }

  /** How many requests are deletes answered 204. */
  function Removed(reqs: seq<Request>, statuses: seq<int>): nat
    requires |statuses| == |reqs|
    decreases |reqs|
  {
    if reqs == [] then 0
    else (if reqs[0].DeleteRequest? && statuses[0] == StatusNoContent then 1 else 0)
         + Removed(reqs[1..], statuses[1..])
  }

  /**
    Every insert with a decodable body is handed an id outside `used` and
    different from the ids handed to the inserts before it: what `uuid.New()`
    is relied on to deliver.
  */
  ghost predicate FreshIds(used: set<Uuid>, reqs: seq<Request>)
    decreases |reqs|
  {
    reqs == [] ||
    match reqs[0]
    case InsertRequest(Some(_), newId) => newId !in used && FreshIds(used + {newId}, reqs[1..])
    case _ => FreshIds(used, reqs[1..])
  }

  lemma {:induction false} RunSize(db: Store, used: set<Uuid>, reqs: seq<Request>)
    requires db.Keys <= used && FreshIds(used, reqs)
    ensures |Run(db, reqs).final| + Removed(reqs, Run(db, reqs).statuses)
         == |db| + Created(reqs, Run(db, reqs).statuses)
    decreases |reqs|
  {
    if reqs != [] {
      var (status, next) := Serve(db, reqs[0]);
      var rest := Run(next, reqs[1..]);
      var s := Run(db, reqs);
      assert s.statuses[1..] == rest.statuses;
      assert s.statuses[0] == status;
      match reqs[0]
      case InsertRequest(body, newId) =>
        if body.Some? {
          RunSize(next, used + {newId}, reqs[1..]);
        } else {
          RunSize(next, used, reqs[1..]);
        }
      case _ =>
        assert next.Keys <= db.Keys;
        RunSize(next, used, reqs[1..]);
    }
  }

  /** The size of the store after a session with fresh ids, starting from any store. */
  lemma SessionSize(db: Store, reqs: seq<Request>)
    requires FreshIds(db.Keys, reqs)
    ensures |Run(db, reqs).final| == |db| + Created(reqs, Run(db, reqs).statuses) - Removed(reqs, Run(db, reqs).statuses)
  {
    RunSize(db, db.Keys, reqs);
  }

  /**
    The walk-through of the service: create a user, read it, replace the
    record, read it again, delete it, read it once more, then ask with an id
    that did not parse. The store ends as it began.
  */
  lemma ExampleSession(db: Store, u1: Uuid, first: User, second: User)
    requires u1 !in db
    ensures
      var created := HandleInsert(db, Some(first), u1);
      var updated := HandleUpdate(created.store, Some(second), Some(u1));
      var deleted := HandleDelete(updated.store, Some(u1));
      && created.status == StatusCreated && created.resp == Response(None, IdData(u1))
      && FindById(created.store, Some(u1)) == Reply(StatusOK, Response(None, UserData(first)))
      && updated.status == StatusNoContent
      && FindById(updated.store, Some(u1)) == Reply(StatusOK, Response(None, UserData(second)))
      && deleted.status == StatusNoContent
      && FindById(deleted.store, Some(u1)) == Reply(StatusNotFound, NotFoundResponse)
      && FindById(deleted.store, None) == Reply(StatusUnprocessableEntity, ErrorResponse(InvalidParam))
      && deleted.store == db
  {
    var created := HandleInsert(db, Some(first), u1);
    var updated := HandleUpdate(created.store, Some(second), Some(u1));
    assert updated.store == db[u1 := second];
    assert updated.store - {u1} == db;
  }

}
