/**
  The request handlers of api/api.go over the in-memory store
  `Application.Data : map[uuid.UUID]User`.

  Each handler is given as a pure function of the store and the decoded
  inputs (`HandleInsert`, `HandleDelete`, `HandleUpdate`, `FindById`) that
  yields the status code, the response envelope and the store afterwards;
  the class `Application` holds the store as a field and performs the same
  steps in place, each method proved to agree with its function.
  JSON decoding of the body and `uuid.Parse` of the path parameter arrive
  already done, as `Option` values; `uuid.New()` is the caller's `newId`.
*/
module Api {

  import opened Wrappers
  import opened Uuids

  /** The stored record; it carries no identity of its own. */
  datatype User = User(firstName: string, lastName: string, biography: string)

  type Store = map<Uuid, User>

  /** One element of the listing: the entry's id in text form and its three fields. */
  datatype Items = Items(id: string, firstName: string, lastName: string, biography: string)

  /** What the envelope's `data` field carries (Go's `any`). */
  datatype Payload =
    | NoData
    | IdData(id: Uuid)
    | UserData(user: User)
    | ItemsData(items: seq<Items>)
    | MessageData(message: string)

  /** The envelope `{error, data}`; an absent error is Go's omitted empty string. */
  datatype Response = Response(error: Option<string>, data: Payload)

  /** Status and envelope of a handler that only reads the store. */
  datatype Reply = Reply(status: int, resp: Response)

  /** Status, envelope and the store after a handler that may change it. */
  datatype Handled = Handled(status: int, resp: Response, store: Store)

  const StatusOK := 200
  const StatusCreated := 201
  const StatusNoContent := 204
  const StatusNotFound := 404
  const StatusUnprocessableEntity := 422

  const InvalidBody := "invalid body"
  const InvalidParam := "invalid Param"
  const UserNotFound := "user not found"

  function ErrorResponse(message: string): Response {
    Response(Some(message), NoData)
  }

  const NotFoundResponse := Response(None, MessageData(UserNotFound))
  const EmptyResponse := Response(None, NoData)

  /**
    The envelope discipline every handler keeps: an error is present exactly on
    422 and then nothing else is; 404 carries exactly the not-found message in
    `data`; 204 comes with an empty envelope and nothing else does.
  */
  predicate WellFormed(status: int, resp: Response) {
    && (resp.error.Some? <==> status == StatusUnprocessableEntity)
    && (resp.error.Some? ==> resp.data == NoData)
    && (status == StatusNotFound <==> resp == NotFoundResponse)
    && (status == StatusNoContent <==> resp == EmptyResponse)
  }

  /** The handler of `POST /api/users`. */
  function HandleInsert(db: Store, body: Option<User>, newId: Uuid): (r: Handled)
    ensures WellFormed(r.status, r.resp)
    ensures body.None? ==> r == Handled(StatusUnprocessableEntity, ErrorResponse(InvalidBody), db)
    ensures body.Some? ==> r.status == StatusCreated && r.resp.data == IdData(newId)
    ensures body.Some? ==> r.store.Keys == db.Keys + {newId} && r.store[newId] == body.value
    ensures body.Some? && newId !in db ==> |r.store| == |db| + 1
    ensures forall k :: k in db && k != newId ==> k in r.store && r.store[k] == db[k]
  {
    match body
    case None => Handled(StatusUnprocessableEntity, ErrorResponse(InvalidBody), db)
    case Some(user) => Handled(StatusCreated, Response(None, IdData(newId)), db[newId := user])
  }

  /** The handler of `DELETE /api/user/{id}`. */
  function HandleDelete(db: Store, id: Option<Uuid>): (r: Handled)
    ensures WellFormed(r.status, r.resp)
    ensures id.None? ==> r == Handled(StatusUnprocessableEntity, ErrorResponse(InvalidParam), db)
    ensures id.Some? && id.value !in db ==> r == Handled(StatusNotFound, NotFoundResponse, db)
    ensures id.Some? && id.value in db ==>
      r.status == StatusNoContent && r.store.Keys == db.Keys - {id.value} && |r.store| == |db| - 1
    ensures forall k :: k in r.store ==> k in db && r.store[k] == db[k]
    ensures r.store != db <==> r.status == StatusNoContent
  {
    match id
    case None => Handled(StatusUnprocessableEntity, ErrorResponse(InvalidParam), db)
    case Some(key) =>
      if key !in db then Handled(StatusNotFound, NotFoundResponse, db)
      else Handled(StatusNoContent, EmptyResponse, db - {key})
  }

  /** The handler of `PUT /api/user/{id}`: the body is checked before the id. */
  function HandleUpdate(db: Store, body: Option<User>, id: Option<Uuid>): (r: Handled)
    ensures WellFormed(r.status, r.resp)
    ensures body.None? ==> r == Handled(StatusUnprocessableEntity, ErrorResponse(InvalidBody), db)
    ensures body.Some? && id.None? ==> r == Handled(StatusUnprocessableEntity, ErrorResponse(InvalidParam), db)
    ensures body.Some? && id.Some? && id.value !in db ==> r == Handled(StatusNotFound, NotFoundResponse, db)
    ensures body.Some? && id.Some? && id.value in db ==>
      r.status == StatusNoContent && id.value in r.store && r.store[id.value] == body.value
    ensures r.store.Keys == db.Keys && |r.store| == |db|
    ensures forall k :: k in db && id != Some(k) ==> r.store[k] == db[k]
  {
    match body
    case None => Handled(StatusUnprocessableEntity, ErrorResponse(InvalidBody), db)
    case Some(user) =>
      match id
      case None => Handled(StatusUnprocessableEntity, ErrorResponse(InvalidParam), db)
      case Some(key) =>
        if key !in db then Handled(StatusNotFound, NotFoundResponse, db)
        else
          var replacement := User(user.firstName, user.lastName, user.biography);
          assert db.Keys == db[key := replacement].Keys;
          Handled(StatusNoContent, EmptyResponse, db[key := replacement])
  }

  /** The handler of `GET /api/user/{id}`: a lookup that leaves the store alone. */
  function FindById(db: Store, id: Option<Uuid>): (r: Reply)
    ensures WellFormed(r.status, r.resp)
    ensures id.None? ==> r == Reply(StatusUnprocessableEntity, ErrorResponse(InvalidParam))
    ensures r.status == StatusOK <==> id.Some? && id.value in db
    ensures r.status == StatusOK ==> r.resp == Response(None, UserData(db[id.value]))
    ensures id.Some? && id.value !in db ==> r == Reply(StatusNotFound, NotFoundResponse)
  {
    match id
    case None => Reply(StatusUnprocessableEntity, ErrorResponse(InvalidParam))
    case Some(key) =>
      if key !in db then Reply(StatusNotFound, NotFoundResponse)
      else Reply(StatusOK, Response(None, UserData(db[key])))
  }

  /** The listing element built for one store entry. */
  function ItemOf(id: Uuid, user: User): Items {
    Items(UuidString(id), user.firstName, user.lastName, user.biography)
  }

  /**
    `items` lists the store: one element per entry, carrying that entry's id and
    fields, no two with the same id, in no particular order.
  */
  ghost predicate ListsStore(items: seq<Items>, db: Store) {
    && |items| == |db|
    && (set x | x in items) == EntryItems(db)
    && (forall i, j :: 0 <= i < j < |items| ==> items[i].id != items[j].id)
  }

  /** The items built from the store's entries. */
  ghost function EntryItems(db: Store): set<Items> {
    set k | k in db :: ItemOf(k, db[k])
  }

  /** In a listing without repeated ids, every element occurs at most once. */
  lemma {:induction false} ListedOnce(items: seq<Items>, x: Items)
    requires forall i, j :: 0 <= i < j < |items| ==> items[i].id != items[j].id
    ensures multiset(items)[x] == if x in items then 1 else 0
  {
    if items != [] {
      assert items == [items[0]] + items[1..];
      ListedOnce(items[1..], x);
      if x == items[0] {
        assert x !in items[1..] by {
          forall j | 0 <= j < |items[1..]| ensures items[1..][j] != x {
            assert items[1..][j] == items[j + 1];
          }
        }
      }
    }
  }

  /**
    The order of the listing is unspecified, but its contents are not: any two
    listings of the same store are permutations of each other.
  */
  lemma ListingsAgree(a: seq<Items>, b: seq<Items>, db: Store)
    requires ListsStore(a, db) && ListsStore(b, db)
    ensures multiset(a) == multiset(b)
  {
    forall x ensures multiset(a)[x] == multiset(b)[x] {
      ListedAsOften(a, b, db, x);
    }
  }

  lemma ListedAsOften(a: seq<Items>, b: seq<Items>, db: Store, x: Items)
    requires ListsStore(a, db) && ListsStore(b, db)
    ensures multiset(a)[x] == multiset(b)[x]
  {
    ListedOnce(a, x);
    ListedOnce(b, x);
    ListedExactlyEntries(a, db, x);
    ListedExactlyEntries(b, db, x);
  }

  /** The elements of a listing are exactly the items of the store's entries. */
  lemma ListedExactlyEntries(items: seq<Items>, db: Store, x: Items)
    requires ListsStore(items, db)
    ensures x in items <==> exists k :: k in db && x == ItemOf(k, db[k])
  {
    var S := set y | y in items;
    assert S == EntryItems(db);
    if x in items {
      assert x in S;
      assert x in EntryItems(db);
    }
    forall k | k in db && x == ItemOf(k, db[k]) ensures x in items {
      assert x in EntryItems(db);
      assert x in S;
    }
  }

  /** Every listed element is what looking up its own id returns. */
  lemma ListingAgreesWithFindById(items: seq<Items>, db: Store, i: nat)
    requires ListsStore(items, db) && i < |items|
    ensures exists k :: UuidString(k) == items[i].id && FindById(db, Some(k)) == ListedReply(items[i])
  {
    var x := items[i];
    ListedExactlyEntries(items, db, x);
    var k :| k in db && x == ItemOf(k, db[k]);
    LookupOfItem(db, k);
  }

  lemma LookupOfItem(db: Store, k: Uuid)
    requires k in db
    ensures FindById(db, Some(k)) == ListedReply(ItemOf(k, db[k]))
  {
  }

  /** The reply a lookup gives for the entry a listing element was built from. */
  function ListedReply(item: Items): Reply {
    Reply(StatusOK, Response(None, UserData(User(item.firstName, item.lastName, item.biography))))
  }

  /** Inserting a decodable body makes it retrievable under the new id at once. */
  lemma InsertThenFindById(db: Store, user: User, newId: Uuid)
    ensures FindById(HandleInsert(db, Some(user), newId).store, Some(newId))
         == Reply(StatusOK, Response(None, UserData(user)))
  {
  }

  /** After a successful delete the id is no longer found. */
  lemma DeleteThenFindById(db: Store, id: Uuid)
    requires HandleDelete(db, Some(id)).status == StatusNoContent
    ensures FindById(HandleDelete(db, Some(id)).store, Some(id)) == Reply(StatusNotFound, NotFoundResponse)
  {
  }

  /** After a successful update the id yields exactly the three fields of the body. */
  lemma UpdateThenFindById(db: Store, user: User, id: Uuid)
    requires id in db
    ensures FindById(HandleUpdate(db, Some(user), Some(id)).store, Some(id))
         == Reply(StatusOK, Response(None, UserData(user)))
  {
  }

  /** An update overwrites the whole record: what was stored before leaves no trace. */
  lemma UpdateIgnoresOldValue(db: Store, id: Uuid, before1: User, before2: User, body: User)
    ensures HandleUpdate(db[id := before1], Some(body), Some(id)).store
         == HandleUpdate(db[id := before2], Some(body), Some(id)).store
  {
  }

  /** The listing elements for the given keys of the store, in that order. */
  function ItemsFor(keys: seq<Uuid>, db: Store): (items: seq<Items>)
    requires forall i :: 0 <= i < |keys| ==> keys[i] in db
    ensures |items| == |keys|
  {
    if keys == [] then []
    else ItemsFor(keys[..|keys| - 1], db) + [ItemOf(keys[|keys| - 1], db[keys[|keys| - 1]])]
  }

  lemma {:induction false} ItemsForAt(keys: seq<Uuid>, db: Store, i: nat)
    requires forall j :: 0 <= j < |keys| ==> keys[j] in db
    requires i < |keys|
    ensures ItemsFor(keys, db)[i] == ItemOf(keys[i], db[keys[i]])
  {
    var visited := keys[..|keys| - 1];
    if i < |visited| {
      ItemsForAt(visited, db, i);
      assert visited[i] == keys[i];
    }
  }

  /**
    Part way through a visit of the store's keys: `keys` were visited, once each
    and in that order, and `pending` holds the rest.
  */
  ghost predicate Visited(db: Store, pending: set<Uuid>, keys: seq<Uuid>) {
    && pending <= db.Keys
    && |keys| + |pending| == |db.Keys|
    && (forall i :: 0 <= i < |keys| ==> keys[i] in db && keys[i] !in pending)
    && (forall i, j :: 0 <= i < j < |keys| ==> keys[i] != keys[j])
    && (forall k :: k in db && k !in pending ==> k in keys)
  }

  /** Visiting one more pending key keeps the visit consistent and extends the listing by its item. */
  lemma VisitStep(db: Store, pending: set<Uuid>, keys: seq<Uuid>, id: Uuid)
    requires Visited(db, pending, keys) && id in pending
    ensures Visited(db, pending - {id}, keys + [id])
    ensures ItemsFor(keys + [id], db) == ItemsFor(keys, db) + [ItemOf(id, db[id])]
  {
    assert (keys + [id])[..|keys|] == keys;
  }

  /**
    A listing built by visiting every key of the store once, in some order
    `keys`, lists the store.
  */
  lemma KeyedListingListsStore(items: seq<Items>, keys: seq<Uuid>, db: Store)
    requires |items| == |keys| == |db.Keys|
    requires forall i :: 0 <= i < |keys| ==> keys[i] in db && items[i] == ItemOf(keys[i], db[keys[i]])
    requires forall i, j :: 0 <= i < j < |keys| ==> keys[i] != keys[j]
    requires forall k :: k in db ==> k in keys
    ensures ListsStore(items, db)
  {
    KeyedItemsAreEntries(items, keys, db);
    EntriesAreKeyedItems(items, keys, db);
    KeyedItemsHaveDistinctIds(items, keys, db);
  }

  lemma KeyedItemsAreEntries(items: seq<Items>, keys: seq<Uuid>, db: Store)
    requires |items| == |keys|
    requires forall i :: 0 <= i < |keys| ==> keys[i] in db && items[i] == ItemOf(keys[i], db[keys[i]])
    ensures (set x | x in items) <= EntryItems(db)
  {
    forall x | x in items ensures x in EntryItems(db) {
      var i :| 0 <= i < |items| && items[i] == x;
      assert keys[i] in db && x == ItemOf(keys[i], db[keys[i]]);
    }
  }

  lemma EntriesAreKeyedItems(items: seq<Items>, keys: seq<Uuid>, db: Store)
    requires |items| == |keys|
    requires forall i :: 0 <= i < |keys| ==> keys[i] in db && items[i] == ItemOf(keys[i], db[keys[i]])
    requires forall k :: k in db ==> k in keys
    ensures EntryItems(db) <= (set x | x in items)
  {
    forall x | x in EntryItems(db) ensures x in items {
      var k :| k in db && x == ItemOf(k, db[k]);
      var i :| 0 <= i < |keys| && keys[i] == k;
      assert items[i] == x;
    }
  }

  lemma KeyedItemsHaveDistinctIds(items: seq<Items>, keys: seq<Uuid>, db: Store)
    requires |items| == |keys|
    requires forall i :: 0 <= i < |keys| ==> keys[i] in db && items[i] == ItemOf(keys[i], db[keys[i]])
    requires forall i, j :: 0 <= i < j < |keys| ==> keys[i] != keys[j]
    ensures forall i, j :: 0 <= i < j < |items| ==> items[i].id != items[j].id
  {
    forall i, j | 0 <= i < j < |items| ensures items[i].id != items[j].id {
      UuidStringInjective(keys[i], keys[j]);
    }
  }

  class Application {

    var data: Store

    /** The empty store the server starts with. */
    constructor ()
      ensures data == map[]
    {
      data := map[];
    }

    method Insert(body: Option<User>, newId: Uuid) returns (status: int, resp: Response)
      modifies this
      ensures Handled(status, resp, data) == HandleInsert(old(data), body, newId)
    {
      if body.None? {
        status, resp := StatusUnprocessableEntity, ErrorResponse(InvalidBody);
        return;
      }
      data := data[newId := body.value];
      status, resp := StatusCreated, Response(None, IdData(newId));
    }

    method Delete(id: Option<Uuid>) returns (status: int, resp: Response)
      modifies this
      ensures Handled(status, resp, data) == HandleDelete(old(data), id)
    {
      if id.None? {
        status, resp := StatusUnprocessableEntity, ErrorResponse(InvalidParam);
        return;
      }
      var key := id.value;
      if key !in data {
        status, resp := StatusNotFound, NotFoundResponse;
        return;
      }
      data := data - {key};
      status, resp := StatusNoContent, EmptyResponse;
    }

    method Update(body: Option<User>, id: Option<Uuid>) returns (status: int, resp: Response)
      modifies this
      ensures Handled(status, resp, data) == HandleUpdate(old(data), body, id)
    {
      if body.None? {
        status, resp := StatusUnprocessableEntity, ErrorResponse(InvalidBody);
        return;
      }
      if id.None? {
        status, resp := StatusUnprocessableEntity, ErrorResponse(InvalidParam);
        return;
      }
      var key := id.value;
      if key !in data {
        status, resp := StatusNotFound, NotFoundResponse;
        return;
      }
      var user := body.value;
      data := data[key := User(user.firstName, user.lastName, user.biography)];
      status, resp := StatusNoContent, EmptyResponse;
    }

    /** The handler of `GET /api/users`: collects every entry, in whatever order the map yields them. */
    method FindAll() returns (status: int, resp: Response)
      ensures status == StatusCreated && resp.error == None
      ensures resp.data.ItemsData? && ListsStore(resp.data.items, data)
    {
      var entries := data;
      var allData: seq<Items> := [];
      ghost var keys: seq<Uuid> := [];
      var pending := entries.Keys;
      while pending != {}
        invariant Visited(entries, pending, keys) && allData == ItemsFor(keys, entries)
        decreases pending
      {
        var id :| id in pending;
        var user := entries[id];
        VisitStep(entries, pending, keys, id);
        allData := allData + [ItemOf(id, user)];
        keys := keys + [id];
        pending := pending - {id};
      }
      forall i | 0 <= i < |keys| ensures allData[i] == ItemOf(keys[i], entries[keys[i]]) {
        ItemsForAt(keys, entries, i);
      }
      KeyedListingListsStore(allData, keys, entries);
      status, resp := StatusCreated, Response(None, ItemsData(allData));
    }
  }

}
