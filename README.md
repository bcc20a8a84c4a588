# first-api: a verified model of the user store and its handlers

The service keeps users (`firstName`, `lastName`, `biography`) in one in-memory
map from UUID to record, `Application.Data`, and serves five HTTP handlers over
it: create (`POST /api/users`), delete, update and get by id
(`/api/user/{id}`), and list (`GET /api/users`). Each handler validates its
input, reads or changes the map, and answers with a status code and a
`{error, data}` envelope.

The model:

- `uuids.dfy` (module `Uuids`): a UUID is sixteen bytes. Its text form, used
  for the `id` of each listed item, is the canonical form of section 3 of
  RFC 4122 in lower-case hex. The module proves that this form has the expected
  layout and is injective, by decoding it back.
- `api.dfy` (module `Api`): the records, the envelope and the handlers.
  - The envelope's `data` field is a tagged union, `Payload`, in place of
    Go's `any`. An absent `error` stands for Go's omitted empty string.
  - Each handler is a pure function of the store and its decoded inputs:
    `HandleInsert`, `HandleDelete`, `HandleUpdate` and `FindById`. Each
    function's contract states the status, the envelope and the store afterwards.
  - The class `Application` has the map as its field. Its `Insert`, `Delete`
    and `Update` methods change the map in place and are proved to agree with
    the functions. `FindAll` builds the listing with a loop over the map's
    keys, taken in an unspecified order. It is proved to return a permutation
    of the entries, one item per entry.
- `sessions.dfy` (module `Sessions`): requests served one after another.
  - After a session in which every insert gets a fresh id, the store's size is
    its starting size, plus the inserts answered 201, minus the deletes
    answered 204.
  - The module also contains the service's walk-through: create, read,
    replace, read, delete, read, and a bad id.
- `wrappers.dfy`: the `Option` datatype.

The inputs the handlers get from libraries are parameters:

- The decoded JSON body is an `Option<User>`; `None` means decoding failed.
- The result of `uuid.Parse` on the path parameter is an `Option<Uuid>`.
- The id `uuid.New()` generates is the caller's `newId`.

The code does not check for id collisions. `HandleInsert` therefore has no
freshness precondition and, like the Go map assignment, overwrites on a
collision. Its promise that the store grows by exactly one entry is
conditional on `newId` being fresh.

The model keeps these behaviours of the code, which a client might not expect:

- Listing answers 201, not 200.
- A listing of an empty store is a nil Go slice. It is encoded as
  `"data": null`, not as an empty list. The model's `ItemsData([])` stands
  for it.
- A 204 envelope carries neither `error` nor `data`. It is not true that
  exactly one of them is always present.
- Update checks the body before the id.

## Model

| member | source | states |
|---|---|---|
| `Uuids.Hex` | api/api.go:124 | the hex form of a byte string has two characters per byte, all lower-case hex digits |
| `Uuids.UnHexHex` | api/api.go:124 | reading the hex form back yields the original bytes |
| `Uuids.UuidString` | api/api.go:124 | `id.String()` is 36 characters: dashes at positions 8, 13, 18 and 23, lower-case hex digits everywhere else |
| `Uuids.CanonicalBytesOfString` | api/api.go:124 | the sixteen bytes can be recovered from the text form |
| `Uuids.UuidStringInjective` | api/api.go:122-124 | distinct ids have distinct text forms, so listed ids never collide |
| `Api.HandleInsert` | api/api.go:40-54 | an undecodable body gives 422 "invalid body" and leaves the store unchanged; otherwise 201 with `data` = the new id; the new id maps to the body, the key set gains exactly that id (size +1 when fresh), other entries are unchanged; the envelope is well formed |
| `Api.HandleDelete` | api/api.go:55-76 | an unparsable id gives 422 "invalid Param"; an absent id gives 404 with data "user not found"; for both the store is unchanged; a present id gives 204 with an empty envelope, only that key is removed (size -1), and every remaining value is unchanged; the store changes exactly when the answer is 204 |
| `Api.HandleUpdate` | api/api.go:77-109 | the body is checked first: an undecodable body gives 422 "invalid body" whatever the id; then an unparsable id gives 422 "invalid Param"; an absent id gives 404 and creates no entry; a present id gives 204, and the entry becomes exactly the body; the key set and size never change; other entries are unchanged |
| `Api.FindById` | api/api.go:135-155 | 422 "invalid Param" for an unparsable id; 200 exactly when the id is present, and then `data` is the stored user; otherwise 404 "user not found" |
| `Api.ListedOnce` | api/api.go:121-129 | in a listing with distinct ids, every element occurs at most once |
| `Api.ListingsAgree` | api/api.go:121-131 | any two listings of the same store are permutations of each other (the order is unspecified, the contents are not) |
| `Api.ListedExactlyEntries` | api/api.go:121-129 | an item is in a listing exactly when it is built from some store entry |
| `Api.ListingAgreesWithFindById` | api/api.go:122-153 | each listed item carries the text id of a key whose lookup returns 200 with that item's three fields |
| `Api.KeyedListingListsStore` | api/api.go:121-129 | visiting each key once and appending its item yields a listing of the store |
| `Api.InsertThenFindById` | api/api.go:48-52 | immediately after inserting a body, looking up the new id returns 200 with that body |
| `Api.DeleteThenFindById` | api/api.go:66-74 | after a successful delete, looking up the id returns 404 "user not found" |
| `Api.UpdateThenFindById` | api/api.go:101-107 | after updating a present id, looking it up returns exactly the three fields of the body |
| `Api.UpdateIgnoresOldValue` | api/api.go:101-105 | the stored value before an update has no influence on the store after it: the update replaces the record and does not merge |
| `Api.Application.constructor` | main.go:22-24 | the server starts with an empty store |
| `Api.Application.Insert` | api/api.go:40-54 | status, envelope and the new `data` are those of `HandleInsert` on the old `data` |
| `Api.Application.Delete` | api/api.go:55-76 | status, envelope and the new `data` are those of `HandleDelete` on the old `data` |
| `Api.Application.Update` | api/api.go:77-109 | status, envelope and the new `data` are those of `HandleUpdate` on the old `data` |
| `Api.Application.FindAll` | api/api.go:118-133 | always 201 without error; `data` is a listing with one item per entry, carrying that entry's text id and three fields, no id twice, length equal to the store's size |
| `Sessions.Serve` | api/api.go:31-35 | read-only requests (list, get by id) leave the store unchanged; list always answers 201; a 422 or 404 answer never changes the store |
| `Sessions.Run` | api/api.go:31-35 | a session answers each of its requests with exactly one status |
| `Sessions.RunSize` | api/api.go:48-74 | with fresh insert ids, final size + removed = initial size + created, counting 201 inserts and 204 deletes |
| `Sessions.SessionSize` | api/api.go:48-74 | the store holds as many entries as it started with, plus successful inserts, minus successful deletes |
| `Sessions.ExampleSession` | api/api.go:40-155 | create → 201 with the id; read → 200 with the record; replace → 204; read → 200 with the new record; delete → 204; read → 404; bad id → 422; and the store ends as it began |

## Left out

- Routing and middleware (`NewHandler`: chi's mux, `Recoverer`, `RequestID`, `Logger`) are library wiring. Only the route-to-handler dispatch is kept, as `Sessions.Serve`.
- `sendJSON`: JSON marshalling, the `Content-Type` header, the write, its logging, and the 500 "something went wrong" fallback when marshalling fails. All of these are calls into `encoding/json` and `net/http`. The model stops at the status and the envelope value.
- The write of `{}` that `sendJSON` attempts after a 204 status. HTTP forbids a body with 204, so `net/http` refuses the write and the code logs an error. This is transport behaviour and is not modelled.
- JSON decoding of the request body (unknown fields ignored, missing fields left empty, trailing input unread) is not modelled. It is an `Option<User>` input.
- `uuid.Parse` (the text forms it accepts) and `uuid.New` (version-4 random generation) are not modelled. They come from github.com/google/uuid, which is not part of this model, and are inputs here. The text form `id.String()` is taken to be the lower-case canonical form of section 3 of RFC 4122.
- Concurrency: the map is shared between concurrent requests with no lock. The model serves one request at a time.
- main.go's server set-up (port 8080, read/write/idle timeouts, `ListenAndServe`) is I/O only. Only the creation of the empty store is modelled, as `Api.Application.constructor`.
- The Go distinction between a nil slice and an empty slice in the listing is not modelled. Both are `ItemsData([])`.
