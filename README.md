# Academy gRPC backend: request validation, query construction and record mapping

This project models the layer of the academy management gRPC server that sits between an incoming call and the document store:

- the role check a handler runs against the call context (`AuthorizeUser`);
- the teacher handlers: `AddTeachers`, `GetTeachers`, `buildFilterForTeacher` and `buildSortOptions`;
- the exec handlers: `AddExecs`, `GetExecs`, `UpdateExecs` and `DeleteExecs`;
- the teacher repository functions: `AddTeachersToDb`, `GetTeachersFromDb` and the two reflective mappers.

The store is an oracle: a function passed in as a parameter whose answer is whatever the store would say.

Go reflection is replaced by an explicit field table:

- A struct type is a `Schema`: its fields in declaration order, each with a name and a `bson` tag.
- A struct value is a `Record`: one string per field, with `""` as Go's zero string.
- The wire teacher record is fixed. Its fields are Id, FirstName, LastName, Email, Class and Subject.
- The stored teacher struct (`models.Teacher`) is not part of this model. Its field table is a parameter, `model`. It must have unique field names and a field for every wire field name.

Modules:

| file | module | models |
|---|---|---|
| wrappers.dfy | Wrappers | `Option`, and `Result` with a string error (Go's `error`) |
| object_ids.dfy | ObjectIds | the 12-byte document identifier, its hex parse and its hex format |
| bson.dfy | Bson | filters (`bson.M`), sort options (`bson.D`), stored documents |
| fields.dfy | Fields | field tables, `FieldByName`, and the copy loop behind both teacher mappers |
| authorization.dfy | Authorization | pkg/utils/authorize_user.go |
| teachers_crud.dfy | TeachersCrud | internals/repositories/mongodb/teachers_crud.go |
| responses.dfy | Responses | gRPC status codes and the shared store-error mapping |
| teacher_handlers.dfy | TeacherHandlers | internals/api/handlers/teachers.go |
| exec_handlers.dfy | ExecHandlers | internals/api/handlers/execs.go |

Code that changes state step by step is written as methods with loops:

- the mappers;
- the two loops of `AddTeachersToDb`, including its `newTeachers` array;
- the cursor loop of `GetTeachersFromDb`;
- the two loops of `buildFilterForTeacher`;
- `buildSortOptions`;
- the validation loop of `AddTeachers`;
- the id loop of `DeleteExecs`.

Each of these methods is proved equal to a reference function. Lemmas then state what the source promises about that function. `AuthorizeUser`, `AddExecs` and `UpdateExecs` are straight-line code or read-only early-return loops, so they are functions.

"The store is not reached" is stated in two ways. First, ghost out-parameters: in `AddTeachersToDb` and `AddTeachers`, `sent` holds the documents handed to `InsertOne`; in `GetTeachers` and `GetExecs`, `queried` says whether the handler called the store layer (`GetTeachersFromDb` or `GetExecsFromDb`). These flags are set by the methods themselves at the point of the call, not by the oracles. Second, and independently of the flags, the `ensures` clauses state that when validation fails the result does not depend on the store oracle at all: it is the bad-argument error alone (`AddExecsRefusesBeforeStore` states this for two arbitrary stores).

## Model

| member | source | states |
|---|---|---|
| Authorization.RoleIsStoredString | pkg/utils/authorize_user.go:11 | storing a string under `ContextKey("role")` makes it the role; a value of another type there, or no value, gives no role |
| Authorization.AuthorizeUser | pkg/utils/authorize_user.go:10-23 | the call is admitted iff a string role is present and equals some allowed role; a missing role fails with "role not found" whatever the allow-list; a present role that matches nothing fails with "user not authorized for access"; an empty allow-list always fails |
| Authorization.AuthorizeUserOrderIndependent | pkg/utils/authorize_user.go:16-20 | two allow-lists with the same members give the same outcome, whatever their order or repetitions |
| Authorization.AuthorizeUserReadsOnlyRole | pkg/utils/authorize_user.go:11 | changing any context entry other than the role key does not change the outcome |
| Authorization.AuthorizeUserNeedsContextKeyType | pkg/utils/authorize_user.go:11-13 | a role stored under a "role" key of another Go type is not found |
| Authorization.AuthorizeUserIsCaseSensitive | pkg/utils/authorize_user.go:17 | an illustration of exact matching (the general rule is AuthorizeUser's contract): role "Admin" is refused by the allow-list ["admin"] |
| ObjectIds.DecodeHex | internals/api/handlers/teachers.go:89 | decoding succeeds iff every character is a hex digit, giving half as many bytes as digits |
| ObjectIds.EncodeHex | internals/repositories/mongodb/teachers_crud.go:37 | encoding gives two lower-case hex digits per byte |
| ObjectIds.ObjectIdFromHex | internals/api/handlers/teachers.go:89-92 | it parses exactly the strings of 24 hex digits, in either case |
| ObjectIds.Hex | internals/repositories/mongodb/teachers_crud.go:37 | it gives 24 lower-case hex digits |
| ObjectIds.DecodeEncode | internals/repositories/mongodb/teachers_crud.go:37 | decoding the encoding of any byte string gives it back |
| ObjectIds.EncodeDecode | internals/api/handlers/teachers.go:89 | encoding a decoded hex string gives that string in lower case |
| ObjectIds.HexRoundTrip | internals/repositories/mongodb/teachers_crud.go:35-37 | the text written for an identifier parses back to the same identifier |
| ObjectIds.FromHexRoundTrip | internals/api/handlers/teachers.go:89-93 | a parsed Id, written out again, is the request's Id in lower case |
| Fields.FieldByName | internals/repositories/mongodb/teachers_crud.go:113 | it finds the first field with that name, or reports none iff the struct has no such field |
| Fields.FieldByNameUnique | internals/repositories/mongodb/teachers_crud.go:95 | in a struct, looking a field up by its own name finds that field |
| Fields.Mapped | internals/repositories/mongodb/teachers_crud.go:86-119 | the same-name copy produces a value of the target struct type |
| Fields.MappedFields | internals/repositories/mongodb/teachers_crud.go:109-116 | every target field with a same-named source field gets that field's value; every other target field stays zero |
| Fields.CopySameNamedFields | internals/repositories/mongodb/teachers_crud.go:109-117 | the mapper loop, which walks the source fields and sets the same-named target field, computes the same-name copy |
| Fields.CopyNonZeroFields | internals/api/handlers/teachers.go:68-78 | the first filter loop, which skips zero request fields, computes the same copy as the mapper loop |
| Fields.MappedRoundTrip | internals/repositories/mongodb/teachers_crud.go:86-119 | copying into a struct that has all the source's field names, and back, is the identity |
| Fields.MappedOfZeroIsZero | internals/repositories/mongodb/teachers_crud.go:104 | copying a zero struct gives the zero target struct |
| Fields.SetByName | internals/repositories/mongodb/teachers_crud.go:37 | assigning a field changes that field only |
| TeachersCrud.MapPbTeacherToModelTeacher | internals/repositories/mongodb/teachers_crud.go:103-119 | each model field takes the same-named wire field's value; model fields without a wire counterpart stay zero |
| TeachersCrud.MapModelTeacherToPb | internals/repositories/mongodb/teachers_crud.go:86-101 | each wire field takes the same-named model field's value |
| TeachersCrud.MapperRoundTrip | internals/repositories/mongodb/teachers_crud.go:86-119 | wire to model to wire keeps all six teacher fields |
| TeachersCrud.AddedTeacherFields | internals/repositories/mongodb/teachers_crud.go:35-40 | an added teacher keeps every request field except Id; Id becomes the hex of the inserted identifier when the store reports one as an ObjectID, and is unchanged otherwise |
| TeachersCrud.NewModelTeachers | internals/repositories/mongodb/teachers_crud.go:23-26 | a fresh array holding the model record of every request teacher, in order |
| TeachersCrud.AddTeachersToDb | internals/repositories/mongodb/teachers_crud.go:16-44 | the outcome is the reference outcome: connect failure gives "Internal server error"; any failed insert gives "Error adding value to database" and no partial list; otherwise one wire record per teacher. The store receives the model records in order, up to and including the first failed insert, and nothing when the connection fails |
| TeachersCrud.AddedTeachersFailure | internals/repositories/mongodb/teachers_crud.go:30-33 | one failed insert makes the whole add fail |
| TeachersCrud.AddedTeachersOnSuccess | internals/repositories/mongodb/teachers_crud.go:23-43 | on success the output has the input's length and order; each record keeps its request fields; each Id is the new identifier's hex or unchanged |
| TeachersCrud.WireCopyIsMapper | internals/repositories/mongodb/teachers_crud.go:74-81 | the explicit six-field copy agrees with the reflective mapper from model to wire |
| TeachersCrud.GetTeachersFromDb | internals/repositories/mongodb/teachers_crud.go:46-84 | the outcome is the reference outcome: connect and decode errors give "internal server error"; a find error gives "internal error"; otherwise one record per document in cursor order. Find gets the sort options only when there is at least one |
| TeachersCrud.FetchedTeachersFields | internals/repositories/mongodb/teachers_crud.go:67-83 | each fetched record carries the six same-named fields of its decoded document, in cursor order |
| TeacherHandlers.AddTeachers | internals/api/handlers/teachers.go:19-33 | a batch with any non-empty Id is refused with InvalidArgument and the fixed message, before the store is reached; otherwise the store's list is returned unchanged, and a store error becomes Internal with the store's text |
| TeacherHandlers.AddedIdsParse | internals/api/handlers/teachers.go:21-32 | after validation, every returned Id is empty or parses as an identifier |
| TeacherHandlers.BuildSortOptions | internals/api/handlers/teachers.go:104-117 | one entry per sort field, in order, keyed by the field; the value is -1 iff the order is DESC and 1 otherwise |
| TeacherHandlers.TrimSuffix | internals/api/handlers/teachers.go:87 | a string ending in the suffix loses exactly that suffix; any other string is unchanged |
| TeacherHandlers.TrimSuffixOnce | internals/api/handlers/teachers.go:87 | only a single trailing ",omitempty" is removed |
| TeacherHandlers.FilterFailureSticks | internals/api/handlers/teachers.go:88-93 | once an Id parse error has happened, the later fields do not change the outcome |
| TeacherHandlers.FilterUpToFails | internals/api/handlers/teachers.go:81-98 | filter construction fails, with "Invalid Id", exactly when some non-zero field has key `_id` and the request's Id does not parse |
| TeacherHandlers.FilterUpToKeys | internals/api/handlers/teachers.go:81-98 | the filter's keys are exactly the keys of the non-zero model fields |
| TeacherHandlers.FilterUpToValue | internals/api/handlers/teachers.go:84-95 | a non-zero field that no later field overwrites contributes its string, or, for `_id`, the identifier parsed from the request's Id |
| TeacherHandlers.BuildFilterForTeacher | internals/api/handlers/teachers.go:54-102 | the two loops compute the reference filter; a nil request gives the empty filter and no error |
| TeacherHandlers.FilterEntries | internals/api/handlers/teachers.go:81-98 | the second loop computes the reference filter over the filled-in model record |
| TeacherHandlers.ModelDocNonZero | internals/api/handlers/teachers.go:68-78 | a model field is non-zero after the copy iff a same-named request field is non-empty, and it then holds that value |
| TeacherHandlers.TeacherFilterFields | internals/api/handlers/teachers.go:54-102 | in terms of the request: the call fails with "Invalid Id" iff a non-empty request field reaches the `_id` key and the Id does not parse; otherwise the keys are exactly those of the model fields that received a non-empty request field |
| TeacherHandlers.TeacherFilterValue | internals/api/handlers/teachers.go:84-95 | when filter keys are distinct, a non-empty request field filters on its own value, or, for `_id`, on the identifier parsed from the Id |
| TeacherHandlers.GetTeachers | internals/api/handlers/teachers.go:35-52 | a filter error gives InvalidArgument with its text, and GetTeachersFromDb is not called; otherwise it is called with the filter and the sort options, and a store error gives Internal |
| ExecHandlers.AddExecs | internals/api/handlers/execs.go:13-27 | any exec with a non-empty Id gives InvalidArgument with the fixed message; otherwise the store's list is returned as is, and a store error gives Internal |
| ExecHandlers.AddExecsRefusesBeforeStore | internals/api/handlers/execs.go:15-19 | a refused batch gets the same answer whatever the store would say |
| ExecHandlers.AddExecsPassesBatch | internals/api/handlers/execs.go:21-26 | a batch without Ids reaches the store unchanged, and only Internal can come back |
| ExecHandlers.GetExecs | internals/api/handlers/execs.go:29-46 | a filter error gives InvalidArgument, and GetExecsFromDb is not called; otherwise it is called with the filter and the sort options, and a store error gives Internal |
| ExecHandlers.UpdateExecs | internals/api/handlers/execs.go:48-55 | the request list goes to the store unchanged; a store error gives Internal with its text; otherwise the store's list is returned |
| ExecHandlers.CollectExecIds | internals/api/handlers/execs.go:58-62 | the id list has the request's length and order, with element i the Id of request entry i |
| ExecHandlers.DeleteExecs | internals/api/handlers/execs.go:57-73 | the store receives the request ids in order; on success the confirmation has status "Execs successfully deleted" and exactly the ids the store returned; a store error gives Internal |

## Left out

- Server start-up in cmd/grpcapi/server.go is not modelled. That covers environment loading, TLS, the listener, service registration and the token clean-up goroutine. The interceptors, the token store and the rate limiter are only referenced there and are not part of this model.
- internals/repositories/mongodb/mongoconnect.go (connect and ping) is not modelled. A connection attempt is a boolean parameter, `connectOk`.
- The store calls are oracles passed in as parameters: `InsertOne`, `Find` with `SetSort`, cursor iteration, `Decode`, and `Disconnect`. The same holds for the exec store functions (`AddExecsToDb`, `GetExecsFromDb`, `ModifyExecsInDb`, `DeleteExecsFromDb`) and for `buildFilter`, whose code is not part of this model. Each `InsertOne` answer is indexed by its call number, so successive inserts can answer differently.
- `primitive.ObjectIDFromHex` and `ObjectID.Hex` are library calls. They are modelled after their documented behaviour: exactly 24 hex digits in either case, and 24 lower-case digits. This behaviour is assumed, because their code is not part of this model.
- `utils.ErrorHandler` is not part of this model. It is taken to return an error whose text is its message argument.
- The `ctx` argument of each call is left out. So are the `fmt.Println` debug outputs and the server's log output.
- The unexported protobuf bookkeeping fields of the wire teacher are left out. They are `state`, `sizeCache` and `unknownFields`. No model field shares their names, so both mappers and the first filter loop skip them anyway.
- Panics on nil entries in a request list or in `req.Ids` are not modelled.
- Every `models.Teacher` field is represented as a string. A field of another type is never set on these paths, stays zero, and does not change the outcome.
- The cursor's own iteration error (`cursor.Err`, which the source never checks) is not modelled separately. A cut-short cursor is simply a shorter document list from the find oracle.
- TeachersCrud.AddTeachersToDb: the loop updates a copy of each model record rather than the pointer held in `newTeachers`. Nothing reads `newTeachers` after that loop, so the outcome is the same.
- TeacherHandlers.TeacherFilterValue: when two model fields share a filter key, the later one overwrites the entry. This lemma assumes distinct keys. For the general case, FilterUpToValue names the entry that survives.
- Order: the protobuf enum is modelled as ASC, DESC or an unnamed number. Its numbering is not part of this model; only "is it DESC" matters.
