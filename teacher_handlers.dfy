/**
 * The teacher handlers of the gRPC server (internals/api/handlers/teachers.go):
 * request validation for AddTeachers, the query construction of GetTeachers
 * (the filter from the request teacher, the sort options from the sort fields)
 * and the mapping of filter and store errors onto status codes.
 */
module TeacherHandlers {
  import opened Wrappers
  import opened ObjectIds
  import opened Fields
  import opened Bson
  import opened TeachersCrud
  import opened Responses

  // ----- AddTeachers -----

  /** Some request teacher already carries an Id. */
  predicate HasPresetId(ts: seq<Record>)
    requires AllWireTeachers(ts)
  {
    exists i :: 0 <= i < |ts| && ts[i][IdIndex] != Zero
  }

  /**
   * AddTeachers: a batch in which any teacher has an Id is refused before the
   * store is reached (`sent` is what was handed to the store); otherwise the
   * store's answer is passed on, a store error becoming Internal.
   */
  method AddTeachers(connectOk: bool, model: Schema, req: seq<Record>, insert: Inserter)
    returns (r: Response<seq<Record>>, ghost sent: seq<Record>)
    requires ValidModelSchema(model) && AllWireTeachers(req)
    ensures HasPresetId(req) ==> r == Err(InvalidArgument, PresetIdMessage) && sent == []
    ensures !HasPresetId(req) ==> r == StoreResponse(AddedTeachers(connectOk, model, req, insert))
    ensures |sent| <= |req| && sent == ModelDocs(model, req)[..|sent|]
  {
    for i := 0 to |req|
      invariant forall k :: 0 <= k < i ==> req[k][IdIndex] == Zero
    {
      if req[i][IdIndex] != Zero {
        return Err(InvalidArgument, PresetIdMessage), [];
      }
    }
    var added;
    added, sent := AddTeachersToDb(connectOk, model, req, insert);
    if added.Failure? {
      return Err(Internal, added.error), sent;
    }
    r := Ok(added.value);
  }

  /** A batch that passes validation comes back with every Id either empty or the hex of a stored identifier. */
  lemma AddedIdsParse(connectOk: bool, model: Schema, req: seq<Record>, insert: Inserter)
    requires ValidModelSchema(model) && AllWireTeachers(req) && !HasPresetId(req)
    requires AddedTeachers(connectOk, model, req, insert).Success?
    ensures var out := AddedTeachers(connectOk, model, req, insert).value;
      forall i :: 0 <= i < |out| ==>
        IsWireTeacher(out[i]) && (out[i][IdIndex] == Zero || ObjectIdFromHex(out[i][IdIndex]).Some?)
  {
    AddedTeachersOnSuccess(connectOk, model, req, insert);
    var out := AddedTeachers(connectOk, model, req, insert).value;
    forall i | 0 <= i < |out|
      ensures IsWireTeacher(out[i]) && (out[i][IdIndex] == Zero || ObjectIdFromHex(out[i][IdIndex]).Some?)
    {
      assert AddedFrom(out[i], req[i], insert(i, ModelDocs(model, req)[i]));
      match insert(i, ModelDocs(model, req)[i])
      case Inserted(ObjectIdKey(id)) => HexRoundTrip(id);
      case _ =>
    }
  }

  // ----- buildSortOptions -----

  /**
   * The protobuf `Order` enum. It is open, so a number it does not name survives
   * decoding; `UnknownOrder` stands only for such a number, never for the number
   * of ASC or DESC, which decode to those constructors.
   */
  datatype Order = ASC | DESC | UnknownOrder(number: int)

  datatype SortField = SortField(field: string, order: Order)

  /** The sort options built from a list of sort fields. */
  function SortOptionsOf(sortFields: seq<SortField>): SortOptions {
    seq(|sortFields|, i requires 0 <= i < |sortFields| =>
      SortEntry(sortFields[i].field, if sortFields[i].order == DESC then -1 else 1))
  }

  /** buildSortOptions: one entry per sort field, in order, keyed by the field name; -1 for DESC, 1 for anything else. */
  method BuildSortOptions(sortFields: seq<SortField>) returns (sortOptions: SortOptions)
    ensures sortOptions == SortOptionsOf(sortFields)
    ensures |sortOptions| == |sortFields|
    ensures forall i :: 0 <= i < |sortFields| ==> sortOptions[i].key == sortFields[i].field
    ensures forall i :: 0 <= i < |sortFields| ==> (sortOptions[i].value == -1 <==> sortFields[i].order == DESC)
    ensures forall i :: 0 <= i < |sortFields| ==> (sortOptions[i].value == 1 <==> sortFields[i].order != DESC)
  {
    sortOptions := [];
    for i := 0 to |sortFields|
      invariant |sortOptions| == i
      invariant forall k :: 0 <= k < i ==> sortOptions[k] == SortOptionsOf(sortFields)[k]
    {
      var order := 1;
      if sortFields[i].order == DESC {
        order := -1;
      }
      sortOptions := sortOptions + [SortEntry(sortFields[i].field, order)];
    }
  }

  // ----- buildFilterForTeacher -----

  const OmitEmpty: string := ",omitempty"
  const IdKey: string := "_id"
  const InvalidIdMessage: string := "Invalid Id"

  predicate EndsWith(s: string, suffix: string) {
    |suffix| <= |s| && s[|s| - |suffix|..] == suffix
  }

  /** `strings.TrimSuffix`: removes one trailing copy of `suffix`, if there is one. */
  function TrimSuffix(s: string, suffix: string): (r: string)
    ensures EndsWith(s, suffix) ==> r + suffix == s
    ensures !EndsWith(s, suffix) ==> r == s
  {
    if EndsWith(s, suffix) then s[..|s| - |suffix|] else s
  }

  /** Only a single trailing ",omitempty" is removed. */
  lemma TrimSuffixOnce(x: string)
    ensures TrimSuffix(x + OmitEmpty, OmitEmpty) == x
  {
    var s := x + OmitEmpty;
    assert s[|s| - |OmitEmpty|..] == OmitEmpty;
    var r := TrimSuffix(s, OmitEmpty);
    assert r == (r + OmitEmpty)[..|r|];
  }

  /** The filter key of a model field: its `bson` tag without ",omitempty". */
  function FilterKey(f: Field): string {
    TrimSuffix(f.tag, OmitEmpty)
  }

  /** No two model fields share a filter key. */
  predicate UniqueKeys(model: Schema) {
    forall i, j :: 0 <= i < j < |model| ==> FilterKey(model[i]) != FilterKey(model[j])
  }

  /**
   * The outcome of the second loop after it has visited the first `i` fields of the
   * model record `m`; `id` is the request's Id, which the `_id` entry parses.
   */
  function FilterUpTo(model: Schema, m: Record, id: string, i: nat): Result<Filter>
    requires Fits(model, m) && i <= |model|
  {
    if i == 0 then Success(map[])
    else match FilterUpTo(model, m, id, i - 1)
      case Failure(e) => Failure(e)
      case Success(f) =>
        if m[i - 1] == Zero then Success(f)
        else if FilterKey(model[i - 1]) == IdKey then
          match ObjectIdFromHex(id)
          case None => Failure(InvalidIdMessage)
          case Some(oid) => Success(f[IdKey := IdValue(oid)])
        else Success(f[FilterKey(model[i - 1]) := StringValue(m[i - 1])])
  }

  /** The filter built for a request teacher: none at all gives the empty filter. */
  function TeacherFilter(req: Option<Record>, model: Schema): Result<Filter>
    requires ValidModelSchema(model) && (req.Some? ==> IsWireTeacher(req.value))
  {
    match req
    case None => Success(map[])
    case Some(t) => FilterUpTo(model, ModelDoc(model, t), t[IdIndex], |model|)
  }

  /** Once the `_id` entry has failed to parse, the later fields do not change the outcome. */
  lemma {:induction false} FilterFailureSticks(model: Schema, m: Record, id: string, i: nat, n: nat)
    requires Fits(model, m) && i <= n <= |model|
    requires FilterUpTo(model, m, id, i).Failure?
    ensures FilterUpTo(model, m, id, n) == FilterUpTo(model, m, id, i)
  {
    if n > i {
      FilterFailureSticks(model, m, id, i, n - 1);
    }
  }

  /** The loop fails exactly when a non-zero field has key `_id` and the Id does not parse; the error is "Invalid Id". */
  lemma {:induction false} FilterUpToFails(model: Schema, m: Record, id: string, i: nat)
    requires Fits(model, m) && i <= |model|
    ensures FilterUpTo(model, m, id, i).Failure?
        <==> ObjectIdFromHex(id).None? && exists j :: 0 <= j < i && m[j] != Zero && FilterKey(model[j]) == IdKey
    ensures FilterUpTo(model, m, id, i).Failure? ==> FilterUpTo(model, m, id, i).error == InvalidIdMessage
  {
    if i > 0 {
      FilterUpToFails(model, m, id, i - 1);
    }
  }

  /** The keys of the filter are exactly the keys of the non-zero fields. */
  lemma {:induction false} FilterUpToKeys(model: Schema, m: Record, id: string, i: nat)
    requires Fits(model, m) && i <= |model|
    requires FilterUpTo(model, m, id, i).Success?
    ensures forall key :: key in FilterUpTo(model, m, id, i).value
                      <==> exists j :: 0 <= j < i && m[j] != Zero && FilterKey(model[j]) == key
  {
    if i > 0 {
      FilterUpToKeys(model, m, id, i - 1);
    }
  }

  /**
   * The entry for a non-zero field that no later non-zero field overwrites: the
   * field's string, or for `_id` the identifier parsed from the request's Id.
   */
  lemma {:induction false} FilterUpToValue(model: Schema, m: Record, id: string, i: nat, j: nat)
    requires Fits(model, m) && j < i <= |model|
    requires FilterUpTo(model, m, id, i).Success?
    requires m[j] != Zero
    requires forall j' :: j < j' < i && m[j'] != Zero ==> FilterKey(model[j']) != FilterKey(model[j])
    ensures var f, key := FilterUpTo(model, m, id, i).value, FilterKey(model[j]);
      && key in f
      && (key != IdKey ==> f[key] == StringValue(m[j]))
      && (key == IdKey ==> f[key].IdValue? && ObjectIdFromHex(id) == Some(f[key].id))
  {
    if j < i - 1 {
      FilterUpToValue(model, m, id, i - 1, j);
    }
  }

  /**
   * buildFilterForTeacher: copy the non-zero request fields into a zero model
   * record, then enter one filter entry per non-zero model field.
   */
  method BuildFilterForTeacher(req: Option<Record>, model: Schema) returns (r: Result<Filter>)
    requires ValidModelSchema(model) && (req.Some? ==> IsWireTeacher(req.value))
    ensures r == TeacherFilter(req, model)
    ensures req.None? ==> r == Success(map[])
  {
    if req.None? {
      return Success(map[]);
    }
    var t := req.value;
    WireTeacherFacts();
    var modelTeacher := CopyNonZeroFields(WireTeacher, t, model);
    r := FilterEntries(model, modelTeacher, t[IdIndex]);
  }

  /** The second loop of buildFilterForTeacher, over the fields of the filled-in model record `m`. */
  method FilterEntries(model: Schema, m: Record, id: string) returns (r: Result<Filter>)
    requires Fits(model, m)
    ensures r == FilterUpTo(model, m, id, |model|)
  {
    var filter: Filter := map[];
    var i := 0;
    while i < |model|
      invariant i <= |model|
      invariant FilterUpTo(model, m, id, i) == Success(filter)
    {
      if m[i] != Zero {
        var bsonTag := TrimSuffix(model[i].tag, OmitEmpty);
        if bsonTag == IdKey {
          var objId := ObjectIdFromHex(id);
          if objId.None? {
            FilterFailureSticks(model, m, id, i + 1, |model|);
            return Failure(InvalidIdMessage);
          }
          filter := filter[bsonTag := IdValue(objId.value)];
        } else {
          filter := filter[bsonTag := StringValue(m[i])];
        }
      }
      i := i + 1;
    }
    r := Success(filter);
  }

  /** A model field is non-zero after the copy exactly when a same-named request field is non-zero. */
  lemma ModelDocNonZero(model: Schema, t: Record, j: nat)
    requires ValidModelSchema(model) && IsWireTeacher(t) && j < |model|
    ensures ModelDoc(model, t)[j] != Zero
        <==> exists k :: 0 <= k < |WireTeacher| && WireTeacher[k].name == model[j].name && t[k] != Zero
    ensures forall k :: 0 <= k < |WireTeacher| && WireTeacher[k].name == model[j].name ==> ModelDoc(model, t)[j] == t[k]
  {
    WireTeacherFacts();
    MappedFields(WireTeacher, t, model);
  }

  /**
   * The filter for a request teacher, in terms of the request: it fails, with
   * "Invalid Id", exactly when a non-empty request field lands on the `_id` key and
   * the request's Id does not parse; otherwise its keys are those of the model fields
   * that received a non-empty request field.
   */
  lemma TeacherFilterFields(model: Schema, t: Record)
    requires ValidModelSchema(model) && IsWireTeacher(t)
    ensures var r := TeacherFilter(Some(t), model);
      && (r.Failure? <==> ObjectIdFromHex(t[IdIndex]).None? && SetsKey(model, t, IdKey))
      && (r.Failure? ==> r.error == InvalidIdMessage)
      && (r.Success? ==> forall key :: key in r.value <==> SetsKey(model, t, key))
  {
    var m := ModelDoc(model, t);
    FilterUpToFails(model, m, t[IdIndex], |model|);
    if TeacherFilter(Some(t), model).Success? {
      FilterUpToKeys(model, m, t[IdIndex], |model|);
    }
    forall key
      ensures SetsKey(model, t, key) <==> exists j :: 0 <= j < |model| && m[j] != Zero && FilterKey(model[j]) == key
    {
      forall j | 0 <= j < |model| {
        ModelDocNonZero(model, t, j);
      }
    }
  }

  /** Some request field is non-empty and lands on a model field whose filter key is `key`. */
  predicate SetsKey(model: Schema, t: Record, key: string)
    requires IsWireTeacher(t)
  {
    exists j, k :: 0 <= j < |model| && 0 <= k < |WireTeacher|
      && model[j].name == WireTeacher[k].name && t[k] != Zero && FilterKey(model[j]) == key
  }

  /**
   * With distinct filter keys, a non-empty request field that lands on a model field
   * filters on its own value, or, for `_id`, on the identifier parsed from the Id.
   */
  lemma TeacherFilterValue(model: Schema, t: Record, j: nat, k: nat)
    requires ValidModelSchema(model) && UniqueKeys(model) && IsWireTeacher(t)
    requires j < |model| && k < |WireTeacher| && model[j].name == WireTeacher[k].name && t[k] != Zero
    requires TeacherFilter(Some(t), model).Success?
    ensures var f, key := TeacherFilter(Some(t), model).value, FilterKey(model[j]);
      && key in f
      && (key != IdKey ==> f[key] == StringValue(t[k]))
      && (key == IdKey ==> f[key].IdValue? && ObjectIdFromHex(t[IdIndex]) == Some(f[key].id))
  {
    var m := ModelDoc(model, t);
    ModelDocNonZero(model, t, j);
    FilterUpToValue(model, m, t[IdIndex], |model|, j);
  }

  // ----- GetTeachers -----

  datatype GetTeachersRequest = GetTeachersRequest(teacher: Option<Record>, sortBy: seq<SortField>)

  /**
   * GetTeachers: a filter error is a bad argument and the store layer
   * (GetTeachersFromDb) is not called; otherwise it is called with the filter and
   * the sort options, and a store error becomes Internal. `queried` records
   * whether the handler called GetTeachersFromDb.
   */
  method GetTeachers(connectOk: bool, model: Schema, req: GetTeachersRequest, find: Finder, decode: Decoder)
    returns (r: Response<seq<Record>>, ghost queried: bool)
    requires ValidModelSchema(model) && DecodesToModel(model, decode)
    requires req.teacher.Some? ==> IsWireTeacher(req.teacher.value)
    ensures var filter := TeacherFilter(req.teacher, model);
      filter.Failure? ==> r == Err(InvalidArgument, filter.error)
    ensures var filter := TeacherFilter(req.teacher, model);
      filter.Success? ==> r == StoreResponse(FetchedTeachers(connectOk, model, SortOptionsOf(req.sortBy), filter.value, find, decode))
    ensures queried <==> TeacherFilter(req.teacher, model).Success?
  {
    queried := false;
    var filter := BuildFilterForTeacher(req.teacher, model);
    if filter.Failure? {
      return Err(InvalidArgument, filter.error), queried;
    }
    var sortOptions := BuildSortOptions(req.sortBy);
    queried := true;
    var teachers := GetTeachersFromDb(connectOk, model, sortOptions, filter.value, find, decode);
    if teachers.Failure? {
      return Err(Internal, teachers.error), queried;
    }
    r := Ok(teachers.value);
  }
}
