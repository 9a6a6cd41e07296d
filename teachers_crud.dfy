/**
 * The teacher collection access layer (internals/repositories/mongodb/teachers_crud.go):
 * the two reflective mappers between the wire record and the stored model record,
 * the insert loop and the find-and-decode loop. The store itself (connecting,
 * InsertOne, Find, the cursor, Decode) is an oracle passed in as a parameter.
 */
module TeachersCrud {
  import opened Wrappers
  import opened ObjectIds
  import opened Fields
  import opened Bson

  /** The wire teacher record, in declaration order; it carries no `bson` tags. */
  const WireTeacher: Schema := [
    Field("Id", ""), Field("FirstName", ""), Field("LastName", ""),
    Field("Email", ""), Field("Class", ""), Field("Subject", "")
  ]
  const IdField: string := "Id"
  const IdIndex: nat := 0

  predicate IsWireTeacher(t: Record) {
    Fits(WireTeacher, t)
  }

  predicate AllWireTeachers(ts: seq<Record>) {
    forall i :: 0 <= i < |ts| ==> IsWireTeacher(ts[i])
  }

  /**
   * The stored teacher struct is not part of this model, so its field table is a
   * parameter. It is a Go struct (unique field names) and has every field of the
   * wire record, which the explicit copy in GetTeachersFromDb names one by one.
   */
  predicate ValidModelSchema(model: Schema) {
    UniqueNames(model) && Covers(model, WireTeacher)
  }

  lemma WireTeacherFacts()
    ensures UniqueNames(WireTeacher)
    ensures WireTeacher[IdIndex].name == IdField
  {
  }

  /** mapPbTeacherToModelTeacher: each model field takes the same-named wire field; the others stay zero. */
  method MapPbTeacherToModelTeacher(model: Schema, t: Record) returns (m: Record)
    requires ValidModelSchema(model) && IsWireTeacher(t)
    ensures m == Mapped(WireTeacher, t, model)
    ensures Fits(model, m)
    ensures forall j, k :: 0 <= j < |model| && 0 <= k < |WireTeacher| && model[j].name == WireTeacher[k].name ==> m[j] == t[k]
    ensures forall j :: 0 <= j < |model| && !HasField(WireTeacher, model[j].name) ==> m[j] == Zero
  {
    WireTeacherFacts();
    m := CopySameNamedFields(WireTeacher, t, model);
    MappedFields(WireTeacher, t, model);
  }

  /** mapModelTeacherToPb: each wire field takes the same-named model field. */
  method MapModelTeacherToPb(model: Schema, m: Record) returns (t: Record)
    requires ValidModelSchema(model) && Fits(model, m)
    ensures t == Mapped(model, m, WireTeacher)
    ensures IsWireTeacher(t)
    ensures forall k, j :: 0 <= k < |WireTeacher| && 0 <= j < |model| && WireTeacher[k].name == model[j].name ==> t[k] == m[j]
  {
    WireTeacherFacts();
    t := CopySameNamedFields(model, m, WireTeacher);
    MappedFields(model, m, WireTeacher);
  }

  /** Wire to model to wire keeps all six teacher fields. */
  lemma MapperRoundTrip(model: Schema, t: Record)
    requires ValidModelSchema(model) && IsWireTeacher(t)
    ensures Mapped(model, Mapped(WireTeacher, t, model), WireTeacher) == t
  {
    WireTeacherFacts();
    MappedRoundTrip(WireTeacher, t, model);
  }

  // ----- AddTeachersToDb -----

  /** What the store reports for one InsertOne: an error, or the inserted document's `_id`. */
  datatype InsertedId = ObjectIdKey(id: ObjectId) | OtherKey
  datatype InsertResult = InsertFailed(error: string) | Inserted(insertedId: InsertedId)

  const ConnectError: string := "Internal server error"
  const InsertError: string := "Error adding value to database"

  /** The model document built for a request teacher (the first loop). */
  function ModelDoc(model: Schema, t: Record): (m: Record)
    requires ValidModelSchema(model) && IsWireTeacher(t)
    ensures Fits(model, m)
  {
    Mapped(WireTeacher, t, model)
  }

  /** The model document after the insert: its Id is the hex of the new identifier when there is one. */
  function AfterInsert(model: Schema, m: Record, res: InsertResult): (u: Record)
    requires ValidModelSchema(model) && Fits(model, m)
    ensures Fits(model, u)
  {
    if res.Inserted? && res.insertedId.ObjectIdKey? then SetByName(model, m, IdField, Hex(res.insertedId.id))
    else m
  }

  /** The wire record returned for one inserted teacher. */
  function AddedTeacher(model: Schema, t: Record, res: InsertResult): (a: Record)
    requires ValidModelSchema(model) && IsWireTeacher(t)
    ensures IsWireTeacher(a)
  {
    Mapped(model, AfterInsert(model, ModelDoc(model, t), res), WireTeacher)
  }

  /**
   * `a` is what the store-side add returns for request teacher `t`: every field
   * except Id as sent, and Id the new identifier's hex when the store reports one.
   */
  predicate AddedFrom(a: Record, t: Record, res: InsertResult) {
    && IsWireTeacher(a) && IsWireTeacher(t)
    && (forall k :: 0 <= k < |WireTeacher| && k != IdIndex ==> a[k] == t[k])
    && a[IdIndex] == match res
                     case Inserted(ObjectIdKey(id)) => Hex(id)
                     case _ => t[IdIndex]
  }

  lemma AddedTeacherFields(model: Schema, t: Record, res: InsertResult)
    requires ValidModelSchema(model) && IsWireTeacher(t)
    ensures AddedFrom(AddedTeacher(model, t, res), t, res)
  {
    WireTeacherFacts();
    var m := ModelDoc(model, t);
    var u := AfterInsert(model, m, res);
    var a := AddedTeacher(model, t, res);
    forall k | 0 <= k < |WireTeacher|
      ensures a[k] == if k == IdIndex && res.Inserted? && res.insertedId.ObjectIdKey? then Hex(res.insertedId.id) else t[k]
    {
      var j := FieldByName(model, WireTeacher[k].name).value;
      FieldByNameUnique(model, j);
      assert a[k] == u[j];
      assert m[j] == t[k];
    }
  }

  type Inserter = (nat, Record) -> InsertResult

  /** The model documents for all request teachers, in order. */
  function ModelDocs(model: Schema, ts: seq<Record>): (docs: seq<Record>)
    requires ValidModelSchema(model) && AllWireTeachers(ts)
    ensures |docs| == |ts|
  {
    seq(|ts|, k requires 0 <= k < |ts| => ModelDoc(model, ts[k]))
  }

  predicate InsertFailsAt(model: Schema, ts: seq<Record>, insert: Inserter, k: nat)
    requires ValidModelSchema(model) && AllWireTeachers(ts) && k < |ts|
  {
    insert(k, ModelDocs(model, ts)[k]).InsertFailed?
  }

  /**
   * Reference outcome of AddTeachersToDb. The oracle `insert(k, doc)` is the store's
   * answer to the k-th InsertOne call.
   */
  function AddedTeachers(connectOk: bool, model: Schema, ts: seq<Record>, insert: Inserter): (r: Result<seq<Record>>)
    requires ValidModelSchema(model) && AllWireTeachers(ts)
  {
    if !connectOk then Failure(ConnectError)
    else if exists k :: 0 <= k < |ts| && InsertFailsAt(model, ts, insert, k) then Failure(InsertError)
    else Success(AddedRecords(model, ts, insert))
  }

  /** The wire records returned for the request teachers when every insert is accepted, in request order. */
  function AddedRecords(model: Schema, ts: seq<Record>, insert: Inserter): (out: seq<Record>)
    requires ValidModelSchema(model) && AllWireTeachers(ts)
    ensures |out| == |ts|
  {
    seq(|ts|, k requires 0 <= k < |ts| => AddedTeacher(model, ts[k], insert(k, ModelDocs(model, ts)[k])))
  }

  lemma PrefixStep<T>(s: seq<T>, i: nat)
    requires i < |s|
    ensures s[..i + 1] == s[..i] + [s[i]]
  {
  }

  /** The first loop of AddTeachersToDb: a fresh slice holding the model document of every request teacher. */
  method NewModelTeachers(model: Schema, ts: seq<Record>) returns (a: array<Record>)
    requires ValidModelSchema(model) && AllWireTeachers(ts)
    ensures fresh(a)
    ensures a[..] == ModelDocs(model, ts)
  {
    ghost var docs := ModelDocs(model, ts);
    a := new Record[|ts|];
    for i := 0 to |ts|
      invariant a[..i] == docs[..i]
    {
      a[i] := MapPbTeacherToModelTeacher(model, ts[i]);
      assert a[..i + 1] == a[..i] + [a[i]];
      assert docs[..i + 1] == docs[..i] + [docs[i]];
    }
  }

  /**
   * AddTeachersToDb. `sent` is the list of documents handed to InsertOne, in order:
   * every document up to and including the first failed insert.
   */
  method AddTeachersToDb(connectOk: bool, model: Schema, ts: seq<Record>, insert: Inserter)
    returns (r: Result<seq<Record>>, ghost sent: seq<Record>)
    requires ValidModelSchema(model) && AllWireTeachers(ts)
    ensures r == AddedTeachers(connectOk, model, ts, insert)
    ensures |sent| <= |ts| && sent == ModelDocs(model, ts)[..|sent|]
    ensures forall k :: 0 <= k < |sent| - 1 ==> !InsertFailsAt(model, ts, insert, k)
    ensures !connectOk ==> sent == []
    ensures r.Success? ==> |sent| == |ts|
    ensures connectOk && r.Failure? ==> |sent| > 0 && InsertFailsAt(model, ts, insert, |sent| - 1)
  {
    sent := [];
    if !connectOk {
      return Failure(ConnectError), sent;
    }
    var n := |ts|;
    ghost var docs := ModelDocs(model, ts);
    ghost var answers := AddedRecords(model, ts, insert);
    var newTeachers := NewModelTeachers(model, ts);

    var added: seq<Record> := [];
    var i := 0;
    while i < n
      invariant i <= n
      invariant newTeachers[..] == docs
      invariant sent == docs[..i]
      invariant forall k :: 0 <= k < i ==> !InsertFailsAt(model, ts, insert, k)
      invariant added == answers[..i]
    {
      var teacher := newTeachers[i];
      assert teacher == docs[i];
      var result := insert(i, teacher);
      sent := sent + [teacher];
      assert sent == docs[..i + 1];
      if result.InsertFailed? {
        assert InsertFailsAt(model, ts, insert, i);
        AddedTeachersFailure(model, ts, insert, i);
        return Failure(InsertError), sent;
      }
      assert forall k :: 0 <= k <= i ==> !InsertFailsAt(model, ts, insert, k);
      if result.insertedId.ObjectIdKey? {
        teacher := SetByName(model, teacher, IdField, Hex(result.insertedId.id));
      }
      var pbTeacher := MapModelTeacherToPb(model, teacher);
      assert pbTeacher == answers[i];
      PrefixStep(answers, i);
      added := added + [pbTeacher];
      i := i + 1;
    }
    assert added == answers;
    r := Success(added);
  }

  lemma AddedTeachersFailure(model: Schema, ts: seq<Record>, insert: Inserter, i: nat)
    requires ValidModelSchema(model) && AllWireTeachers(ts) && i < |ts|
    requires InsertFailsAt(model, ts, insert, i)
    ensures AddedTeachers(true, model, ts, insert) == Failure(InsertError)
  {
  }

  /** With every insert accepted, the list keeps length and order; each Id is the new identifier's hex, or unchanged. */
  lemma AddedTeachersOnSuccess(connectOk: bool, model: Schema, ts: seq<Record>, insert: Inserter)
    requires ValidModelSchema(model) && AllWireTeachers(ts)
    requires AddedTeachers(connectOk, model, ts, insert).Success?
    ensures var out := AddedTeachers(connectOk, model, ts, insert).value;
      && |out| == |ts|
      && forall i :: 0 <= i < |ts| ==> AddedFrom(out[i], ts[i], insert(i, ModelDocs(model, ts)[i]))
  {
    var out := AddedTeachers(connectOk, model, ts, insert).value;
    assert out == AddedRecords(model, ts, insert);
    forall i | 0 <= i < |ts|
      ensures AddedFrom(out[i], ts[i], insert(i, ModelDocs(model, ts)[i]))
    {
      AddedTeacherFields(model, ts[i], insert(i, ModelDocs(model, ts)[i]));
    }
  }

  // ----- GetTeachersFromDb -----

  const ClientError: string := "internal server error"
  const FindError: string := "internal error"
  const DecodeError: string := "internal server error"

  /** Find takes the sort options only when there is at least one. */
  type Finder = (Option<SortOptions>, Filter) -> Result<seq<Document>>
  type Decoder = Document -> Result<Record>

  ghost predicate DecodesToModel(model: Schema, decode: Decoder) {
    forall d :: decode(d).Success? ==> Fits(model, decode(d).value)
  }

  /** The explicit six-field copy from a decoded model record into a wire record. */
  function WireCopy(model: Schema, m: Record): (t: Record)
    requires ValidModelSchema(model) && Fits(model, m)
    ensures IsWireTeacher(t)
  {
    [ValueByName(model, m, "Id"), ValueByName(model, m, "FirstName"), ValueByName(model, m, "LastName"),
     ValueByName(model, m, "Email"), ValueByName(model, m, "Class"), ValueByName(model, m, "Subject")]
  }

  lemma WireCopyAt(model: Schema, m: Record, k: nat)
    requires ValidModelSchema(model) && Fits(model, m) && k < |WireTeacher|
    ensures WireCopy(model, m)[k] == ValueByName(model, m, WireTeacher[k].name)
  {
  }

  /** The explicit copy agrees with the reflective mapper mapModelTeacherToPb. */
  lemma WireCopyIsMapper(model: Schema, m: Record)
    requires ValidModelSchema(model) && Fits(model, m)
    ensures WireCopy(model, m) == Mapped(model, m, WireTeacher)
  {
    forall k | 0 <= k < |WireTeacher|
      ensures WireCopy(model, m)[k] == Mapped(model, m, WireTeacher)[k]
    {
      WireCopyAt(model, m, k);
    }
  }

  function SortArgument(sort: SortOptions): Option<SortOptions> {
    if |sort| < 1 then None else Some(sort)
  }

  /** Reference outcome of GetTeachersFromDb. */
  function FetchedTeachers(connectOk: bool, model: Schema, sort: SortOptions, filter: Filter, find: Finder, decode: Decoder)
    : (r: Result<seq<Record>>)
    requires ValidModelSchema(model) && DecodesToModel(model, decode)
  {
    if !connectOk then Failure(ClientError)
    else match find(SortArgument(sort), filter)
      case Failure(_) => Failure(FindError)
      case Success(docs) =>
        if exists i :: 0 <= i < |docs| && decode(docs[i]).Failure? then Failure(DecodeError)
        else Success(seq(|docs|, i requires 0 <= i < |docs| => WireCopy(model, decode(docs[i]).value)))
  }

  /** GetTeachersFromDb: one wire record per document, in cursor order; any decode error aborts. */
  method GetTeachersFromDb(connectOk: bool, model: Schema, sort: SortOptions, filter: Filter, find: Finder, decode: Decoder)
    returns (r: Result<seq<Record>>)
    requires ValidModelSchema(model) && DecodesToModel(model, decode)
    ensures r == FetchedTeachers(connectOk, model, sort, filter, find, decode)
  {
    if !connectOk {
      return Failure(ClientError);
    }
    var cursor;
    if |sort| < 1 {
      cursor := find(None, filter);
    } else {
      cursor := find(Some(sort), filter);
    }
    assert cursor == find(SortArgument(sort), filter);
    if cursor.Failure? {
      return Failure(FindError);
    }
    var docs := cursor.value;
    var teachers: seq<Record> := [];
    var i := 0;
    while i < |docs|
      invariant i <= |docs|
      invariant forall k :: 0 <= k < i ==> decode(docs[k]).Success?
      invariant teachers == seq(i, k requires 0 <= k < i => WireCopy(model, decode(docs[k]).value))
    {
      var teacher := decode(docs[i]);
      if teacher.Failure? {
        assert decode(docs[i]).Failure?;
        return Failure(DecodeError);
      }
      teachers := teachers + [WireCopy(model, teacher.value)];
      i := i + 1;
    }
    r := Success(teachers);
  }

  /** Every fetched record carries the six same-named fields of its decoded document, in cursor order. */
  lemma FetchedTeachersFields(connectOk: bool, model: Schema, sort: SortOptions, filter: Filter, find: Finder, decode: Decoder)
    requires ValidModelSchema(model) && DecodesToModel(model, decode)
    requires FetchedTeachers(connectOk, model, sort, filter, find, decode).Success?
    ensures var docs := find(SortArgument(sort), filter).value;
      var out := FetchedTeachers(connectOk, model, sort, filter, find, decode).value;
      && |out| == |docs|
      && forall i, k, j :: 0 <= i < |docs| && 0 <= k < |WireTeacher| && 0 <= j < |model| && WireTeacher[k].name == model[j].name
           ==> out[i][k] == decode(docs[i]).value[j]
  {
    var docs := find(SortArgument(sort), filter).value;
    forall i | 0 <= i < |docs| {
      WireCopyIsMapper(model, decode(docs[i]).value);
    }
  }
}
