/**
 * The field walking that the repository does with Go reflection, replaced by an
 * explicit field table. A struct type is a Schema: its fields in declaration
 * order, each with its name and its `bson` tag. A struct value is a Record: one
 * string per field, in the same order, "" being Go's zero string.
 */
module Fields {
  import opened Wrappers

  datatype Field = Field(name: string, tag: string)

  type Schema = seq<Field>
  type Record = seq<string>

  const Zero: string := ""

  /** A record is a value of the struct type described by the schema. */
  predicate Fits(s: Schema, r: Record) {
    |r| == |s|
  }

  /** Go refuses two fields of one struct with the same name. */
  predicate UniqueNames(s: Schema) {
    forall i, j :: 0 <= i < j < |s| ==> s[i].name != s[j].name
  }

  predicate HasField(s: Schema, name: string) {
    exists i :: 0 <= i < |s| && s[i].name == name
  }

  /** `reflect.Value.FieldByName`: the index of the first field with that name. */
  function FieldByName(s: Schema, name: string): (r: Option<nat>)
    ensures r.Some? ==> r.value < |s| && s[r.value].name == name
    ensures r.Some? ==> forall k :: 0 <= k < r.value ==> s[k].name != name
    ensures r.None? <==> !HasField(s, name)
  {
    FieldFrom(s, name, 0)
  }

  /** The linear search behind FieldByName, from position `i` on. */
  function FieldFrom(s: Schema, name: string, i: nat): (r: Option<nat>)
    requires i <= |s|
    ensures r.Some? ==> i <= r.value < |s| && s[r.value].name == name
    ensures r.Some? ==> forall k :: i <= k < r.value ==> s[k].name != name
    ensures r.None? ==> forall k :: i <= k < |s| ==> s[k].name != name
    decreases |s| - i
  {
    if i == |s| then None
    else if s[i].name == name then Some(i)
    else FieldFrom(s, name, i + 1)
  }

  /** In a struct, a name denotes its one field. */
  lemma FieldByNameUnique(s: Schema, k: nat)
    requires UniqueNames(s) && k < |s|
    ensures FieldByName(s, s[k].name) == Some(k)
  {
  }

  /** The value of the named field, or "" when the struct has no such field. */
  function ValueByName(s: Schema, r: Record, name: string): string
    requires Fits(s, r)
  {
    match FieldByName(s, name)
    case Some(i) => r[i]
    case None => Zero
  }

  /** The zero value of a struct type: every field "". */
  function ZeroRecord(s: Schema): (r: Record)
    ensures Fits(s, r) && forall j :: 0 <= j < |r| ==> r[j] == Zero
  {
    seq(|s|, _ => Zero)
  }

  /**
   * Reference definition of the reflective copy from a `src` struct into a freshly
   * zeroed `dst` struct: a `dst` field receives the value of the `src` field of the
   * same name, and keeps its zero value when `src` has no field of that name.
   */
  function Mapped(src: Schema, r: Record, dst: Schema): (m: Record)
    requires Fits(src, r)
    ensures Fits(dst, m)
  {
    seq(|dst|, j requires 0 <= j < |dst| => ValueByName(src, r, dst[j].name))
  }

  /** Matching fields receive the source value; fields with no same-named source field stay zero. */
  lemma MappedFields(src: Schema, r: Record, dst: Schema)
    requires Fits(src, r) && UniqueNames(src)
    ensures var m := Mapped(src, r, dst);
      && (forall j, k :: 0 <= j < |dst| && 0 <= k < |src| && dst[j].name == src[k].name ==> m[j] == r[k])
      && (forall j :: 0 <= j < |dst| && !HasField(src, dst[j].name) ==> m[j] == Zero)
  {
  }

  /** The loop state of a copy that has visited the first `i` fields of `src`. */
  ghost predicate CopiedUpTo(src: Schema, r: Record, dst: Schema, out: Record, i: nat)
    requires Fits(src, r)
  {
    && Fits(dst, out)
    && forall j :: 0 <= j < |dst| ==>
         out[j] == match FieldByName(src, dst[j].name)
                   case Some(k) => if k < i then r[k] else Zero
                   case None => Zero
  }

  /** Visiting field `i` of `src` sets the same-named field of `dst`, if there is one. */
  lemma CopyStep(src: Schema, r: Record, dst: Schema, out: Record, i: nat)
    requires Fits(src, r) && UniqueNames(src) && UniqueNames(dst) && i < |src|
    requires CopiedUpTo(src, r, dst, out, i)
    ensures match FieldByName(dst, src[i].name)
            case Some(j) => CopiedUpTo(src, r, dst, out[j := r[i]], i + 1)
            case None => CopiedUpTo(src, r, dst, out, i + 1)
  {
    FieldByNameUnique(src, i);
    match FieldByName(dst, src[i].name)
    case Some(j) =>
      forall j' | 0 <= j' < |dst| && j' != j
        ensures FieldByName(src, dst[j'].name) != Some(i)
      {
        FieldByNameUnique(dst, j');
      }
    case None =>
  }

  lemma CopiedAll(src: Schema, r: Record, dst: Schema, out: Record)
    requires Fits(src, r) && UniqueNames(src)
    requires CopiedUpTo(src, r, dst, out, |src|)
    ensures out == Mapped(src, r, dst)
  {
  }

  /**
   * The loop shared by both teacher mappers: walk the fields of `src` in order and
   * set the `dst` field with the same name, starting from the zero `dst` value.
   */
  method CopySameNamedFields(src: Schema, r: Record, dst: Schema) returns (out: Record)
    requires Fits(src, r) && UniqueNames(src) && UniqueNames(dst)
    ensures out == Mapped(src, r, dst)
  {
    out := ZeroRecord(dst);
    var i := 0;
    while i < |src|
      invariant i <= |src|
      invariant CopiedUpTo(src, r, dst, out, i)
    {
      CopyStep(src, r, dst, out, i);
      match FieldByName(dst, src[i].name) {
        case Some(j) => out := out[j := r[i]];
        case None =>
      }
      i := i + 1;
    }
    CopiedAll(src, r, dst, out);
  }

  /**
   * The same copy, except that a zero source field is skipped rather than copied;
   * since the target starts at zero, the result is the same.
   */
  method CopyNonZeroFields(src: Schema, r: Record, dst: Schema) returns (out: Record)
    requires Fits(src, r) && UniqueNames(src) && UniqueNames(dst)
    ensures out == Mapped(src, r, dst)
  {
    out := ZeroRecord(dst);
    var i := 0;
    while i < |src|
      invariant i <= |src|
      invariant CopiedUpTo(src, r, dst, out, i)
    {
      CopyStep(src, r, dst, out, i);
      match FieldByName(dst, src[i].name) {
        case Some(j) =>
          if r[i] != Zero {
            out := out[j := r[i]];
          } else {
            assert out[j := r[i]] == out;
          }
        case None =>
      }
      i := i + 1;
    }
    CopiedAll(src, r, dst, out);
  }

  /** Every field name of `a` is also a field name of `b`. */
  predicate Covers(b: Schema, a: Schema) {
    forall i :: 0 <= i < |a| ==> HasField(b, a[i].name)
  }

  /** Copying into a struct that has all of the source's field names and back again is the identity. */
  lemma MappedRoundTrip(a: Schema, r: Record, b: Schema)
    requires Fits(a, r) && UniqueNames(a) && UniqueNames(b) && Covers(b, a)
    ensures Mapped(b, Mapped(a, r, b), a) == r
  {
    var m := Mapped(a, r, b);
    var back := Mapped(b, m, a);
    forall i | 0 <= i < |a|
      ensures back[i] == r[i]
    {
      var j := FieldByName(b, a[i].name).value;
      FieldByNameUnique(a, i);
      assert m[j] == r[i];
    }
  }

  /** The copy only ever moves strings: a field that is "" in the source stays "" in the target. */
  lemma MappedOfZeroIsZero(src: Schema, dst: Schema)
    requires UniqueNames(src)
    ensures Mapped(src, ZeroRecord(src), dst) == ZeroRecord(dst)
  {
  }

  /** The struct with `name` set to `v` and every other field unchanged (a Go field assignment). */
  function SetByName(s: Schema, r: Record, name: string, v: string): (u: Record)
    requires Fits(s, r)
    ensures Fits(s, u)
    ensures forall j :: 0 <= j < |s| ==> u[j] == if s[j].name == name && FieldByName(s, name) == Some(j) then v else r[j]
  {
    match FieldByName(s, name)
    case Some(i) => r[i := v]
    case None => r
  }
}
