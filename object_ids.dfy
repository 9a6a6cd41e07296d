/**
 * The twelve-byte document identifier of the document store and its textual form:
 * `ObjectIDFromHex` accepts exactly 24 hexadecimal digits (either case) and `Hex`
 * writes 24 lower-case digits. These two library calls are modelled here after
 * their documented behaviour; their code is not part of this model.
 */
module ObjectIds {
  import opened Wrappers

  newtype byte = x: int | 0 <= x < 256

  const IdBytes: nat := 12
  const HexLength: nat := 2 * IdBytes

  /** An identifier is always exactly twelve bytes. */
  type ObjectId = b: seq<byte> | |b| == IdBytes
    witness [0, 0, 0, 0, 0, 0, 0, 0, 0, 0, 0, 0]

  /** The value of one hexadecimal digit, or None for any other character. */
  function Nibble(c: char): (r: Option<nat>)
    ensures r.Some? ==> r.value < 16
  {
    if '0' <= c <= '9' then Some(c as nat - '0' as nat)
    else if 'a' <= c <= 'f' then Some(c as nat - 'a' as nat + 10)
    else if 'A' <= c <= 'F' then Some(c as nat - 'A' as nat + 10)
    else None
  }

  predicate IsHexDigit(c: char) {
    Nibble(c).Some?
  }

  predicate IsLowerHexDigit(c: char) {
    '0' <= c <= '9' || 'a' <= c <= 'f'
  }

  /** The lower-case digit for a value below 16. */
  function Digit(n: nat): (c: char)
    requires n < 16
    ensures IsLowerHexDigit(c) && Nibble(c) == Some(n)
  {
    if n < 10 then ('0' as nat + n) as char else ('a' as nat + n - 10) as char
  }

  /** The lower-case form of a hexadecimal digit. */
  function LowerDigit(c: char): (d: char)
    requires IsHexDigit(c)
    ensures IsLowerHexDigit(d) && Nibble(d) == Nibble(c)
  {
    Digit(Nibble(c).value)
  }

  /** Decodes pairs of digits into bytes, high nibble first; None at the first non-digit. */
  function DecodeHex(s: string): (r: Option<seq<byte>>)
    requires |s| % 2 == 0
    ensures r.Some? <==> forall i :: 0 <= i < |s| ==> IsHexDigit(s[i])
    ensures r.Some? ==> 2 * |r.value| == |s|
    decreases |s|
  {
    if s == [] then Some([])
    else
      var hi, lo := Nibble(s[0]), Nibble(s[1]);
      if hi.None? || lo.None? then None
      else
        match DecodeHex(s[2..])
        case None =>
          assert !forall i :: 0 <= i < |s| - 2 ==> IsHexDigit(s[2..][i]);
          None
        case Some(rest) =>
          Some([(hi.value * 16 + lo.value) as byte] + rest)
  }

  /** Encodes bytes as two lower-case digits each, high nibble first. */
  function EncodeHex(b: seq<byte>): (s: string)
    ensures |s| == 2 * |b|
    ensures forall i :: 0 <= i < |s| ==> IsLowerHexDigit(s[i])
  {
    if b == [] then []
    else [Digit(b[0] as nat / 16), Digit(b[0] as nat % 16)] + EncodeHex(b[1..])
  }

  /** `primitive.ObjectIDFromHex`: None stands for its error result. */
  function ObjectIdFromHex(s: string): (r: Option<ObjectId>)
    ensures r.Some? <==> |s| == HexLength && forall i :: 0 <= i < |s| ==> IsHexDigit(s[i])
  {
    if |s| != HexLength then None
    else match DecodeHex(s)
      case None => None
      case Some(b) => Some(b)
  }

  /** `ObjectID.Hex`. */
  function Hex(id: ObjectId): (s: string)
    ensures |s| == HexLength
    ensures forall i :: 0 <= i < |s| ==> IsLowerHexDigit(s[i])
  {
    EncodeHex(id)
  }

  /** The lower-case spelling of a string of hexadecimal digits. */
  function Lower(s: string): (r: string)
    requires forall i :: 0 <= i < |s| ==> IsHexDigit(s[i])
    ensures |r| == |s|
    ensures forall i :: 0 <= i < |s| ==> r[i] == LowerDigit(s[i])
  {
    seq(|s|, i requires 0 <= i < |s| => LowerDigit(s[i]))
  }

  lemma {:induction false} DecodeEncode(b: seq<byte>)
    ensures DecodeHex(EncodeHex(b)) == Some(b)
  {
    if b != [] {
      var s := EncodeHex(b);
      assert s[2..] == EncodeHex(b[1..]);
      DecodeEncode(b[1..]);
      var n := b[0] as nat;
      assert Nibble(s[0]) == Some(n / 16) && Nibble(s[1]) == Some(n % 16);
      assert (n / 16 * 16 + n % 16) as byte == b[0];
      assert [b[0]] + b[1..] == b;
    }
  }

  lemma {:induction false} EncodeDecode(s: string)
    requires |s| % 2 == 0
    requires DecodeHex(s).Some?
    ensures EncodeHex(DecodeHex(s).value) == Lower(s)
    decreases |s|
  {
    if s != [] {
      var b := DecodeHex(s).value;
      var hi, lo := Nibble(s[0]).value, Nibble(s[1]).value;
      assert b == [(hi * 16 + lo) as byte] + DecodeHex(s[2..]).value;
      EncodeDecode(s[2..]);
      assert b[1..] == DecodeHex(s[2..]).value;
      assert (hi * 16 + lo) / 16 == hi && (hi * 16 + lo) % 16 == lo;
      var e := EncodeHex(b);
      var l := Lower(s);
      assert e == [Digit(hi), Digit(lo)] + EncodeHex(b[1..]);
      assert forall i :: 0 <= i < |s| - 2 ==> Lower(s[2..])[i] == l[i + 2];
      assert l == [l[0], l[1]] + Lower(s[2..]);
    }
  }

  /** Formatting an identifier and parsing the text gives back the identifier. */
  lemma HexRoundTrip(id: ObjectId)
    ensures ObjectIdFromHex(Hex(id)) == Some(id)
  {
    DecodeEncode(id);
  }

  /** Parsing and formatting again gives the input text in lower case. */
  lemma FromHexRoundTrip(s: string)
    requires ObjectIdFromHex(s).Some?
    ensures Hex(ObjectIdFromHex(s).value) == Lower(s)
  {
    EncodeDecode(s);
  }
}
