/** Values of the store and of its export: hex blobs and the conversion between SQL and JSON scalars. */
module StoreValues {
  import opened Prelude

  type byte = x: int | 0 <= x < 256

  const I64_MAX: int := 0x7FFF_FFFF_FFFF_FFFF
  const I64_MIN: int := -0x8000_0000_0000_0000

  type i64 = x: int | I64_MIN <= x <= I64_MAX
  type u64 = x: int | 0 <= x <= U64_MAX

  datatype SqlValue =
    | Null
    | Integer(i: i64)
    | Real(f: Float)
    | Text(s: string)
    | RawText(bytes: seq<byte>)   // text that is not UTF-8
    | Blob(bytes: seq<byte>)

  /** serde_json scalars; arrays and objects by the text they print as. */
  datatype JsonValue =
    | JNull
    | JBool(b: bool)
    | JUnsigned(u: u64)
    | JNegative(n: i64)
    | JFloat(r: real)
    | JString(s: string)
    | JOther(text: string)

  datatype HexError = OddLength | Malformed

  // ---------------------------------------------------------------- hex

  function HexDigit(n: int): (c: char)
    requires 0 <= n < 16
  {
    if n < 10 then ('0' as int + n) as char else ('a' as int + n - 10) as char
  }

  function ByteHex(b: byte): string {
    [HexDigit(b / 16), HexDigit(b % 16)]
  }

  function Hex(bytes: seq<byte>): string {
    if bytes == [] then [] else Hex(bytes[..|bytes| - 1]) + ByteHex(bytes[|bytes| - 1])
  }

  method ToHex(bytes: seq<byte>) returns (s: string)
    ensures s == Hex(bytes)
  {
    s := "";
    for i := 0 to |bytes|
      invariant s == Hex(bytes[..i])
    {
      assert bytes[..i + 1][..i] == bytes[..i];
      s := s + ByteHex(bytes[i]);
    }
    assert bytes[..|bytes|] == bytes;
  }

  function DigitOf(c: char): Option<int> {
    if '0' <= c <= '9' then Some(c as int - '0' as int)
    else if 'a' <= c <= 'f' then Some(c as int - 'a' as int + 10)
    else if 'A' <= c <= 'F' then Some(c as int - 'A' as int + 10)
    else None
  }

  /** `u8::from_str_radix(_, 16)` on two characters: both digits, or a plus sign and a digit. */
  function PairValue(a: char, b: char): (r: Option<byte>)
  {
    var x, y := DigitOf(a), DigitOf(b);
    if y.None? then None
    else if x.Some? then Some(x.value * 16 + y.value)
    else if a == '+' then Some(y.value)
    else None
  }

  function Pairs(s: string): Option<seq<byte>>
    requires |s| % 2 == 0
  {
    if s == [] then Some([])
    else
      var n := |s| - 2;
      var front, last := Pairs(s[..n]), PairValue(s[n], s[n + 1]);
      if front.None? || last.None? then None else Some(front.value + [last.value])
  }

  function FromHex(s: string): Result<seq<byte>, HexError> {
    if |s| % 2 != 0 then Err(OddLength)
    else
      var r := Pairs(s);
      if r.None? then Err(Malformed) else Ok(r.value)
  }

  predicate LowerDigit(c: char) { '0' <= c <= '9' || 'a' <= c <= 'f' }

  /** What `to_hex` can write. */
  predicate LowerHex(s: string) {
    |s| % 2 == 0 && forall i | 0 <= i < |s| :: LowerDigit(s[i])
  }

  lemma DigitBack(n: int)
    requires 0 <= n < 16
    ensures LowerDigit(HexDigit(n)) && DigitOf(HexDigit(n)) == Some(n)
  {
  }

  lemma PairBack(b: byte)
    ensures PairValue(ByteHex(b)[0], ByteHex(b)[1]) == Some(b)
  {
  }

  /** Decoding undoes encoding, for every byte string. */
  lemma {:induction false} HexRoundTrip(bytes: seq<byte>)
    ensures LowerHex(Hex(bytes)) && |Hex(bytes)| == 2 * |bytes|
    ensures FromHex(Hex(bytes)) == Ok(bytes)
  {
    if bytes != [] {
      var n := |bytes| - 1;
      HexRoundTrip(bytes[..n]);
      assert bytes == bytes[..n] + [bytes[n]];
      PairBack(bytes[n]);
      DigitBack(bytes[n] / 16);
      DigitBack(bytes[n] % 16);
      var s, front := Hex(bytes), Hex(bytes[..n]);
      assert s[..|s| - 2] == front && s[|s| - 2] == ByteHex(bytes[n])[0] && s[|s| - 1] == ByteHex(bytes[n])[1];
    }
  }

  lemma PairCanonical(a: char, b: char)
    requires PairValue(a, b).Some?
    ensures ByteHex(PairValue(a, b).value) == [a, b] <==> LowerDigit(a) && LowerDigit(b)
  {
  }

  lemma LowerPair(a: char, b: char)
    requires LowerDigit(a) && LowerDigit(b)
    ensures PairValue(a, b).Some?
  {
  }

  /** Encoding undoes decoding exactly on lower-case hex: upper case and signs decode but come back changed. */
  lemma {:induction false} HexCanonical(s: string)
    requires |s| % 2 == 0
    ensures LowerHex(s) ==> Pairs(s).Some?
    ensures Pairs(s).Some? ==> |Hex(Pairs(s).value)| == |s| && (Hex(Pairs(s).value) == s <==> LowerHex(s))
  {
    if s != [] {
      var n := |s| - 2;
      HexCanonical(s[..n]);
      LowerHexSplit(s);
      if LowerDigit(s[n]) && LowerDigit(s[n + 1]) { LowerPair(s[n], s[n + 1]); }
      if Pairs(s).Some? {
        var front, last := Pairs(s[..n]).value, PairValue(s[n], s[n + 1]).value;
        PairCanonical(s[n], s[n + 1]);
        assert Pairs(s).value[..|front|] == front;
        HexSplit(s, Hex(front), ByteHex(last));
      }
    }
  }

  lemma LowerHexSplit(s: string)
    requires |s| % 2 == 0 && s != []
    ensures LowerHex(s) <==> LowerHex(s[..|s| - 2]) && LowerDigit(s[|s| - 2]) && LowerDigit(s[|s| - 1])
  {
  }

  lemma HexSplit(s: string, front: string, pair: string)
    requires |s| >= 2 && |pair| == 2 && |front| == |s| - 2
    ensures front + pair == s <==> front == s[..|s| - 2] && pair == [s[|s| - 2], s[|s| - 1]]
  {
  }

  predicate HexChar(c: char) {
    '0' <= c <= '9' || 'a' <= c <= 'f' || 'A' <= c <= 'F'
  }

  /** Lower case for letters, and a zero for a sign in front. */
  function Plain(c: char): char {
    if 'A' <= c <= 'F' then (c as int - 'A' as int + 'a' as int) as char else if c == '+' then '0' else c
  }

  function Plainly(s: string): string {
    seq(|s|, i requires 0 <= i < |s| => Plain(s[i]))
  }

  predicate PairDecodes(a: char, b: char) {
    (HexChar(a) || a == '+') && HexChar(b)
  }

  lemma DigitPlain(c: char)
    ensures DigitOf(c).Some? <==> HexChar(c)
    ensures HexChar(c) ==> 0 <= DigitOf(c).value < 16 && HexDigit(DigitOf(c).value) == Plain(c)
  {
  }

  lemma PairPlain(a: char, b: char)
    ensures PairValue(a, b).Some? <==> PairDecodes(a, b)
    ensures PairDecodes(a, b) ==> ByteHex(PairValue(a, b).value) == [Plain(a), Plain(b)]
  {
    DigitPlain(a);
    DigitPlain(b);
  }

  ghost predicate PairsDecode(s: string, n: nat)
    requires 2 * n <= |s|
  {
    forall i | 0 <= i < n :: PairDecodes(s[2 * i], s[2 * i + 1])
  }

  lemma PairsDecodeSplit(s: string, n: nat)
    requires |s| == 2 * n + 2
    ensures PairsDecode(s, n + 1) <==> PairsDecode(s[..2 * n], n) && PairDecodes(s[2 * n], s[2 * n + 1])
  {
    if PairsDecode(s, n + 1) {
      assert PairDecodes(s[2 * n], s[2 * n + 1]);
      forall i | 0 <= i < n ensures PairDecodes(s[..2 * n][2 * i], s[..2 * n][2 * i + 1]) {}
    }
    if PairsDecode(s[..2 * n], n) {
      forall i | 0 <= i < n ensures PairDecodes(s[2 * i], s[2 * i + 1]) {
        assert s[..2 * n][2 * i] == s[2 * i] && s[..2 * n][2 * i + 1] == s[2 * i + 1];
      }
    }
  }

  lemma {:induction false} PairsPlain(s: string, n: nat)
    requires |s| == 2 * n
    ensures Pairs(s).Some? <==> PairsDecode(s, n)
    ensures Pairs(s).Some? ==> Hex(Pairs(s).value) == Plainly(s)
  {
    if n > 0 {
      var m := 2 * (n - 1);
      PairsPlain(s[..m], n - 1);
      PairsDecodeSplit(s, n - 1);
      PairPlain(s[m], s[m + 1]);
      if Pairs(s).Some? { HexOneMore(s, Pairs(s[..m]).value, PairValue(s[m], s[m + 1]).value); }
    }
  }

  lemma HexOneMore(s: string, front: seq<byte>, last: byte)
    requires |s| >= 2 && Hex(front) == Plainly(s[..|s| - 2])
    requires ByteHex(last) == [Plain(s[|s| - 2]), Plain(s[|s| - 1])]
    ensures Hex(front + [last]) == Plainly(s)
  {
    assert (front + [last])[..|front|] == front;
    assert Plainly(s) == Plainly(s[..|s| - 2]) + [Plain(s[|s| - 2]), Plain(s[|s| - 1])];
  }

  /** Hex decodes exactly when it is pairs of two digits, or of a plus sign and a digit, in either case; what
      it decodes to is written back in lower case with a zero for the sign. */
  lemma {:induction false} HexDecodesIff(s: string)
    ensures FromHex(s) == Err(OddLength) <==> |s| % 2 != 0
    ensures FromHex(s).Ok? <==> |s| % 2 == 0 && forall i | 0 <= i < |s| / 2 :: PairDecodes(s[2 * i], s[2 * i + 1])
    ensures FromHex(s).Ok? ==> Hex(FromHex(s).value) == Plainly(s)
  {
    if |s| % 2 == 0 { PairsPlain(s, |s| / 2); }
  }

  // ---------------------------------------------------------------- SQL to JSON and back

  /** How invalid UTF-8 is repaired when it is exported. */
  type Repair = seq<byte> -> string

  function ToJson(v: SqlValue, repair: Repair): JsonValue {
    match v
    case Null => JNull
    case Integer(i) => if i >= 0 then JUnsigned(i) else JNegative(i)
    case Real(f) => if f.Finite? then JFloat(f.r) else JNull
    case Text(s) => JString(s)
    case RawText(b) => JString(repair(b))
    case Blob(b) => JString(Hex(b))
  }

  /** Rust's `u as i64`: values above the range wrap round. */
  function WrapSigned(u: u64): i64 {
    if u <= I64_MAX then u else u - U64_MAX - 1
  }

  function ToSql(j: JsonValue, isBlob: bool): Result<SqlValue, HexError> {
    match j
    case JNull => Ok(Null)
    case JBool(b) => Ok(Integer(if b then 1 else 0))
    case JUnsigned(u) => Ok(Integer(WrapSigned(u)))
    case JNegative(n) => Ok(Integer(n))
    case JFloat(r) => Ok(Real(Finite(r)))
    case JString(s) =>
      if !isBlob then Ok(Text(s))
      else
        var b := FromHex(s);
        if b.Err? then Err(b.error) else Ok(Blob(b.value))
    case JOther(text) => Ok(Text(text))
  }

  /** Numbers and words as they are imported: an unsigned number keeps its value modulo 2^64, booleans become
      0 and 1, and what is no scalar comes in as its text. */
  lemma {:induction false} ImportedScalars(u: u64, b: bool, n: i64, r: real, text: string, isBlob: bool)
    ensures ToSql(JUnsigned(u), isBlob).Ok? && ToSql(JUnsigned(u), isBlob).value.Integer?
    ensures (ToSql(JUnsigned(u), isBlob).value.i - u) % 0x1_0000_0000_0000_0000 == 0
    ensures ToSql(JBool(b), isBlob) == Ok(Integer(1)) <==> b
    ensures ToSql(JBool(b), isBlob) == Ok(Integer(0)) <==> !b
    ensures ToSql(JNegative(n), isBlob) == Ok(Integer(n)) && ToSql(JFloat(r), isBlob) == Ok(Real(Finite(r)))
    ensures ToSql(JOther(text), isBlob) == Ok(Text(text)) && ToSql(JNull, isBlob) == Ok(Null)
  {
  }

  /** What JSON cannot hold is exported as null, invalid text as repaired; an integer is unsigned unless it is
      negative. */
  lemma {:induction false} ExportedLosses(f: Float, i: i64, bytes: seq<byte>, repair: Repair)
    ensures ToJson(Real(f), repair) == JNull <==> !f.Finite?
    ensures ToJson(Integer(i), repair).JUnsigned? <==> i >= 0
    ensures ToJson(RawText(bytes), repair) == ToJson(Text(repair(bytes)), repair)
  {
  }

  /** Blobs only in BLOB columns, text only elsewhere, text valid and numbers finite. */
  predicate Storable(v: SqlValue, isBlob: bool) {
    match v
    case Text(_) => !isBlob
    case Blob(_) => isBlob
    case RawText(_) => false
    case Real(f) => f.Finite?
    case _ => true
  }

  /** A value survives export and import exactly when it is storable. */
  lemma {:induction false} ValueSurvivesIff(v: SqlValue, isBlob: bool, repair: Repair)
    ensures ToSql(ToJson(v, repair), isBlob) == Ok(v) <==> Storable(v, isBlob)
  {
    match v
    case Null =>
    case Integer(_) =>
    case Real(_) =>
    case Text(_) =>
    case RawText(_) =>
    case Blob(b) => HexRoundTrip(b);
  }

  /** The text an exported value shows in a BLOB column, if it is text in the store. */
  predicate BlobColumnText(v: SqlValue, repair: Repair) {
    match v
    case Text(s) => LowerHex(s)
    case RawText(b) => LowerHex(repair(b))
    case _ => true
  }

  /** An exported value imports and exports again as the same JSON exactly when it is not text in a BLOB
      column, or is lower-case hex there. */
  lemma {:induction false} ExportIsStableIff(v: SqlValue, isBlob: bool, repair: Repair)
    ensures var j := ToJson(v, repair);
      (ToSql(j, isBlob).Ok? && ToJson(ToSql(j, isBlob).value, repair) == j) <==> (isBlob ==> BlobColumnText(v, repair))
  {
    var j := ToJson(v, repair);
    if isBlob && j.JString? {
      if v.Blob? {
        HexRoundTrip(v.bytes);
      } else if |j.s| % 2 == 0 {
        HexCanonical(j.s);
      }
    }
  }
}
