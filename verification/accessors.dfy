/**
 * The type accessor table: per data type, the on-disk width (`size`), the arity
 * of the in-memory record (`length`), the record decoder (`read`), the registry
 * keyed by data-type code and the pool that dispatches on the structure type.
 */
module Accessors {
  import opened Results
  import opened Bytes
  import opened WireCodes
  import opened Runs
  import opened Seqs

  /** One value per accessor class the registry holds. */
  datatype Accessor =
    | BoolAccessor | LongAccessor | FloatAccessor | StringAccessor
    | Vector2Accessor | Vector3Accessor | Vector4Accessor
    | QuaternionAccessor | RotationAccessor | Color4Accessor
    | Matrix33Accessor | Matrix44Accessor | CustomTypeAccessor

  /**
   * A decoded record. Floats are kept as their raw 4-byte words: the model never
   * interprets IEEE values.
   */
  datatype Value =
    | Int(n: Word)
    | Flag(b: bool)
    | Floats(words: seq<Word>)
    | Str(bytes: seq<byte>)
    | NoValue

  /** How an accessor's `read` consumes the stream. */
  datatype ReadKind =
    | WordRead(asBool: bool)   // Long, or Bool when `asBool`
    | FloatsRead(count: nat)   // a tuple of `count` 32-bit floats
    | StringRead               // a length-prefixed, padded byte string
    | NoRead                   // the custom-type accessor reads nothing

  function KindOf(a: Accessor): ReadKind {
    match a
    case LongAccessor => WordRead(false)
    case BoolAccessor => WordRead(true)
    case StringAccessor => StringRead
    case CustomTypeAccessor => NoRead
    case _ => FloatsRead(Length(a))
  }

  /** The accessors whose record is a tuple of 32-bit floats. */
  predicate FloatTuple(a: Accessor) {
    KindOf(a).FloatsRead?
  }

  /** The accessors that read a fixed number of whole words per record. */
  predicate FixedWidth(a: Accessor) {
    KindOf(a).WordRead? || KindOf(a).FloatsRead?
  }

  /** The bytes one record of a fixed-width accessor spans. */
  function Width(a: Accessor): nat {
    4 * Length(a)
  }

  /** `length()`: the number of scalars in one in-memory record. */
  function Length(a: Accessor): nat {
    match a
    case BoolAccessor | LongAccessor | FloatAccessor | StringAccessor => 1
    case Vector2Accessor => 2
    case Vector3Accessor => 3
    case Vector4Accessor | QuaternionAccessor | RotationAccessor | Color4Accessor => 4
    case Matrix33Accessor => 9
    case Matrix44Accessor => 16
    case CustomTypeAccessor => 0
  }

  /** `size()`: the bytes one record occupies on disk; the custom-type accessor's inherited `size()` returns None. */
  function Size(a: Accessor): Option<nat> {
    match a
    case BoolAccessor | LongAccessor | FloatAccessor => Some(4)
    case StringAccessor => Some(0)
    case Vector2Accessor => Some(8)
    case Vector3Accessor => Some(12)
    case Vector4Accessor | QuaternionAccessor | RotationAccessor | Color4Accessor => Some(16)
    case Matrix33Accessor => Some(36)
    case Matrix44Accessor => Some(64)
    case CustomTypeAccessor => None
  }

  /** Every fixed-width record is `length()` words: size is four times length exactly for those accessors. */
  lemma SizeIsFourTimesLength(a: Accessor)
    ensures FixedWidth(a) <==> Size(a) == Some(4 * Length(a))
    ensures FixedWidth(a) ==> Length(a) >= 1
  {
  }

  /** The on-disk widths of the float tuples, in the order Float, Vector2/3/4, Quaternion, Color4, Matrix33/44. */
  lemma FloatTupleWidths()
    ensures Size(FloatAccessor) == Some(4) && Size(Vector2Accessor) == Some(8)
    ensures Size(Vector3Accessor) == Some(12) && Size(Vector4Accessor) == Some(16)
    ensures Size(QuaternionAccessor) == Some(16) && Size(Color4Accessor) == Some(16)
    ensures Size(Matrix33Accessor) == Some(36) && Size(Matrix44Accessor) == Some(64)
    ensures Size(LongAccessor) == Some(4) && Size(BoolAccessor) == Some(4)
  {
  }

  /** A length rounded up to the next multiple of four. */
  function Pad4(n: nat): (r: nat)
    ensures n <= r < n + 4
    ensures r % 4 == 0
  {
    if n % 4 > 0 then n + 4 - n % 4 else n
  }

  /** Pad4 is the least multiple of four that holds `n` bytes. */
  lemma Pad4IsLeast(n: nat, m: nat)
    requires m % 4 == 0 && n <= m
    ensures Pad4(n) <= m
  {
  }

  /**
   * The string accessor's read: a 4-byte length L, then L rounded up to a multiple
   * of four bytes, padding included. A short length word gives the empty string;
   * a short body gives whatever bytes are left. Neither raises.
   */
  function ReadString(s: seq<byte>, pos: nat): (r: (seq<byte>, nat))
    requires pos <= |s|
    ensures pos <= r.1 <= |s|
    ensures pos + 4 <= |s| && pos + 4 + Pad4(WordAt(s, pos)) <= |s| ==>
              r.0 == Segment(s, pos + 4, Pad4(WordAt(s, pos))) && r.1 == pos + 4 + Pad4(WordAt(s, pos))
    ensures !(pos + 4 <= |s| && pos + 4 + Pad4(WordAt(s, pos)) <= |s|) ==> r.1 == |s|
  {
    var (lengthBytes, p) := Take(s, pos, 4);
    if |lengthBytes| < 4 then ([], p)
    else Take(s, p, Pad4(WordAt(s, pos)))
  }

  /** The Long and Bool accessors: an unsigned word (made a boolean for Bool), or False when fewer than four bytes remain. */
  function ReadWord(s: seq<byte>, pos: nat, asBool: bool): (r: (Value, nat))
    requires pos <= |s|
  {
    var (bytes, p) := Take(s, pos, 4);
    if |bytes| < 4 then (Flag(false), p)
    else if asBool then (Flag(WordAt(s, pos) != 0), p)
    else (Int(WordAt(s, pos)), p)
  }

  /** The float-tuple accessors: `k` raw float words, or the empty tuple when fewer bytes remain. */
  function ReadFloats(s: seq<byte>, pos: nat, k: nat): (r: (Value, nat))
    requires pos <= |s|
  {
    var (bytes, p) := Take(s, pos, 4 * k);
    if |bytes| < 4 * k then (Floats([]), p) else (Floats(WordsAt(s, pos, k)), p)
  }

  /** `read()`: one record from the stream, never raising; a short read consumes what is left. */
  function Read(a: Accessor, s: seq<byte>, pos: nat): (r: (Value, nat))
    requires pos <= |s|
    ensures pos <= r.1 <= |s|
  {
    match KindOf(a)
    case NoRead => (NoValue, pos)
    case StringRead =>
      var (body, p) := ReadString(s, pos);
      (Str(body), p)
    case WordRead(asBool) => ReadWord(s, pos, asBool)
    case FloatsRead(k) => ReadFloats(s, pos, k)
  }

  /** A Long is read as an unsigned word; a Bool is false exactly when that word is zero. */
  lemma LongAndBoolDecoding(s: seq<byte>, pos: nat)
    requires pos + 4 <= |s|
    ensures Read(LongAccessor, s, pos) == (Int(WordAt(s, pos)), pos + 4)
    ensures Read(BoolAccessor, s, pos) == (Flag(WordAt(s, pos) != 0), pos + 4)
    ensures Read(BoolAccessor, s, pos).0 == Flag(false) <==> WordAt(s, pos) == 0
  {
  }

  /**
   * On a short read nothing raises: Long and Bool give False, the float tuples give
   * the empty tuple, and the stream is left at its end.
   */
  lemma ShortReads(a: Accessor, s: seq<byte>, pos: nat)
    requires FixedWidth(a) && pos <= |s| < pos + Width(a)
    ensures Read(a, s, pos).1 == |s|
    ensures a in {LongAccessor, BoolAccessor} ==> Read(a, s, pos).0 == Flag(false)
    ensures FloatTuple(a) ==> Read(a, s, pos).0 == Floats([])
  {
  }

  /** Rotation is the quaternion accessor under another name: same width, arity and reads. */
  lemma RotationIsQuaternion(s: seq<byte>, pos: nat)
    requires pos <= |s|
    ensures Size(RotationAccessor) == Size(QuaternionAccessor)
    ensures Length(RotationAccessor) == Length(QuaternionAccessor)
    ensures Read(RotationAccessor, s, pos) == Read(QuaternionAccessor, s, pos)
  {
  }

  /** The accessor got every byte it asked for. */
  predicate Complete(a: Accessor, s: seq<byte>, pos: nat) {
    match KindOf(a)
    case NoRead => true
    case StringRead => pos + 4 <= |s| && pos + 4 + Pad4(WordAt(s, pos)) <= |s|
    case _ => pos + Width(a) <= |s|
  }

  /**
   * A record read the decoder accepts: the accessor's value when the stream held the
   * whole record, Truncated otherwise.
   */
  function ReadRecord(a: Accessor, s: seq<byte>, pos: nat): (r: Result<(Value, nat)>)
    ensures r.Ok? <==> pos <= |s| && Complete(a, s, pos)
    ensures r.Ok? ==> r.value == Read(a, s, pos)
    ensures r.Ok? && FixedWidth(a) ==> r.value.1 == pos + Width(a)
    ensures r.Err? ==> r.error == Truncated
  {
    if pos <= |s| && Complete(a, s, pos) then Ok(Read(a, s, pos)) else Err(Truncated)
  }

  /** `ReadRecord` as one step of a run. */
  function RecordStep(a: Accessor, s: seq<byte>): Step<Value> {
    p => ReadRecord(a, s, p)
  }

  /** A record read never moves back and never passes the end of the stream. */
  lemma RecordStepBounds(a: Accessor, s: seq<byte>)
    ensures Advances(RecordStep(a, s), |s|)
  {
  }

  /** `n` records back to back; Truncated as soon as one of them is cut short. */
  function ReadRecords(a: Accessor, s: seq<byte>, pos: nat, n: nat): (r: Result<(seq<Value>, nat)>)
    requires pos <= |s|
    ensures r.Ok? ==> |r.value.0| == n && pos <= r.value.1 <= |s|
    ensures r.Err? ==> r.error == Truncated
  {
    RecordStepBounds(a, s);
    RunBounds(RecordStep(a, s), |s|, pos, n);
    RunError(RecordStep(a, s), Truncated, pos, n);
    Run(RecordStep(a, s), pos, n)
  }

  /**
   * A fixed-width accessor reads `n` records exactly when `n` records' bytes remain,
   * and then ends `n` widths further on.
   */
  lemma ReadRecordsFixedWidth(a: Accessor, s: seq<byte>, pos: nat, n: nat)
    requires FixedWidth(a) && pos <= |s|
    ensures ReadRecords(a, s, pos, n).Ok? <==> pos + n * Width(a) <= |s|
    ensures ReadRecords(a, s, pos, n).Ok? ==> ReadRecords(a, s, pos, n).value.1 == pos + n * Width(a)
  {
    assert Fixed(RecordStep(a, s), Width(a), |s|);
    RunFixed(RecordStep(a, s), Width(a), |s|, pos, n);
  }

  // ---- Encoding: the writer's side of each record, the partner of Read ----

  /** The bytes a string record occupies: its length, the bytes, zero padding to a multiple of four. */
  function EncodeString(b: seq<byte>): (r: seq<byte>)
    requires |b| < 0x1_0000_0000
    ensures |r| == 4 + Pad4(|b|)
  {
    EncodeWord(|b|) + b + seq(Pad4(|b|) - |b|, _ => 0 as byte)
  }

  /** A value the accessor could have produced from a complete record. */
  predicate WellFormed(a: Accessor, v: Value) {
    match KindOf(a)
    case WordRead(asBool) => if asBool then v.Flag? else v.Int?
    case FloatsRead(count) => v.Floats? && |v.words| == count
    case StringRead => v.Str? && |v.bytes| % 4 == 0 && |v.bytes| < 0x1_0000_0000
    case NoRead => v.NoValue?
  }

  function Encode(a: Accessor, v: Value): (r: seq<byte>)
    requires WellFormed(a, v)
    ensures FixedWidth(a) ==> |r| == Width(a)
  {
    match KindOf(a)
    case WordRead(asBool) => EncodeWord(if asBool then (if v.b then 1 else 0) else v.n)
    case FloatsRead(_) => EncodeWords(v.words)
    case StringRead => EncodeString(v.bytes)
    case NoRead => []
  }

  /** A string read returns the written bytes followed by their padding. */
  lemma ReadEncodedString(pre: seq<byte>, b: seq<byte>, post: seq<byte>)
    requires |b| < 0x1_0000_0000
    ensures ReadString(pre + EncodeString(b) + post, |pre|)
         == (b + seq(Pad4(|b|) - |b|, _ => 0 as byte), |pre| + 4 + Pad4(|b|))
  {
    var s := pre + EncodeString(b) + post;
    assert s == pre + EncodeWord(|b|) + (b + seq(Pad4(|b|) - |b|, _ => 0 as byte) + post);
    WordAtEncoded(pre, |b|, b + seq(Pad4(|b|) - |b|, _ => 0 as byte) + post);
    assert Segment(s, |pre| + 4, Pad4(|b|)) == b + seq(Pad4(|b|) - |b|, _ => 0 as byte);
  }

  /** Reading an encoded record gives the value back and moves past exactly its bytes. */
  lemma ReadEncoded(a: Accessor, pre: seq<byte>, v: Value, post: seq<byte>)
    requires WellFormed(a, v)
    ensures Complete(a, pre + Encode(a, v) + post, |pre|)
    ensures Read(a, pre + Encode(a, v) + post, |pre|) == (v, |pre| + |Encode(a, v)|)
  {
    if a == CustomTypeAccessor {
      assert pre + Encode(a, v) + post == pre + post;
    } else if a == StringAccessor {
      ReadEncodedStringRecord(pre, v.bytes, post);
    } else if a == LongAccessor || a == BoolAccessor {
      ReadEncodedWord(a, pre, v, post);
    } else {
      ReadEncodedFloatTuple(a, pre, v, post);
    }
  }

  lemma ReadEncodedWord(a: Accessor, pre: seq<byte>, v: Value, post: seq<byte>)
    requires a == LongAccessor || a == BoolAccessor
    requires WellFormed(a, v)
    ensures Complete(a, pre + Encode(a, v) + post, |pre|)
    ensures Read(a, pre + Encode(a, v) + post, |pre|) == (v, |pre| + |Encode(a, v)|)
  {
    WordAtEncoded(pre, if a == LongAccessor then v.n else if v.b then 1 else 0, post);
  }

  lemma ReadEncodedFloatTuple(a: Accessor, pre: seq<byte>, v: Value, post: seq<byte>)
    requires FloatTuple(a)
    requires WellFormed(a, v)
    ensures Complete(a, pre + Encode(a, v) + post, |pre|)
    ensures Read(a, pre + Encode(a, v) + post, |pre|) == (v, |pre| + |Encode(a, v)|)
  {
    assert Encode(a, v) == EncodeWords(v.words);
    ReadEncodedFloats(pre, v.words, post);
    assert Read(a, pre + Encode(a, v) + post, |pre|) == ReadFloats(pre + Encode(a, v) + post, |pre|, Length(a));
  }

  lemma ReadEncodedFloats(pre: seq<byte>, ws: seq<Word>, post: seq<byte>)
    ensures |pre| + 4 * |ws| <= |pre + EncodeWords(ws) + post|
    ensures ReadFloats(pre + EncodeWords(ws) + post, |pre|, |ws|) == (Floats(ws), |pre| + 4 * |ws|)
  {
    WordsAtEncoded(pre, ws, post);
  }

  lemma ReadEncodedStringRecord(pre: seq<byte>, b: seq<byte>, post: seq<byte>)
    requires |b| % 4 == 0 && |b| < 0x1_0000_0000
    ensures Complete(StringAccessor, pre + EncodeString(b) + post, |pre|)
    ensures ReadString(pre + EncodeString(b) + post, |pre|) == (b, |pre| + 4 + |b|)
  {
    ReadEncodedString(pre, b, post);
    var s := pre + EncodeString(b) + post;
    assert s == pre + EncodeWord(|b|) + (b + seq(Pad4(|b|) - |b|, _ => 0 as byte) + post);
    WordAtEncoded(pre, |b|, b + seq(Pad4(|b|) - |b|, _ => 0 as byte) + post);
    assert b + seq(Pad4(|b|) - |b|, _ => 0 as byte) == b;
  }

  predicate AllWellFormed(a: Accessor, vs: seq<Value>) {
    forall i :: 0 <= i < |vs| ==> WellFormed(a, vs[i])
  }

  /** The bytes of each record, in order. */
  function Pieces(a: Accessor, vs: seq<Value>): (r: seq<seq<byte>>)
    requires AllWellFormed(a, vs)
    ensures |r| == |vs| && forall i :: 0 <= i < |vs| ==> r[i] == Encode(a, vs[i])
  {
    seq(|vs|, i requires 0 <= i < |vs| => Encode(a, vs[i]))
  }

  /** The bytes of records written one after the other. */
  function EncodeAll(a: Accessor, vs: seq<Value>): seq<byte>
    requires AllWellFormed(a, vs)
  {
    Concat(Pieces(a, vs))
  }

  /** A record stored at `pos` reads back as itself. */
  lemma ReadRecordAt(a: Accessor, s: seq<byte>, pos: nat, v: Value)
    requires WellFormed(a, v) && At(s, pos, Encode(a, v))
    ensures Yields(ReadRecord(a, s, pos), v, pos + |Encode(a, v)|)
  {
    var pre, post := AtParts(s, pos, Encode(a, v));
    ReadEncoded(a, pre, v, post);
  }

  /** Records stored at `pos` read back as themselves, in order, and the read stops right after the last. */
  lemma ReadRecordsAt(a: Accessor, s: seq<byte>, pos: nat, vs: seq<Value>)
    requires AllWellFormed(a, vs) && At(s, pos, EncodeAll(a, vs))
    ensures pos <= |s| && Yields(ReadRecords(a, s, pos, |vs|), vs, pos + |EncodeAll(a, vs)|)
  {
    var pieces := Pieces(a, vs);
    var ends := Offsets(pieces, pos);
    ConcatAt(s, pos, pieces);
    OffsetsStep(pieces, pos);
    forall i | 0 <= i < |vs| ensures Yields(RecordStep(a, s)(ends[i]), vs[i], ends[i + 1]) {
      ReadRecordAt(a, s, ends[i], vs[i]);
    }
    RunReads(RecordStep(a, s), vs, ends);
    AtIndex(s, pos, EncodeAll(a, vs));
  }

  /** `n` encoded records read back as themselves, whatever surrounds them. */
  lemma ReadRecordsEncoded(a: Accessor, pre: seq<byte>, vs: seq<Value>, post: seq<byte>)
    requires AllWellFormed(a, vs)
    ensures |pre| <= |pre + EncodeAll(a, vs) + post|
    ensures Yields(ReadRecords(a, pre + EncodeAll(a, vs) + post, |pre|, |vs|), vs, |pre| + |EncodeAll(a, vs)|)
  {
    AtConcat(pre, EncodeAll(a, vs), post);
    ReadRecordsAt(a, pre + EncodeAll(a, vs) + post, |pre|, vs);
  }

  // ---- The registry and the pool ----

  /** The data-type code each accessor is registered under. */
  function Code(a: Accessor): Word {
    match a
    case BoolAccessor => DataBool
    case LongAccessor => DataLong
    case FloatAccessor => DataFloat
    case StringAccessor => DataString
    case Vector2Accessor => DataVector2
    case Vector3Accessor => DataVector3
    case Vector4Accessor => DataVector4
    case QuaternionAccessor => DataQuaternion
    case RotationAccessor => DataRotation
    case Color4Accessor => DataColor4
    case Matrix33Accessor => DataMatrix33
    case Matrix44Accessor => DataMatrix44
    case CustomTypeAccessor => DataCustomType
  }

  /** `dataAccessorMap`: the single-structure accessors keyed by data-type code. */
  const Registry: map<Word, Accessor> := map[
    DataBool := BoolAccessor,
    DataColor4 := Color4Accessor,
    DataCustomType := CustomTypeAccessor,
    DataFloat := FloatAccessor,
    DataLong := LongAccessor,
    DataMatrix33 := Matrix33Accessor,
    DataMatrix44 := Matrix44Accessor,
    DataQuaternion := QuaternionAccessor,
    DataRotation := RotationAccessor,
    DataString := StringAccessor,
    DataVector2 := Vector2Accessor,
    DataVector3 := Vector3Accessor,
    DataVector4 := Vector4Accessor
  ]

  /** `dataAccessor2DMap`: the array-structure table, whose only entry maps 0 to None. */
  const ArrayRegistry: map<Word, Option<Accessor>> := map[0 := None]

  /** The codes the registry holds. */
  lemma RegistryKeys()
    ensures Registry.Keys == {DataBool, DataColor4, DataCustomType, DataFloat, DataLong, DataMatrix33,
                              DataMatrix44, DataQuaternion, DataRotation, DataString, DataVector2,
                              DataVector3, DataVector4}
  {
  }

  /** Exactly thirteen data types are registered; Shape, Location and Geometry have no entry. */
  lemma RegistrySize()
    ensures |Registry| == 13
    ensures DataShape !in Registry && DataLocation !in Registry && DataGeometry !in Registry
  {
    assert DataShape !in Registry && DataLocation !in Registry && DataGeometry !in Registry;
    RegistryCount();
  }

  lemma RegistryCount()
    ensures |Registry| == 13
  {
    RegistryKeys();
    RegisteredCodesCount();
  }

  lemma RegisteredCodesCount()
    ensures |{DataBool, DataColor4, DataCustomType, DataFloat, DataLong, DataMatrix33,
              DataMatrix44, DataQuaternion, DataRotation, DataString, DataVector2,
              DataVector3, DataVector4}| == 13
  {
  }

  /** Each accessor is registered under its own code, and each registered code names its accessor. */
  lemma RegistryContents()
    ensures forall a: Accessor :: Code(a) in Registry && Registry[Code(a)] == a
    ensures forall dt :: dt in Registry ==> Code(Registry[dt]) == dt
  {
    RegistryKeys();
  }

  /**
   * `DataAccessorPool.accessor`: Single looks the type up in the registry, Array in the
   * array table (whose only value is None), anything else has no accessor.
   */
  function Pool(dataType: Word, structType: Word): (r: Option<Accessor>)
    ensures r.Some? <==> structType == StructureSingle && dataType in Registry
    ensures r.Some? ==> Code(r.value) == dataType
  {
    RegistryContents();
    if structType == StructureSingle then
      if dataType in Registry then Some(Registry[dataType]) else None
    else if structType == StructureArray then
      if dataType in ArrayRegistry then ArrayRegistry[dataType] else None
    else None
  }

  /** Every accessor is reachable through the pool under its own code and the Single structure. */
  lemma PoolFindsEveryAccessor(a: Accessor)
    ensures Pool(Code(a), StructureSingle) == Some(a)
  {
    RegistryContents();
  }
}
