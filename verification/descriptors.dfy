/**
 * Attribute descriptors: the records between the header and the data. Each holds a
 * name, a data type, the blob type names of a custom type, the structure and context
 * types, an object id, a category, and the point-locator size of a Location attribute.
 */
module Descriptors {
  import opened Results
  import opened Bytes
  import opened WireCodes
  import opened Accessors
  import opened Runs
  import opened Seqs

  datatype Attribute = Attribute(
    name: seq<byte>,
    dataType: Word,
    blobTypeNames: seq<seq<byte>>,
    structType: Word,
    contextType: Word,
    objectId: Word,
    category: Word,
    locatorSize: Word,
    isConstant: bool)

  /** The handler's `read_int` / `read_ulong`, where a word cut short makes the load fail. */
  function Int(s: seq<byte>, pos: nat): (r: Result<(Word, nat)>)
    ensures r.Ok? <==> pos + 4 <= |s|
    ensures r.Ok? ==> r.value.0 == WordAt(s, pos) && r.value.1 == pos + 4
    ensures r.Err? ==> r.error == Truncated
  {
    match ReadInt(s, pos)
    case None => Err(Truncated)
    case Some(x) => Ok(x)
  }

  /** `read_name` as one step of a run: the string accessor's lenient read, which never fails inside the stream. */
  function NameStep(s: seq<byte>): Step<seq<byte>> {
    (p: nat) => if p <= |s| then Ok(ReadString(s, p)) else Err(Truncated)
  }

  /** `n` names read with `read_name`, one after the other. */
  function ReadNames(s: seq<byte>, pos: nat, n: nat): (r: Result<(seq<seq<byte>>, nat)>)
    requires pos <= |s|
    ensures r.Ok? && |r.value.0| == n && pos <= r.value.1 <= |s|
  {
    assert Advances(NameStep(s), |s|) && Total(NameStep(s), |s|);
    RunTotal(NameStep(s), |s|, pos, n);
    RunBounds(NameStep(s), |s|, pos, n);
    Run(NameStep(s), pos, n)
  }

  /** A custom type's blob type names: a count, then that many names. */
  function ReadBlobNames(s: seq<byte>, pos: nat): (r: Result<(seq<seq<byte>>, nat)>)
    requires pos <= |s|
    ensures r.Ok? <==> pos + 4 <= |s|
    ensures r.Ok? ==> |r.value.0| == WordAt(s, pos) && pos + 4 <= r.value.1 <= |s|
  {
    var count :- Int(s, pos);
    ReadNames(s, count.1, count.0)
  }

  /** The blob names, which only a custom type stores. */
  function ReadBlobStage(s: seq<byte>, pos: nat, dataType: Word): (r: Result<(seq<seq<byte>>, nat)>)
    requires pos <= |s|
    ensures r.Ok? ==> pos <= r.value.1 <= |s|
    ensures dataType != DataCustomType ==> Yields(r, [], pos)
  {
    if dataType == DataCustomType then ReadBlobNames(s, pos) else Ok(([], pos))
  }

  /** Structure, context, object id and category: four words in that order. */
  function ReadFixedWords(s: seq<byte>, pos: nat): (r: Result<(seq<Word>, nat)>)
    requires pos <= |s|
    ensures r.Ok? <==> pos + 16 <= |s|
    ensures r.Ok? ==> r.value.0 == WordsAt(s, pos, 4) && r.value.1 == pos + 16
    ensures r.Err? ==> r.error == Truncated
  {
    match ReadInts(s, pos, 4)
    case None => Err(Truncated)
    case Some(x) => Ok(x)
  }

  /** The point-locator size, which only a Location attribute stores; zero otherwise. */
  function ReadLocatorStage(s: seq<byte>, pos: nat, dataType: Word): (r: Result<(Word, nat)>)
    ensures dataType != DataLocation ==> Yields(r, 0, pos)
    ensures dataType == DataLocation ==> r == Int(s, pos)
  {
    if dataType == DataLocation then Int(s, pos) else Ok((0, pos))
  }

  /**
   * `Attribute.read`, with the blob-name loop reading the names it counts: name, data
   * type, [blob names], structure, context, object id, category, [locator size].
   * The constant flag starts out true; the data section sets it.
   */
  function ReadAttribute(s: seq<byte>, pos: nat): (r: Result<(Attribute, nat)>)
    requires pos <= |s|
    ensures r.Ok? ==> pos + 24 <= r.value.1 <= |s|
    ensures r.Err? ==> r.error == Truncated
  {
    var name := ReadString(s, pos);
    var dataType :- Int(s, name.1);
    var blobs :- ReadBlobStage(s, dataType.1, dataType.0);
    var fixed :- ReadFixedWords(s, blobs.1);
    var locator :- ReadLocatorStage(s, fixed.1, dataType.0);
    var ws := fixed.0;
    Ok((Attribute(name.0, dataType.0, blobs.0, ws[0], ws[1], ws[2], ws[3], locator.0, true), locator.1))
  }

  /**
   * Where a descriptor's fields come from: the name first, the data-type word right
   * after it, blob names only for a custom type, the category last but for a Location
   * attribute, which ends with its point-locator size.
   */
  lemma ReadAttributeFields(s: seq<byte>, pos: nat)
    requires pos <= |s| && ReadAttribute(s, pos).Ok?
    ensures var a, end := ReadAttribute(s, pos).value.0, ReadAttribute(s, pos).value.1;
      && ReadString(s, pos).1 + 4 <= |s|
      && a.name == ReadString(s, pos).0
      && a.dataType == WordAt(s, ReadString(s, pos).1)
      && (a.dataType != DataCustomType ==> a.blobTypeNames == [])
      && (a.dataType != DataLocation ==> a.locatorSize == 0 && WordAt(s, end - 4) == a.category)
      && (a.dataType == DataLocation ==> WordAt(s, end - 4) == a.locatorSize && WordAt(s, end - 8) == a.category)
      && a.isConstant
  {
    var p1 := ReadString(s, pos).1;
    var dataType := Int(s, p1).value.0;
    var blobs := ReadBlobStage(s, p1 + 4, dataType).value;
    var ws := WordsAt(s, blobs.1, 4);
    assert ws[3] == WordAt(s, blobs.1 + 12);
  }

  /**
   * `Attribute.read` as written: the blob-name loop appends to `attrib`, a name not
   * bound in that method, so any custom type with one or more blob names raises there.
   */
  function ReadAttributeAsWritten(s: seq<byte>, pos: nat): (r: Result<(Attribute, nat)>)
    requires pos <= |s|
  {
    var (_, p1) := ReadString(s, pos);
    match ReadInt(s, p1)
    case Some((dataType, p2)) =>
      if dataType == DataCustomType && p2 + 4 <= |s| && WordAt(s, p2) > 0 then Err(ProgramError)
      else ReadAttribute(s, pos)
    case None => ReadAttribute(s, pos)
  }

  /** `Attribute.read` as one step of a run. */
  function AttributeStep(s: seq<byte>): Step<Attribute> {
    (p: nat) => if p <= |s| then ReadAttribute(s, p) else Err(Truncated)
  }

  /** `__read_attributes_desc__`: exactly `n` descriptors, in file order. */
  function ReadAttributes(s: seq<byte>, pos: nat, n: nat): (r: Result<(seq<Attribute>, nat)>)
    requires pos <= |s|
    ensures r.Ok? ==> |r.value.0| == n && pos <= r.value.1 <= |s|
    ensures r.Err? ==> r.error == Truncated
  {
    assert Advances(AttributeStep(s), |s|) && FailsWith(AttributeStep(s), Truncated);
    RunBounds(AttributeStep(s), |s|, pos, n);
    RunError(AttributeStep(s), Truncated, pos, n);
    Run(AttributeStep(s), pos, n)
  }

  /** A descriptor without blob type names: the only kind the as-written blob loop lets through. */
  predicate BlobFree(a: Attribute) {
    a.blobTypeNames == []
  }

  /**
   * Wherever the corrected read finds a descriptor, the as-written read finds the same
   * one when it has no blob names and raises when it has some.
   */
  lemma AsWrittenOnRead(s: seq<byte>, pos: nat)
    requires pos <= |s| && ReadAttribute(s, pos).Ok?
    ensures ReadAttributeAsWritten(s, pos) ==
      if BlobFree(ReadAttribute(s, pos).value.0) then ReadAttribute(s, pos) else Err(ProgramError)
  {
    var p1 := ReadString(s, pos).1;
    var dataType := Int(s, p1).value;
    if dataType.0 == DataCustomType {
      assert ReadBlobStage(s, dataType.1, dataType.0) == ReadBlobNames(s, dataType.1);
      assert |ReadAttribute(s, pos).value.0.blobTypeNames| == WordAt(s, dataType.1);
    }
  }

  /** `Attribute.read` as written, as one step of a run. */
  function AttributeStepAsWritten(s: seq<byte>): Step<Attribute> {
    (p: nat) => if p <= |s| then ReadAttributeAsWritten(s, p) else Err(Truncated)
  }

  /** The as-written step reads what the corrected one reads where that finds no blob names, and raises where it does. */
  lemma AttributeStepSplits(s: seq<byte>)
    ensures AgreesOrFails(AttributeStepAsWritten(s), AttributeStep(s), ProgramError)
    ensures SplitsOn(AttributeStepAsWritten(s), AttributeStep(s), BlobFree, ProgramError)
  {
    forall p: nat | AttributeStep(s)(p).Ok?
      ensures AttributeStepAsWritten(s)(p) ==
        if BlobFree(AttributeStep(s)(p).value.0) then AttributeStep(s)(p) else Err(ProgramError)
    {
      AsWrittenOnRead(s, p);
    }
  }

  /**
   * `__read_attributes_desc__` with `Attribute.read` as written. It reads what the
   * corrected loop reads or raises; when the corrected loop reads every descriptor,
   * it raises exactly when one of them has blob names.
   */
  function ReadAttributesAsWritten(s: seq<byte>, pos: nat, n: nat): (r: Result<(seq<Attribute>, nat)>)
    requires pos <= |s|
    ensures r == ReadAttributes(s, pos, n) || r == Err(ProgramError)
    ensures ReadAttributes(s, pos, n).Ok? ==>
      r == if forall i :: 0 <= i < n ==> BlobFree(ReadAttributes(s, pos, n).value.0[i]) then ReadAttributes(s, pos, n) else Err(ProgramError)
  {
    AsWrittenRun(s, pos, n);
    Run(AttributeStepAsWritten(s), pos, n)
  }

  lemma AsWrittenRun(s: seq<byte>, pos: nat, n: nat)
    requires pos <= |s|
    ensures Run(AttributeStepAsWritten(s), pos, n) == ReadAttributes(s, pos, n) || Run(AttributeStepAsWritten(s), pos, n) == Err(ProgramError)
    ensures ReadAttributes(s, pos, n).Ok? ==>
      Run(AttributeStepAsWritten(s), pos, n) ==
        if forall i :: 0 <= i < n ==> BlobFree(ReadAttributes(s, pos, n).value.0[i]) then ReadAttributes(s, pos, n) else Err(ProgramError)
  {
    AttributeStepSplits(s);
    RunAgreesOrFails(AttributeStepAsWritten(s), AttributeStep(s), ProgramError, pos, n);
    if ReadAttributes(s, pos, n).Ok? {
      RunSplitsOn(AttributeStepAsWritten(s), AttributeStep(s), BlobFree, ProgramError, pos, n);
    }
  }

  // ---- Encoding: the writer's side of a descriptor ----

  /** A name as `read_name` returns it: already padded to a multiple of four bytes. */
  predicate PaddedName(b: seq<byte>) {
    |b| % 4 == 0 && |b| < 0x1_0000_0000
  }

  predicate AllPadded(names: seq<seq<byte>>) {
    forall i :: 0 <= i < |names| ==> PaddedName(names[i])
  }

  /** A descriptor the format can hold and `ReadAttribute` can give back. */
  predicate WellFormed(a: Attribute) {
    && PaddedName(a.name)
    && AllPadded(a.blobTypeNames)
    && |a.blobTypeNames| < 0x1_0000_0000
    && (a.dataType != DataCustomType ==> a.blobTypeNames == [])
    && (a.dataType != DataLocation ==> a.locatorSize == 0)
    && a.isConstant
  }

  /** The bytes of each name, in order. */
  function NamePieces(names: seq<seq<byte>>): (r: seq<seq<byte>>)
    requires AllPadded(names)
    ensures |r| == |names| && forall i :: 0 <= i < |names| ==> r[i] == EncodeString(names[i])
  {
    seq(|names|, i requires 0 <= i < |names| => assert PaddedName(names[i]); EncodeString(names[i]))
  }

  /** The bytes of names written one after the other. */
  function EncodeNames(names: seq<seq<byte>>): seq<byte>
    requires AllPadded(names)
  {
    Concat(NamePieces(names))
  }

  function EncodeBlobNames(a: Attribute): seq<byte>
    requires WellFormed(a)
  {
    if a.dataType == DataCustomType then EncodeWord(|a.blobTypeNames|) + EncodeNames(a.blobTypeNames) else []
  }

  function EncodeLocator(a: Attribute): seq<byte>
    requires WellFormed(a)
  {
    if a.dataType == DataLocation then EncodeWord(a.locatorSize) else []
  }

  /** The bytes of one descriptor, in the order `Attribute.read` consumes them. */
  function EncodeAttribute(a: Attribute): seq<byte>
    requires WellFormed(a)
  {
    EncodeString(a.name) + EncodeWord(a.dataType) + EncodeBlobNames(a)
      + EncodeWords([a.structType, a.contextType, a.objectId, a.category]) + EncodeLocator(a)
  }

  predicate AllWellFormed(attrs: seq<Attribute>) {
    forall i :: 0 <= i < |attrs| ==> WellFormed(attrs[i])
  }

  /** The bytes of each descriptor, in order. */
  function AttributePieces(attrs: seq<Attribute>): (r: seq<seq<byte>>)
    requires AllWellFormed(attrs)
    ensures |r| == |attrs| && forall i :: 0 <= i < |attrs| ==> r[i] == EncodeAttribute(attrs[i])
  {
    seq(|attrs|, i requires 0 <= i < |attrs| => EncodeAttribute(attrs[i]))
  }

  /** The bytes of descriptors written one after the other. */
  function EncodeAttributes(attrs: seq<Attribute>): seq<byte>
    requires AllWellFormed(attrs)
  {
    Concat(AttributePieces(attrs))
  }

  /** A padded name stored at `pos` reads back as itself. */
  lemma NameAt(s: seq<byte>, pos: nat, name: seq<byte>)
    requires PaddedName(name) && At(s, pos, EncodeString(name))
    ensures pos <= |s| && ReadString(s, pos).0 == name && ReadString(s, pos).1 == pos + |EncodeString(name)|
  {
    var pre, post := AtParts(s, pos, EncodeString(name));
    ReadEncodedStringRecord(pre, name, post);
  }

  /** A word stored at `pos` is read whole. */
  lemma IntAt(s: seq<byte>, pos: nat, w: Word)
    requires At(s, pos, EncodeWord(w))
    ensures Yields(Int(s, pos), w, pos + 4)
  {
    WordAtAt(s, pos, w);
  }

  /** Padded names stored at `pos` read back as themselves, and the read stops right after the last. */
  lemma ReadNamesAt(s: seq<byte>, pos: nat, names: seq<seq<byte>>)
    requires AllPadded(names) && At(s, pos, EncodeNames(names))
    ensures pos <= |s| && Yields(ReadNames(s, pos, |names|), names, pos + |EncodeNames(names)|)
  {
    var pieces := NamePieces(names);
    var ends := Offsets(pieces, pos);
    ConcatAt(s, pos, pieces);
    OffsetsStep(pieces, pos);
    AtIndex(s, pos, EncodeNames(names));
    forall i | 0 <= i < |names| ensures Yields(NameStep(s)(ends[i]), names[i], ends[i + 1]) {
      assert PaddedName(names[i]);
      NameAt(s, ends[i], names[i]);
    }
    RunReads(NameStep(s), names, ends);
  }

  /** Padded names read back as themselves, whatever surrounds them. */
  lemma ReadNamesEncoded(pre: seq<byte>, names: seq<seq<byte>>, post: seq<byte>)
    requires AllPadded(names)
    ensures |pre| <= |pre + EncodeNames(names) + post|
    ensures Yields(ReadNames(pre + EncodeNames(names) + post, |pre|, |names|), names, |pre| + |EncodeNames(names)|)
  {
    AtConcat(pre, EncodeNames(names), post);
    ReadNamesAt(pre + EncodeNames(names) + post, |pre|, names);
  }

  /** A custom type's blob section reads back as its names, and opens with their count. */
  lemma BlobNamesAt(s: seq<byte>, pos: nat, a: Attribute)
    requires WellFormed(a) && a.dataType == DataCustomType && At(s, pos, EncodeBlobNames(a))
    ensures pos + 4 <= |s| && WordAt(s, pos) == |a.blobTypeNames|
    ensures Yields(ReadBlobNames(s, pos), a.blobTypeNames, pos + |EncodeBlobNames(a)|)
  {
    var count, names := EncodeWord(|a.blobTypeNames|), EncodeNames(a.blobTypeNames);
    assert EncodeBlobNames(a) == count + names;
    AtSplit(s, pos, count, names);
    IntAt(s, pos, |a.blobTypeNames|);
    ReadNamesAt(s, pos + 4, a.blobTypeNames);
  }

  /** A custom type's blob names read back from their count and their names. */
  lemma ReadBlobNamesEncoded(pre: seq<byte>, a: Attribute, post: seq<byte>)
    requires WellFormed(a) && a.dataType == DataCustomType
    ensures |pre| <= |pre + EncodeBlobNames(a) + post|
    ensures Yields(ReadBlobNames(pre + EncodeBlobNames(a) + post, |pre|), a.blobTypeNames, |pre| + |EncodeBlobNames(a)|)
  {
    AtConcat(pre, EncodeBlobNames(a), post);
    BlobNamesAt(pre + EncodeBlobNames(a) + post, |pre|, a);
  }

  lemma BlobStageAt(s: seq<byte>, pos: nat, a: Attribute)
    requires WellFormed(a) && At(s, pos, EncodeBlobNames(a))
    ensures pos <= |s| && Yields(ReadBlobStage(s, pos, a.dataType), a.blobTypeNames, pos + |EncodeBlobNames(a)|)
  {
    if a.dataType == DataCustomType {
      BlobNamesAt(s, pos, a);
    }
  }

  lemma FixedAt(s: seq<byte>, pos: nat, ws: seq<Word>)
    requires |ws| == 4 && At(s, pos, EncodeWords(ws))
    ensures pos <= |s| && Yields(ReadFixedWords(s, pos), ws, pos + 16)
  {
    WordsAtAt(s, pos, ws);
  }

  lemma LocatorStageAt(s: seq<byte>, pos: nat, a: Attribute)
    requires WellFormed(a) && At(s, pos, EncodeLocator(a))
    ensures Yields(ReadLocatorStage(s, pos, a.dataType), a.locatorSize, pos + |EncodeLocator(a)|)
  {
    if a.dataType == DataLocation {
      IntAt(s, pos, a.locatorSize);
    }
  }

  function FixedWordsOf(a: Attribute): seq<Word> {
    [a.structType, a.contextType, a.objectId, a.category]
  }

  /** A stored descriptor: its five pieces, one after the other. */
  lemma AttributeSplit(s: seq<byte>, pos: nat, a: Attribute)
    requires WellFormed(a) && At(s, pos, EncodeAttribute(a))
    ensures At(s, pos, EncodeString(a.name))
    ensures At(s, pos + |EncodeString(a.name)|, EncodeWord(a.dataType))
    ensures At(s, pos + |EncodeString(a.name)| + 4, EncodeBlobNames(a))
    ensures At(s, pos + |EncodeString(a.name)| + 4 + |EncodeBlobNames(a)|, EncodeWords(FixedWordsOf(a)))
    ensures At(s, pos + |EncodeString(a.name)| + 4 + |EncodeBlobNames(a)| + 16, EncodeLocator(a))
  {
    var n, d, b, w, l := EncodeString(a.name), EncodeWord(a.dataType), EncodeBlobNames(a), EncodeWords(FixedWordsOf(a)), EncodeLocator(a);
    assert EncodeAttribute(a) == n + d + b + w + l;
    AtSplit(s, pos, n + d + b + w, l);
    AtSplit(s, pos, n + d + b, w);
    AtSplit(s, pos, n + d, b);
    AtSplit(s, pos, n, d);
  }

  /** The length of a stored descriptor is the sum of its pieces. */
  lemma AttributeLength(a: Attribute)
    requires WellFormed(a)
    ensures |EncodeAttribute(a)| == |EncodeString(a.name)| + 4 + |EncodeBlobNames(a)| + 16 + |EncodeLocator(a)|
  {
  }

  /** `ReadAttribute` is its stages run one after the other. */
  lemma ReadAttributeStages(s: seq<byte>, pos: nat, a: Attribute, p1: nat, p2: nat, p3: nat, p4: nat, p5: nat)
    requires pos <= |s| && a.isConstant
    requires ReadString(s, pos).0 == a.name && ReadString(s, pos).1 == p1
    requires Yields(Int(s, p1), a.dataType, p2)
    requires Yields(ReadBlobStage(s, p2, a.dataType), a.blobTypeNames, p3)
    requires Yields(ReadFixedWords(s, p3), FixedWordsOf(a), p4)
    requires Yields(ReadLocatorStage(s, p4, a.dataType), a.locatorSize, p5)
    ensures Yields(ReadAttribute(s, pos), a, p5)
  {
  }

  /** A descriptor stored at `pos` reads back as itself and the read stops right after it. */
  lemma ReadAttributeAt(s: seq<byte>, pos: nat, a: Attribute)
    requires WellFormed(a) && At(s, pos, EncodeAttribute(a))
    ensures pos <= |s| && Yields(ReadAttribute(s, pos), a, pos + |EncodeAttribute(a)|)
  {
    AttributeSplit(s, pos, a);
    var p1 := pos + |EncodeString(a.name)|;
    var p2 := p1 + 4;
    var p3 := p2 + |EncodeBlobNames(a)|;
    var p4 := p3 + 16;
    var p5 := p4 + |EncodeLocator(a)|;
    NameAt(s, pos, a.name);
    IntAt(s, p1, a.dataType);
    BlobStageAt(s, p2, a);
    FixedAt(s, p3, FixedWordsOf(a));
    LocatorStageAt(s, p4, a);
    ReadAttributeStages(s, pos, a, p1, p2, p3, p4, p5);
    AttributeLength(a);
  }

  /** Reading an encoded descriptor gives it back and stops right after it, whatever surrounds it. */
  lemma ReadEncodedAttribute(pre: seq<byte>, a: Attribute, post: seq<byte>)
    requires WellFormed(a)
    ensures |pre| <= |pre + EncodeAttribute(a) + post|
    ensures Yields(ReadAttribute(pre + EncodeAttribute(a) + post, |pre|), a, |pre| + |EncodeAttribute(a)|)
  {
    AtConcat(pre, EncodeAttribute(a), post);
    ReadAttributeAt(pre + EncodeAttribute(a) + post, |pre|, a);
  }

  /** Descriptors stored at `pos` read back as themselves, in order, and the read stops right after the last. */
  lemma ReadAttributesAt(s: seq<byte>, pos: nat, attrs: seq<Attribute>)
    requires AllWellFormed(attrs) && At(s, pos, EncodeAttributes(attrs))
    ensures pos <= |s| && Yields(ReadAttributes(s, pos, |attrs|), attrs, pos + |EncodeAttributes(attrs)|)
  {
    var pieces := AttributePieces(attrs);
    var ends := Offsets(pieces, pos);
    ConcatAt(s, pos, pieces);
    OffsetsStep(pieces, pos);
    AtIndex(s, pos, EncodeAttributes(attrs));
    forall i | 0 <= i < |attrs| ensures Yields(AttributeStep(s)(ends[i]), attrs[i], ends[i + 1]) {
      assert WellFormed(attrs[i]);
      ReadAttributeAt(s, ends[i], attrs[i]);
    }
    RunReads(AttributeStep(s), attrs, ends);
  }

  /** Encoded descriptors read back as themselves, in order, whatever surrounds them. */
  lemma ReadEncodedAttributes(pre: seq<byte>, attrs: seq<Attribute>, post: seq<byte>)
    requires AllWellFormed(attrs)
    ensures |pre| <= |pre + EncodeAttributes(attrs) + post|
    ensures Yields(ReadAttributes(pre + EncodeAttributes(attrs) + post, |pre|, |attrs|), attrs, |pre| + |EncodeAttributes(attrs)|)
  {
    AtConcat(pre, EncodeAttributes(attrs), post);
    ReadAttributesAt(pre + EncodeAttributes(attrs) + post, |pre|, attrs);
  }

  /** The as-written read raises exactly on a custom type that counts one or more blob names, and otherwise is `ReadAttribute`. */
  lemma AsWrittenDecides(s: seq<byte>, pos: nat, a: Attribute, p1: nat, p2: nat)
    requires pos <= |s| && WellFormed(a)
    requires ReadString(s, pos).1 == p1 && Yields(Int(s, p1), a.dataType, p2)
    requires a.dataType == DataCustomType ==> p2 + 4 <= |s| && WordAt(s, p2) == |a.blobTypeNames|
    ensures ReadAttributeAsWritten(s, pos) == if a.blobTypeNames != [] then Err(ProgramError) else ReadAttribute(s, pos)
  {
  }

  /** A stored descriptor's name and data type read back, and a custom type's blob count follows them. */
  lemma NameAndTypeAt(s: seq<byte>, pos: nat, a: Attribute)
    requires WellFormed(a) && At(s, pos, EncodeAttribute(a))
    ensures pos <= |s| && ReadString(s, pos).1 == pos + |EncodeString(a.name)|
    ensures Yields(Int(s, pos + |EncodeString(a.name)|), a.dataType, pos + |EncodeString(a.name)| + 4)
    ensures a.dataType == DataCustomType ==>
      pos + |EncodeString(a.name)| + 8 <= |s| && WordAt(s, pos + |EncodeString(a.name)| + 4) == |a.blobTypeNames|
  {
    AttributeSplit(s, pos, a);
    NameAt(s, pos, a.name);
    IntAt(s, pos + |EncodeString(a.name)|, a.dataType);
    if a.dataType == DataCustomType {
      BlobNamesAt(s, pos + |EncodeString(a.name)| + 4, a);
    }
  }

  /**
   * The as-written read agrees with `ReadAttribute` on every descriptor without blob
   * names, and raises on every custom type that has one or more, which the corrected
   * read gives back whole.
   */
  lemma BlobNameLoopRaises(pre: seq<byte>, a: Attribute, post: seq<byte>)
    requires WellFormed(a)
    ensures |pre| <= |pre + EncodeAttribute(a) + post|
    ensures a.blobTypeNames == [] ==>
      Yields(ReadAttributeAsWritten(pre + EncodeAttribute(a) + post, |pre|), a, |pre| + |EncodeAttribute(a)|)
    ensures a.blobTypeNames != [] ==>
      && ReadAttributeAsWritten(pre + EncodeAttribute(a) + post, |pre|) == Err(ProgramError)
      && Yields(ReadAttribute(pre + EncodeAttribute(a) + post, |pre|), a, |pre| + |EncodeAttribute(a)|)
  {
    AtConcat(pre, EncodeAttribute(a), post);
    BlobLoopAt(pre + EncodeAttribute(a) + post, |pre|, a);
  }

  /** `BlobNameLoopRaises` for a descriptor stored at `pos`. */
  lemma BlobLoopAt(s: seq<byte>, pos: nat, a: Attribute)
    requires WellFormed(a) && At(s, pos, EncodeAttribute(a))
    ensures pos <= |s|
    ensures a.blobTypeNames == [] ==> Yields(ReadAttributeAsWritten(s, pos), a, pos + |EncodeAttribute(a)|)
    ensures a.blobTypeNames != [] ==>
      && ReadAttributeAsWritten(s, pos) == Err(ProgramError)
      && Yields(ReadAttribute(s, pos), a, pos + |EncodeAttribute(a)|)
  {
    ReadAttributeAt(s, pos, a);
    NameAndTypeAt(s, pos, a);
    AsWrittenDecides(s, pos, a, pos + |EncodeString(a.name)|, pos + |EncodeString(a.name)| + 4);
  }
}
