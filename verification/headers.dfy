/**
 * The cache header: an 8-byte name followed by the counts, in one of two layouts
 * chosen by the version word. Version 103 adds a substep count between the sample
 * count and the blob count.
 */
module Headers {
  import opened Results
  import opened Bytes
  import opened WireCodes

  datatype Header =
    | HeaderV102(name: seq<byte>, version: Word, objectType: Word, particleCount: Word, edgeCount: Word,
                 polygonCount: Word, sampleCount: Word, blobCount: Word, attributeCount: Word)
    | HeaderV103(name: seq<byte>, version: Word, objectType: Word, particleCount: Word, edgeCount: Word,
                 polygonCount: Word, sampleCount: Word, substepsCount: Word, blobCount: Word, attributeCount: Word)

  /** Bytes of the header name, which precedes the version word. */
  const NameBytes: nat := 8

  /** The words a header stores after its name, in file order. */
  function Fields(h: Header): seq<Word> {
    match h
    case HeaderV102(_, v, t, p, e, g, sm, b, at) => [v, t, p, e, g, sm, b, at]
    case HeaderV103(_, v, t, p, e, g, sm, ss, b, at) => [v, t, p, e, g, sm, ss, b, at]
  }

  /** How many words the layout of version `v` stores after the name. */
  function FieldCount(v: Word): nat {
    if v == CacheV103 then 9 else 8
  }

  /** A header that its own layout can describe: an 8-byte name and the version word of its layout. */
  predicate WellFormed(h: Header) {
    && |h.name| == NameBytes
    && (h.HeaderV102? ==> h.version == CacheV102)
    && (h.HeaderV103? ==> h.version == CacheV103)
  }

  /** The version word at offset 8, looked at without being consumed; nothing when the stream is too short to hold it. */
  function PeekVersion(s: seq<byte>): (r: Option<Word>)
    ensures r.Some? <==> NameBytes + 4 <= |s|
    ensures r.Some? ==> r.value == WordAt(s, NameBytes)
  {
    match ReadInt(s, NameBytes)
    case None => None
    case Some((v, _)) => Some(v)
  }

  /** The header whose name is `name` and whose words, in file order, are `ws`. */
  function FromFields(v: Word, name: seq<byte>, ws: seq<Word>): (h: Header)
    requires |ws| == FieldCount(v)
    ensures Fields(h) == ws && h.name == name
    ensures h.HeaderV103? <==> v == CacheV103
  {
    if v == CacheV103 then HeaderV103(name, ws[0], ws[1], ws[2], ws[3], ws[4], ws[5], ws[6], ws[7], ws[8])
    else HeaderV102(name, ws[0], ws[1], ws[2], ws[3], ws[4], ws[5], ws[6], ws[7])
  }

  /**
   * `__read_header__`: peek the version, pick the layout, then read the name and the
   * layout's words. An unreadable or unsupported version leaves no header; a header
   * cut short raises.
   */
  function ReadHeader(s: seq<byte>): (r: Result<(Header, nat)>)
    ensures r == Err(UnsupportedVersion) <==> |s| < NameBytes + 4 || !SupportedVersion(WordAt(s, NameBytes))
    ensures r.Ok? <==>
      && NameBytes + 4 <= |s|
      && SupportedVersion(WordAt(s, NameBytes))
      && NameBytes + 4 * FieldCount(WordAt(s, NameBytes)) <= |s|
    ensures r.Ok? ==>
      var (h, end) := r.value;
      && h.name == Segment(s, 0, NameBytes)
      && Fields(h) == WordsAt(s, NameBytes, FieldCount(WordAt(s, NameBytes)))
      && (h.HeaderV103? <==> WordAt(s, NameBytes) == CacheV103)
      && end == NameBytes + 4 * |Fields(h)|
    ensures r.Err? ==> r.error in {UnsupportedVersion, Truncated}
  {
    match PeekVersion(s)
    case None => Err(UnsupportedVersion)
    case Some(v) =>
      if !SupportedVersion(v) then Err(UnsupportedVersion)
      else
        var (name, p) := Take(s, 0, NameBytes);
        match ReadInts(s, p, FieldCount(v))
        case None => Err(Truncated)
        case Some((ws, q)) => Ok((FromFields(v, name, ws), q))
  }

  /**
   * The field order of both layouts: version, type and the four element counts, then
   * blob and attribute counts; version 103 puts the substep count before the blob count.
   */
  lemma HeaderFieldOffsets(s: seq<byte>)
    requires ReadHeader(s).Ok?
    ensures var h := ReadHeader(s).value.0;
      && h.version == WordAt(s, 8) && h.objectType == WordAt(s, 12)
      && h.particleCount == WordAt(s, 16) && h.edgeCount == WordAt(s, 20)
      && h.polygonCount == WordAt(s, 24) && h.sampleCount == WordAt(s, 28)
      && (h.HeaderV102? ==> h.blobCount == WordAt(s, 32) && h.attributeCount == WordAt(s, 36))
      && (h.HeaderV103? ==>
            h.substepsCount == WordAt(s, 32) && h.blobCount == WordAt(s, 36) && h.attributeCount == WordAt(s, 40))
      && ReadHeader(s).value.1 == (if h.HeaderV103? then 44 else 40)
  {
    var h := ReadHeader(s).value.0;
    var ws := Fields(h);
    assert ws == WordsAt(s, 8, |ws|);
    assert ws[0] == WordAt(s, 8) && ws[1] == WordAt(s, 12) && ws[2] == WordAt(s, 16) && ws[3] == WordAt(s, 20);
    assert ws[4] == WordAt(s, 24) && ws[5] == WordAt(s, 28) && ws[6] == WordAt(s, 32) && ws[7] == WordAt(s, 36);
    if h.HeaderV103? {
      assert ws[8] == WordAt(s, 40);
    }
  }

  /** The bytes `HeaderV102.read` / `HeaderV103.read` consume for `h`. */
  function EncodeHeader(h: Header): (r: seq<byte>)
    requires WellFormed(h)
    ensures |r| == NameBytes + 4 * |Fields(h)|
  {
    h.name + EncodeWords(Fields(h))
  }

  /** Reading an encoded header gives it back and stops right after it, whatever follows. */
  lemma ReadEncodedHeader(h: Header, post: seq<byte>)
    requires WellFormed(h)
    ensures ReadHeader(EncodeHeader(h) + post) == Ok((h, |EncodeHeader(h)|))
  {
    var s := EncodeHeader(h) + post;
    var ws := Fields(h);
    assert s == h.name + EncodeWords(ws) + post;
    WordsAtEncoded(h.name, ws, post);
    assert WordAt(s, NameBytes) == ws[0] == h.version;
    var r := ReadHeader(s);
    assert r.Ok?;
    var h' := r.value.0;
    assert Segment(s, 0, NameBytes) == h.name;
    assert Fields(h') == ws;
    assert h'.HeaderV103? == h.HeaderV103?;
  }
}
