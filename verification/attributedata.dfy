/**
 * The data section of one attribute, as the reader's data loop decodes it: the
 * point positions as one flag and a block of records; every other attribute as an
 * element count taken from its context, then one chunk per run of indices, each
 * chunk a constant flag followed by one record (constant) or one record per index.
 */
module AttributeData {
  import opened Results
  import opened Bytes
  import opened WireCodes
  import opened Accessors
  import opened Headers
  import opened Descriptors
  import opened Runs
  import opened Seqs
  import opened Chunking

  /** The attribute whose data always loads and whose constant flag is stored once. */
  const PointPositionName: seq<byte> := Ascii("PointPosition___")

  /** What one chunk held: its constant flag and one value per index it covers. */
  datatype Chunk = Chunk(constant: bool, values: seq<Value>)

  /** What the data loop leaves for one attribute: the attribute, its flag updated, and the array stored for it, if any. */
  datatype Outcome = Outcome(attr: Attribute, stored: Option<seq<Value>>)

  /**
   * The number of elements an attribute's context gives: the five single-set
   * contexts only. None means the attribute is passed over without reading.
   */
  function ElementCount(h: Header, context: Word): (r: Option<nat>) {
    if context == ContextSingleton then Some(1)
    else if context == ContextComponent0D then Some(h.particleCount)
    else if context == ContextComponent1D then Some(h.edgeCount)
    else if context == ContextComponent2D then Some(h.polygonCount)
    else if context == ContextComponent0D2D then Some(h.sampleCount)
    else None
  }

  /**
   * One chunk of a kept attribute: the flag word, then for a constant chunk one
   * record given to every index of the chunk, otherwise one record per index.
   */
  function ReadChunk(a: Accessor, s: seq<byte>, len: nat, pos: nat): (r: Result<(Chunk, nat)>)
    ensures r.Ok? ==> pos + 4 <= r.value.1 <= |s|
    ensures r.Ok? ==> |r.value.0.values| == len && (r.value.0.constant <==> WordAt(s, pos) != 0)
    ensures r.Err? ==> r.error == Truncated
  {
    var flag :- Descriptors.Int(s, pos);
    if flag.0 != 0 then
      var v :- ReadRecord(a, s, flag.1);
      Ok((Chunk(true, seq(len, _ => v.0)), v.1))
    else
      var vs :- ReadRecords(a, s, flag.1, len);
      Ok((Chunk(false, vs.0), vs.1))
  }

  /** `ReadChunk` as the step of a run over the index runs. */
  function ChunkStep(a: Accessor, s: seq<byte>): seq<nat> -> Step<Chunk> {
    (chunk: seq<nat>) => (p: nat) => ReadChunk(a, s, |chunk|, p)
  }

  /**
   * The bytes of one record passed over without decoding it: one fixed width, or a
   * string's length word and its body padded to four bytes, or nothing for the custom
   * type. Truncated when the stream ends first.
   */
  function SkipRecord(a: Accessor, s: seq<byte>, pos: nat): (r: Result<((), nat)>)
    ensures r.Ok? ==> pos <= r.value.1 <= |s|
    ensures r.Err? ==> r.error == Truncated
  {
    var span := match KindOf(a)
      case NoRead => 0
      case StringRead => if pos + 4 <= |s| then 4 + Pad4(WordAt(s, pos)) else 4
      case _ => Width(a);
    if pos + span <= |s| then Ok(((), pos + span)) else Err(Truncated)
  }

  function SkipRecordStep(a: Accessor, s: seq<byte>): Step<()> {
    p => SkipRecord(a, s, p)
  }

  /**
   * One chunk of a skipped attribute as intended: the flag word, then one record
   * passed over for a constant chunk and one per index otherwise. Only the flag is kept.
   */
  function SkipChunk(a: Accessor, s: seq<byte>, len: nat, pos: nat): (r: Result<(Chunk, nat)>)
    ensures r.Ok? ==> pos + 4 <= r.value.1 <= |s| && r.value.0.values == [] && (r.value.0.constant <==> WordAt(s, pos) != 0)
    ensures r.Err? ==> r.error == Truncated
  {
    var flag :- Descriptors.Int(s, pos);
    if flag.0 != 0 then
      var e :- SkipRecord(a, s, flag.1);
      Ok((Chunk(true, []), e.1))
    else
      assert Advances(SkipRecordStep(a, s), |s|) && FailsWith(SkipRecordStep(a, s), Truncated);
      RunBounds(SkipRecordStep(a, s), |s|, flag.1, len);
      RunError(SkipRecordStep(a, s), Truncated, flag.1, len);
      var e :- Run(SkipRecordStep(a, s), flag.1, len);
      Ok((Chunk(false, []), e.1))
  }

  function SkipStep(a: Accessor, s: seq<byte>): seq<nat> -> Step<Chunk> {
    (chunk: seq<nat>) => (p: nat) => SkipChunk(a, s, |chunk|, p)
  }

  /**
   * One chunk of a skipped attribute as written: the flag word, then `len * size()`
   * bytes passed over with `file.read`, constant or not. An accessor without a size
   * (the custom type) makes the multiplication raise.
   */
  function SkipChunkAsWritten(a: Accessor, s: seq<byte>, len: nat, pos: nat): (r: Result<(Chunk, nat)>)
    ensures r.Ok? ==> pos + 4 <= r.value.1 <= |s| && (r.value.0.constant <==> WordAt(s, pos) != 0)
  {
    var flag :- Descriptors.Int(s, pos);
    match Size(a)
    case None => Err(ProgramError)
    case Some(w) => Ok((Chunk(flag.0 != 0, []), Take(s, flag.1, len * w).1))
  }

  function SkipStepAsWritten(a: Accessor, s: seq<byte>): seq<nat> -> Step<Chunk> {
    (chunk: seq<nat>) => (p: nat) => SkipChunkAsWritten(a, s, |chunk|, p)
  }

  /** The flag of the last chunk read, which is what the attribute is left with; `init` when there was no chunk. */
  function LastFlag(chunks: seq<Chunk>, init: bool): bool {
    if chunks == [] then init else chunks[|chunks| - 1].constant
  }

  function ValuesOf(chunks: seq<Chunk>): (r: seq<seq<Value>>)
    ensures |r| == |chunks| && forall j :: 0 <= j < |chunks| ==> r[j] == chunks[j].values
  {
    seq(|chunks|, j requires 0 <= j < |chunks| => chunks[j].values)
  }

  /** The point positions: one flag, then `particle_count` records whatever the flag says, always stored. */
  function ReadPointPosition(h: Header, a: Attribute, acc: Accessor, s: seq<byte>, pos: nat): (r: Result<(Outcome, nat)>)
    ensures r.Ok? ==> pos + 4 <= r.value.1 <= |s|
  {
    var flag :- Descriptors.Int(s, pos);
    var records :- ReadRecords(acc, s, flag.1, h.particleCount);
    Ok((Outcome(a.(isConstant := flag.0 != 0), Some(records.0)), records.1))
  }

  /** A kept attribute: its chunks read in turn, their values laid end to end. */
  function ReadKept(acc: Accessor, a: Attribute, chunks: seq<seq<nat>>, s: seq<byte>, pos: nat): (r: Result<(Outcome, nat)>)
    requires pos <= |s|
    ensures r.Ok? ==> pos <= r.value.1 <= |s|
    ensures r.Err? ==> r.error == Truncated
  {
    assert AdvancesOver(ChunkStep(acc, s), |s|) && FailsOverWithin(ChunkStep(acc, s), {Truncated});
    RunOverBounds(ChunkStep(acc, s), |s|, chunks, pos);
    RunOverError(ChunkStep(acc, s), {Truncated}, chunks, pos);
    var run :- RunOver(ChunkStep(acc, s), chunks, pos);
    Ok((Outcome(a.(isConstant := LastFlag(run.0, a.isConstant)), Some(Concat(ValuesOf(run.0)))), run.1))
  }

  /** A skipped attribute: its chunks passed over in turn, nothing stored. */
  function ReadSkipped(acc: Accessor, a: Attribute, chunks: seq<seq<nat>>, s: seq<byte>, pos: nat): (r: Result<(Outcome, nat)>)
    requires pos <= |s|
    ensures r.Ok? ==> pos <= r.value.1 <= |s|
    ensures r.Err? ==> r.error == Truncated
  {
    assert AdvancesOver(SkipStep(acc, s), |s|) && FailsOverWithin(SkipStep(acc, s), {Truncated});
    RunOverBounds(SkipStep(acc, s), |s|, chunks, pos);
    RunOverError(SkipStep(acc, s), {Truncated}, chunks, pos);
    var run :- RunOver(SkipStep(acc, s), chunks, pos);
    Ok((Outcome(a.(isConstant := LastFlag(run.0, a.isConstant)), None), run.1))
  }

  /**
   * One pass of the data loop for attribute `a`, `keep` being the selection state
   * after its name was looked at, `c` the handler's chunk size. The accessor lookup
   * comes first; the point positions bypass the context; a context without an
   * element count passes the attribute over; a Location attribute would read one
   * record and store nothing.
   */
  function ReadAttributeData(h: Header, a: Attribute, keep: bool, c: nat, s: seq<byte>, pos: nat): (r: Result<(Outcome, nat)>)
    requires c > 0 && pos <= |s|
    ensures r.Ok? ==> pos <= r.value.1 <= |s|
    ensures r.Ok? ==> r.value.0.attr == a.(isConstant := r.value.0.attr.isConstant)
    ensures Pool(a.dataType, a.structType).None? ==> r == Err(NoAccessor)
    ensures r.Err? ==> (r.error == NoAccessor <==> Pool(a.dataType, a.structType).None?)
    ensures r.Err? ==> r.error in {NoAccessor, Truncated}
  {
    match Pool(a.dataType, a.structType)
    case None => Err(NoAccessor)
    case Some(acc) =>
      if a.name == PointPositionName then ReadPointPosition(h, a, acc, s, pos)
      else
        match ElementCount(h, a.contextType)
        case None => Ok((Outcome(a, None), pos))
        case Some(n) =>
          if a.dataType == DataLocation then Ok((Outcome(a, None), Read(acc, s, pos).1))
          else if keep then ReadKept(acc, a, Chunks(n, c), s, pos)
          else ReadSkipped(acc, a, Chunks(n, c), s, pos)
  }

  /**
   * An attribute whose data the loop reads or passes over chunk by chunk: it has an
   * accessor, is not the point positions, has an element count and is not a Location.
   */
  predicate Chunked(h: Header, a: Attribute) {
    && Pool(a.dataType, a.structType).Some?
    && a.name != PointPositionName
    && ElementCount(h, a.contextType).Some?
    && a.dataType != DataLocation
  }

  /** A skipped attribute as written: each chunk passed over by `SkipChunkAsWritten`, nothing stored. */
  function ReadSkippedAsWritten(acc: Accessor, a: Attribute, chunks: seq<seq<nat>>, s: seq<byte>, pos: nat): (r: Result<(Outcome, nat)>)
    requires pos <= |s|
    ensures r.Ok? ==> pos <= r.value.1 <= |s|
    ensures r.Err? ==> r.error in {Truncated, ProgramError}
  {
    assert AdvancesOver(SkipStepAsWritten(acc, s), |s|) && FailsOverWithin(SkipStepAsWritten(acc, s), {Truncated, ProgramError});
    RunOverBounds(SkipStepAsWritten(acc, s), |s|, chunks, pos);
    RunOverError(SkipStepAsWritten(acc, s), {Truncated, ProgramError}, chunks, pos);
    var run :- RunOver(SkipStepAsWritten(acc, s), chunks, pos);
    Ok((Outcome(a.(isConstant := LastFlag(run.0, a.isConstant)), None), run.1))
  }

  /**
   * One pass of the data loop as written: an attribute that is not kept has its
   * chunks passed over by `len(chunk) * size()` bytes each. A kept attribute, and
   * one whose chunks are never reached, goes as in `ReadAttributeData`.
   */
  function ReadAttributeDataAsWritten(h: Header, a: Attribute, keep: bool, c: nat, s: seq<byte>, pos: nat): (r: Result<(Outcome, nat)>)
    requires c > 0 && pos <= |s|
    ensures keep || !Chunked(h, a) ==> r == ReadAttributeData(h, a, keep, c, s, pos)
    ensures r.Ok? ==> pos <= r.value.1 <= |s|
    ensures r.Ok? ==> r.value.0.attr == a.(isConstant := r.value.0.attr.isConstant)
    ensures Pool(a.dataType, a.structType).None? ==> r == Err(NoAccessor)
    ensures r.Err? ==> r.error in {NoAccessor, Truncated, ProgramError}
  {
    if !keep && Chunked(h, a) then
      ReadSkippedAsWritten(Pool(a.dataType, a.structType).value, a, Chunks(ElementCount(h, a.contextType).value, c), s, pos)
    else ReadAttributeData(h, a, keep, c, s, pos)
  }

  /** As written too, an array is stored exactly for the point positions and for a kept attribute with an element count. */
  lemma WhatIsStoredAsWritten(h: Header, a: Attribute, keep: bool, c: nat, s: seq<byte>, pos: nat)
    requires c > 0 && pos <= |s| && ReadAttributeDataAsWritten(h, a, keep, c, s, pos).Ok?
    ensures var out := ReadAttributeDataAsWritten(h, a, keep, c, s, pos).value.0;
      && (out.stored.Some? <==> a.name == PointPositionName || (keep && ElementCount(h, a.contextType).Some?))
      && (out.stored.Some? ==> |out.stored.value| == StoredLength(h, a))
  {
    if keep || !Chunked(h, a) {
      WhatIsStored(h, a, keep, c, s, pos);
    }
  }

  // ---- Element counts and the branches that store nothing ----

  /**
   * Only the five single-set contexts give an element count: Singleton one element,
   * 0D the particles, 1D the edges, 2D the polygons, 0D2D the samples. Every other
   * code, the composite contexts included, gives none.
   */
  lemma ElementCountContexts(h: Header, context: Word)
    ensures ElementCount(h, context).Some? <==> context in ElementContexts
    ensures context == ContextSingleton ==> ElementCount(h, context) == Some(1)
    ensures context == ContextComponent0D ==> ElementCount(h, context) == Some(h.particleCount as nat)
    ensures context == ContextComponent1D ==> ElementCount(h, context) == Some(h.edgeCount as nat)
    ensures context == ContextComponent2D ==> ElementCount(h, context) == Some(h.polygonCount as nat)
    ensures context == ContextComponent0D2D ==> ElementCount(h, context) == Some(h.sampleCount as nat)
    ensures context in {ContextSingletonOrComponent0D, ContextSingletonOrComponent1D, ContextSingletonOrComponent2D,
                        ContextSingletonOrComponent0D2D, ContextSingletonOrElementGenerator, ContextComponent0DOr1DOr2D,
                        ContextNotSingleton, ContextAny, ContextElementGenerator}
            ==> ElementCount(h, context) == None
  {
  }

  /** An attribute whose context gives no element count is passed over: nothing read, nothing stored. */
  lemma NoElementCountReadsNothing(h: Header, a: Attribute, keep: bool, c: nat, s: seq<byte>, pos: nat)
    requires c > 0 && pos <= |s|
    requires Pool(a.dataType, a.structType).Some? && a.name != PointPositionName
    requires ElementCount(h, a.contextType).None?
    ensures ReadAttributeData(h, a, keep, c, s, pos) == Ok((Outcome(a, None), pos))
  {
  }

  /** The accessor lookup fails for Location, which the registry lacks, so its data is never reached. */
  lemma LocationHasNoAccessor(h: Header, a: Attribute, keep: bool, c: nat, s: seq<byte>, pos: nat)
    requires c > 0 && pos <= |s| && a.dataType == DataLocation
    ensures ReadAttributeData(h, a, keep, c, s, pos) == Err(NoAccessor)
  {
    RegistrySize();
  }

  /**
   * The point positions read one flag and then exactly `particle_count` records,
   * whatever the flag, the context and the selection; the array is always stored
   * and holds `particle_count` records. With the Vector3 accessor that is 12 bytes
   * a particle.
   */
  lemma PointPositionData(h: Header, a: Attribute, keep: bool, c: nat, s: seq<byte>, pos: nat, acc: Accessor)
    requires c > 0 && pos <= |s|
    requires Pool(a.dataType, a.structType) == Some(acc) && a.name == PointPositionName
    ensures var r := ReadAttributeData(h, a, keep, c, s, pos);
      && r == ReadAttributeData(h, a, !keep, c, s, pos)
      && (r.Ok? <==> pos + 4 <= |s| && ReadRecords(acc, s, pos + 4, h.particleCount).Ok?)
      && (r.Ok? ==>
            var records := ReadRecords(acc, s, pos + 4, h.particleCount).value;
            && r.value.0 == Outcome(a.(isConstant := WordAt(s, pos) != 0), Some(records.0))
            && |records.0| == h.particleCount as nat
            && r.value.1 == records.1)
    ensures acc == Vector3Accessor ==>
      var r := ReadAttributeData(h, a, keep, c, s, pos);
      && (r.Ok? <==> pos + 4 + 12 * h.particleCount <= |s|)
      && (r.Ok? ==> r.value.1 == pos + 4 + 12 * h.particleCount)
  {
    assert ReadAttributeData(h, a, keep, c, s, pos) == ReadPointPosition(h, a, acc, s, pos);
    assert ReadAttributeData(h, a, !keep, c, s, pos) == ReadPointPosition(h, a, acc, s, pos);
    PointPositionBlock(h, a, acc, s, pos);
  }

  /** The point-position block on its own: one flag, then the particles' records. */
  lemma PointPositionBlock(h: Header, a: Attribute, acc: Accessor, s: seq<byte>, pos: nat)
    ensures var r := ReadPointPosition(h, a, acc, s, pos);
      && (r.Ok? <==> pos + 4 <= |s| && ReadRecords(acc, s, pos + 4, h.particleCount).Ok?)
      && (r.Ok? ==>
            var records := ReadRecords(acc, s, pos + 4, h.particleCount).value;
            && r.value.0 == Outcome(a.(isConstant := WordAt(s, pos) != 0), Some(records.0))
            && |records.0| == h.particleCount as nat
            && r.value.1 == records.1)
    ensures acc == Vector3Accessor ==>
      var r := ReadPointPosition(h, a, acc, s, pos);
      && (r.Ok? <==> pos + 4 + 12 * h.particleCount <= |s|)
      && (r.Ok? ==> r.value.1 == pos + 4 + 12 * h.particleCount)
  {
    if pos + 4 <= |s| && acc == Vector3Accessor {
      ReadRecordsFixedWidth(acc, s, pos + 4, h.particleCount);
    }
  }

  /**
   * An array is stored for the point positions, and for a selected attribute whose
   * context gives an element count; for nothing else.
   */
  lemma WhatIsStored(h: Header, a: Attribute, keep: bool, c: nat, s: seq<byte>, pos: nat)
    requires c > 0 && pos <= |s| && ReadAttributeData(h, a, keep, c, s, pos).Ok?
    ensures var out := ReadAttributeData(h, a, keep, c, s, pos).value.0;
      && (out.stored.Some? <==> a.name == PointPositionName || (keep && ElementCount(h, a.contextType).Some?))
      && (out.stored.Some? ==> |out.stored.value| == StoredLength(h, a))
  {
    RegistrySize();
    var acc := Pool(a.dataType, a.structType).value;
    if a.name == PointPositionName {
      PointPositionData(h, a, keep, c, s, pos, acc);
    } else if keep && ElementCount(h, a.contextType).Some? {
      var n := ElementCount(h, a.contextType).value;
      assert ReadAttributeData(h, a, keep, c, s, pos) == ReadKept(acc, a, Chunks(n, c), s, pos);
      KeptIndices(acc, a, n, c, s, pos);
    }
  }

  /** How many values the array stored for `a` holds: one per particle for the point positions, one per element otherwise. */
  function StoredLength(h: Header, a: Attribute): nat {
    if a.name == PointPositionName then h.particleCount
    else match ElementCount(h, a.contextType)
      case Some(n) => n
      case None => 0
  }

  // ---- Kept and skipped chunks ----

  /**
   * A kept attribute fills its array exactly: it holds `n` values, and element
   * index `i`, found at place `k` of run `j`, holds the `k`-th value chunk `j` read.
   */
  lemma KeptIndices(acc: Accessor, a: Attribute, n: nat, c: nat, s: seq<byte>, pos: nat)
    requires c > 0 && pos <= |s| && ReadKept(acc, a, Chunks(n, c), s, pos).Ok?
    ensures var chunks := Chunks(n, c);
      var run := RunOver(ChunkStep(acc, s), chunks, pos).value.0;
      var stored := ReadKept(acc, a, chunks, s, pos).value.0.stored;
      && stored.Some? && |stored.value| == n
      && forall j, k :: 0 <= j < |chunks| && 0 <= k < |chunks[j]| ==>
           k < |run[j].values| && chunks[j][k] < n && stored.value[chunks[j][k]] == run[j].values[k]
  {
    var chunks := Chunks(n, c);
    var run := RunOver(ChunkStep(acc, s), chunks, pos).value.0;
    var values := ValuesOf(run);
    RunShape(acc, s, chunks, pos);
    OffsetsSameShape(values, chunks, 0);
    forall j, k | 0 <= j < |chunks| && 0 <= k < |chunks[j]|
      ensures chunks[j][k] < n && Concat(values)[chunks[j][k]] == run[j].values[k]
    {
      PlacedByChunks(values, n, c, j, k);
    }
  }

  /** A successful run of chunks reads one value per index of each chunk. */
  lemma RunShape(acc: Accessor, s: seq<byte>, chunks: seq<seq<nat>>, pos: nat)
    requires RunOver(ChunkStep(acc, s), chunks, pos).Ok?
    ensures var run := RunOver(ChunkStep(acc, s), chunks, pos).value.0;
      forall j :: 0 <= j < |chunks| ==> |run[j].values| == |chunks[j]|
  {
    var run := RunOver(ChunkStep(acc, s), chunks, pos).value.0;
    var ends := RunOverSplits(ChunkStep(acc, s), chunks, pos);
    forall j | 0 <= j < |chunks| ensures |run[j].values| == |chunks[j]| {
      assert Yields(ChunkStep(acc, s)(chunks[j])(ends[j]), run[j], ends[j + 1]);
    }
  }

  /** Pieces cut like the runs of `chunks(n)` put item `k` of piece `j` at that run's `k`-th index. */
  lemma PlacedByChunks<T>(values: seq<seq<T>>, n: nat, c: nat, j: nat, k: nat)
    requires c > 0 && Offsets(values, 0) == Offsets(Chunks(n, c), 0) && |Concat(values)| == n
    requires j < |Chunks(n, c)| == |values| && k < |Chunks(n, c)[j]| == |values[j]|
    ensures Chunks(n, c)[j][k] < n && Concat(values)[Chunks(n, c)[j][k]] == values[j][k]
  {
    ConcatIndex(values, j, k);
    ChunkPlace(n, c, j, k);
  }

  /** Two chunks carrying the same constant flag. */
  predicate SameFlag(x: Chunk, y: Chunk) {
    x.constant == y.constant
  }

  /** Passing one chunk over and reading it succeed together, stop at the same place and see the same flag. */
  lemma SkipStepAgrees(acc: Accessor, s: seq<byte>)
    ensures SameEnds(ChunkStep(acc, s), SkipStep(acc, s), SameFlag)
  {
    forall chunk: seq<nat>, pos: nat
      ensures && (ChunkStep(acc, s)(chunk)(pos).Ok? <==> SkipStep(acc, s)(chunk)(pos).Ok?)
              && (ChunkStep(acc, s)(chunk)(pos).Ok? ==>
                    && ChunkStep(acc, s)(chunk)(pos).value.1 == SkipStep(acc, s)(chunk)(pos).value.1
                    && SameFlag(ChunkStep(acc, s)(chunk)(pos).value.0, SkipStep(acc, s)(chunk)(pos).value.0))
    {
      SkipChunkAgrees(acc, s, |chunk|, pos);
    }
  }

  /** Passing one chunk over and reading it succeed together, stop at the same place and see the same flag. */
  lemma SkipChunkAgrees(a: Accessor, s: seq<byte>, len: nat, pos: nat)
    ensures ReadChunk(a, s, len, pos).Ok? <==> SkipChunk(a, s, len, pos).Ok?
    ensures ReadChunk(a, s, len, pos).Ok? ==>
      && ReadChunk(a, s, len, pos).value.1 == SkipChunk(a, s, len, pos).value.1
      && ReadChunk(a, s, len, pos).value.0.constant == SkipChunk(a, s, len, pos).value.0.constant
  {
    SkipRecordAgrees(a, s);
    if pos + 4 <= |s| {
      if WordAt(s, pos) == 0 {
        RunSameSpan(RecordStep(a, s), SkipRecordStep(a, s), pos + 4, len);
      } else {
        assert RecordStep(a, s)(pos + 4) == ReadRecord(a, s, pos + 4);
      }
    }
  }

  /** Passing one record over and reading it succeed together and stop at the same place. */
  lemma SkipRecordAgrees(a: Accessor, s: seq<byte>)
    ensures SameSpan(RecordStep(a, s), SkipRecordStep(a, s))
  {
    forall p: nat
      ensures && (ReadRecord(a, s, p).Ok? <==> SkipRecord(a, s, p).Ok?)
              && (ReadRecord(a, s, p).Ok? ==> ReadRecord(a, s, p).value.1 == SkipRecord(a, s, p).value.1)
    {
      if KindOf(a).StringRead? && p + 4 <= |s| && p + 4 + Pad4(WordAt(s, p)) <= |s| {
        assert Read(a, s, p).1 == ReadString(s, p).1;
      }
    }
  }

  /** Passing a run of chunks over succeeds exactly when reading it does, stops at the same place, and sees the same flags. */
  lemma SkippedRunAgrees(acc: Accessor, s: seq<byte>, chunks: seq<seq<nat>>, pos: nat)
    ensures var kept, skipped := RunOver(ChunkStep(acc, s), chunks, pos), RunOver(SkipStep(acc, s), chunks, pos);
      && (kept.Ok? <==> skipped.Ok?)
      && (kept.Ok? ==> kept.value.1 == skipped.value.1 && forall init :: LastFlag(kept.value.0, init) == LastFlag(skipped.value.0, init))
  {
    SkipStepAgrees(acc, s);
    RunOverSameEnds(ChunkStep(acc, s), SkipStep(acc, s), SameFlag, chunks, pos);
    var kept, skipped := RunOver(ChunkStep(acc, s), chunks, pos), RunOver(SkipStep(acc, s), chunks, pos);
    if kept.Ok? && chunks != [] {
      assert SameFlag(kept.value.0[|chunks| - 1], skipped.value.0[|chunks| - 1]);
    }
  }

  /** The same for a whole attribute: only the values are missing when it is passed over. */
  lemma SkippedAsKept(acc: Accessor, a: Attribute, chunks: seq<seq<nat>>, s: seq<byte>, pos: nat)
    requires pos <= |s|
    ensures var kept, skipped := ReadKept(acc, a, chunks, s, pos), ReadSkipped(acc, a, chunks, s, pos);
      && (kept.Ok? <==> skipped.Ok?)
      && (kept.Ok? ==> kept.value.1 == skipped.value.1 && kept.value.0.attr == skipped.value.0.attr)
  {
    SkippedRunAgrees(acc, s, chunks, pos);
  }

  /**
   * Whether an attribute is selected does not change how far its data reaches, whether
   * it loads, or the constant flag it is left with; only a selected attribute stores
   * its values.
   */
  lemma SelectionKeepsPlace(h: Header, a: Attribute, c: nat, s: seq<byte>, pos: nat)
    requires c > 0 && pos <= |s|
    ensures var kept, skipped := ReadAttributeData(h, a, true, c, s, pos), ReadAttributeData(h, a, false, c, s, pos);
      && (kept.Ok? <==> skipped.Ok?)
      && (kept.Ok? ==> kept.value.1 == skipped.value.1 && kept.value.0.attr == skipped.value.0.attr)
      && (skipped.Ok? && a.name != PointPositionName ==> skipped.value.0.stored == None)
  {
    var acc := Pool(a.dataType, a.structType);
    var n := ElementCount(h, a.contextType);
    if acc.Some? && a.name != PointPositionName && n.Some? && a.dataType != DataLocation {
      SkippedAsKept(acc.value, a, Chunks(n.value, c), s, pos);
    }
  }

  /**
   * With a fixed-width accessor a chunk spans its flag and one record when constant,
   * one record per index otherwise, and a constant chunk gives its one value to every
   * index.
   */
  lemma ChunkBytes(a: Accessor, s: seq<byte>, len: nat, pos: nat)
    requires FixedWidth(a)
    ensures var r := ReadChunk(a, s, len, pos);
      var records := if pos + 4 <= |s| && WordAt(s, pos) != 0 then 1 else len;
      && (r.Ok? <==> pos + 4 + records * Width(a) <= |s|)
      && (r.Ok? ==> r.value.1 == pos + 4 + records * Width(a))
      && (r.Ok? && r.value.0.constant ==> forall k :: 0 <= k < len ==> r.value.0.values[k] == r.value.0.values[0])
  {
    if pos + 4 <= |s| && WordAt(s, pos) == 0 {
      ReadRecordsFixedWidth(a, s, pos + 4, len);
    }
  }

  // ---- Round trip: chunks as the writer lays them out ----

  /** What the writer puts in one chunk: one value shared by all its indices, or one value per index. */
  datatype Written = Shared(v: Value) | PerIndex(vs: seq<Value>)

  /** `w` can be written for a chunk of `len` indices with accessor `a`. */
  predicate Fits(a: Accessor, w: Written, len: nat) {
    match w
    case Shared(v) => Accessors.WellFormed(a, v)
    case PerIndex(vs) => |vs| == len && Accessors.AllWellFormed(a, vs)
  }

  /** The bytes of one chunk: a non-zero flag and the shared record, or a zero flag and one record per index. */
  function EncodeChunk(a: Accessor, w: Written, len: nat): (r: seq<byte>)
    requires Fits(a, w, len)
    ensures |r| >= 4
  {
    match w
    case Shared(v) => EncodeWord(1) + Encode(a, v)
    case PerIndex(vs) => EncodeWord(0) + EncodeAll(a, vs)
  }

  /** The values a chunk stands for, one per index. */
  function Expand(w: Written, len: nat): (r: seq<Value>)
    requires w.PerIndex? ==> |w.vs| == len
    ensures |r| == len
  {
    match w
    case Shared(v) => seq(len, _ => v)
    case PerIndex(vs) => vs
  }

  /** A chunk stored at `pos` reads back as its flag and its values, one per index. */
  lemma ReadChunkAt(a: Accessor, s: seq<byte>, pos: nat, len: nat, w: Written)
    requires Fits(a, w, len) && At(s, pos, EncodeChunk(a, w, len))
    ensures Yields(ReadChunk(a, s, len, pos), Chunk(w.Shared?, Expand(w, len)), pos + |EncodeChunk(a, w, len)|)
  {
    match w
    case Shared(v) =>
      AtSplit(s, pos, EncodeWord(1), Encode(a, v));
      IntAt(s, pos, 1);
      ReadRecordAt(a, s, pos + 4, v);
    case PerIndex(vs) =>
      AtSplit(s, pos, EncodeWord(0), EncodeAll(a, vs));
      IntAt(s, pos, 0);
      ReadRecordsAt(a, s, pos + 4, vs);
  }

  predicate AllFit(a: Accessor, chunks: seq<seq<nat>>, ws: seq<Written>) {
    |ws| == |chunks| && forall j :: 0 <= j < |ws| ==> Fits(a, ws[j], |chunks[j]|)
  }

  /** The bytes of each chunk, in order. */
  function ChunkPieces(a: Accessor, chunks: seq<seq<nat>>, ws: seq<Written>): (r: seq<seq<byte>>)
    requires AllFit(a, chunks, ws)
    ensures |r| == |ws| && forall j :: 0 <= j < |ws| ==> r[j] == EncodeChunk(a, ws[j], |chunks[j]|)
  {
    seq(|ws|, j requires 0 <= j < |ws| => EncodeChunk(a, ws[j], |chunks[j]|))
  }

  /** What the reader should make of each written chunk. */
  function Expanded(a: Accessor, chunks: seq<seq<nat>>, ws: seq<Written>): (r: seq<Chunk>)
    requires AllFit(a, chunks, ws)
    ensures |r| == |ws| && forall j :: 0 <= j < |ws| ==> r[j] == Chunk(ws[j].Shared?, Expand(ws[j], |chunks[j]|))
  {
    seq(|ws|, j requires 0 <= j < |ws| => Chunk(ws[j].Shared?, Expand(ws[j], |chunks[j]|)))
  }

  /** Chunks stored one after the other read back in order, and the reads stop right after the last. */
  lemma ReadChunksAt(a: Accessor, s: seq<byte>, pos: nat, chunks: seq<seq<nat>>, ws: seq<Written>)
    requires AllFit(a, chunks, ws) && At(s, pos, Concat(ChunkPieces(a, chunks, ws)))
    ensures Yields(RunOver(ChunkStep(a, s), chunks, pos), Expanded(a, chunks, ws), pos + |Concat(ChunkPieces(a, chunks, ws))|)
  {
    var pieces := ChunkPieces(a, chunks, ws);
    var ends := Offsets(pieces, pos);
    ConcatAt(s, pos, pieces);
    OffsetsStep(pieces, pos);
    forall j | 0 <= j < |chunks|
      ensures Yields(ChunkStep(a, s)(chunks[j])(ends[j]), Expanded(a, chunks, ws)[j], ends[j + 1])
    {
      ReadChunkAt(a, s, ends[j], |chunks[j]|, ws[j]);
    }
    RunOverReads(ChunkStep(a, s), chunks, Expanded(a, chunks, ws), ends);
  }

  /**
   * A selected attribute whose chunks were written one after the other loads as the
   * values the writer gave each chunk, laid end to end, keeps the last chunk's flag,
   * and stops right after the last chunk.
   */
  lemma KeptAttributeAt(h: Header, a: Attribute, c: nat, s: seq<byte>, pos: nat, acc: Accessor, n: nat, ws: seq<Written>)
    requires c > 0 && pos <= |s|
    requires Pool(a.dataType, a.structType) == Some(acc) && a.name != PointPositionName && a.dataType != DataLocation
    requires ElementCount(h, a.contextType) == Some(n)
    requires AllFit(acc, Chunks(n, c), ws) && At(s, pos, Concat(ChunkPieces(acc, Chunks(n, c), ws)))
    ensures var r := ReadAttributeData(h, a, true, c, s, pos);
      var chunks := Chunks(n, c);
      && r.Ok?
      && r.value.1 == pos + |Concat(ChunkPieces(acc, chunks, ws))|
      && r.value.0.stored == Some(Concat(ValuesOf(Expanded(acc, chunks, ws))))
      && r.value.0.attr == a.(isConstant := if ws == [] then a.isConstant else ws[|ws| - 1].Shared?)
  {
    assert ReadAttributeData(h, a, true, c, s, pos) == ReadKept(acc, a, Chunks(n, c), s, pos);
    KeptChunksAt(acc, a, s, pos, Chunks(n, c), ws);
  }

  /** The kept run over chunks the writer laid out one after the other. */
  lemma KeptChunksAt(acc: Accessor, a: Attribute, s: seq<byte>, pos: nat, chunks: seq<seq<nat>>, ws: seq<Written>)
    requires pos <= |s| && AllFit(acc, chunks, ws) && At(s, pos, Concat(ChunkPieces(acc, chunks, ws)))
    ensures var r := ReadKept(acc, a, chunks, s, pos);
      && r.Ok?
      && r.value.1 == pos + |Concat(ChunkPieces(acc, chunks, ws))|
      && r.value.0.stored == Some(Concat(ValuesOf(Expanded(acc, chunks, ws))))
      && r.value.0.attr == a.(isConstant := if ws == [] then a.isConstant else ws[|ws| - 1].Shared?)
  {
    ReadChunksAt(acc, s, pos, chunks, ws);
    var run := Expanded(acc, chunks, ws);
    KeptFromRun(acc, a, chunks, s, pos, run, pos + |Concat(ChunkPieces(acc, chunks, ws))|);
    if ws != [] {
      assert run[|ws| - 1].constant == ws[|ws| - 1].Shared?;
    }
  }

  /** A kept attribute is its run of chunks: the values laid end to end, the last flag. */
  lemma KeptFromRun(acc: Accessor, a: Attribute, chunks: seq<seq<nat>>, s: seq<byte>, pos: nat, run: seq<Chunk>, end: nat)
    requires pos <= |s| && Yields(RunOver(ChunkStep(acc, s), chunks, pos), run, end)
    ensures ReadKept(acc, a, chunks, s, pos) == Ok((Outcome(a.(isConstant := LastFlag(run, a.isConstant)), Some(Concat(ValuesOf(run)))), end))
  {
  }

  // ---- The skip path as written ----

  /**
   * Passing over a constant chunk of a fixed-width attribute as written moves
   * `len` records on, where the chunk holds one: for any chunk of more than one
   * index, the next flag is looked for in the wrong place.
   */
  lemma SkipAsWrittenOvershoots(a: Accessor, s: seq<byte>, len: nat, pos: nat)
    requires FixedWidth(a) && pos + 4 + len * Width(a) <= |s|
    requires WordAt(s, pos) != 0 && len > 1
    ensures SkipChunkAsWritten(a, s, len, pos) == Ok((Chunk(true, []), pos + 4 + len * Width(a)))
    ensures SkipChunk(a, s, len, pos) == Ok((Chunk(true, []), pos + 4 + Width(a)))
    ensures SkipChunkAsWritten(a, s, len, pos).value.1 == SkipChunk(a, s, len, pos).value.1 + (len - 1) * Width(a) > SkipChunk(a, s, len, pos).value.1
  {
    SizeIsFourTimesLength(a);
    ChunkBytes(a, s, len, pos);
    Overshoot(len, Width(a));
  }

  /** `len` records of width `w` reach `len - 1` records past the first one. */
  lemma Overshoot(len: nat, w: nat)
    requires len > 1 && w > 0
    ensures len * w == w + (len - 1) * w && (len - 1) * w > 0
  {
  }

  /** A constant Long chunk of two indices, `1 7` on disk and then the next flag: as written the skip passes the next flag by. */
  lemma ConstantSkipCounterexample()
    ensures var s: seq<byte> := [1, 0, 0, 0, 7, 0, 0, 0, 0, 0, 0, 0];
      && ReadChunk(LongAccessor, s, 2, 0) == Ok((Chunk(true, [Int(7), Int(7)]), 8))
      && SkipChunk(LongAccessor, s, 2, 0) == Ok((Chunk(true, []), 8))
      && SkipChunkAsWritten(LongAccessor, s, 2, 0) == Ok((Chunk(true, []), 12))
  {
    var s: seq<byte> := [1, 0, 0, 0, 7, 0, 0, 0, 0, 0, 0, 0];
    assert WordAt(s, 0) == 1 && WordAt(s, 4) == 7;
    assert ReadRecord(LongAccessor, s, 4) == Ok((Int(7), 8));
    assert seq(2, _ => Int(7)) == [Int(7), Int(7)];
  }

  /**
   * `size()` is 0 for strings: a non-constant string chunk of one index, `"abcd"` on
   * disk, is passed over as written by its flag alone, leaving the string's length
   * word to be taken for the next flag.
   */
  lemma StringSkipCounterexample()
    ensures var s: seq<byte> := [0, 0, 0, 0, 4, 0, 0, 0, 97, 98, 99, 100];
      && ReadChunk(StringAccessor, s, 1, 0) == Ok((Chunk(false, [Str([97, 98, 99, 100])]), 12))
      && SkipChunk(StringAccessor, s, 1, 0) == Ok((Chunk(false, []), 12))
      && SkipChunkAsWritten(StringAccessor, s, 1, 0) == Ok((Chunk(false, []), 4))
  {
    var s: seq<byte> := [0, 0, 0, 0, 4, 0, 0, 0, 97, 98, 99, 100];
    assert WordAt(s, 0) == 0 && WordAt(s, 4) == 4 && Pad4(4) == 4;
    assert Segment(s, 8, 4) == [97, 98, 99, 100];
    assert ReadRecord(StringAccessor, s, 4) == Ok((Str([97, 98, 99, 100]), 12));
    assert RecordStep(StringAccessor, s)(4) == Ok((Str([97, 98, 99, 100]), 12));
    RunReads(RecordStep(StringAccessor, s), [Str([97, 98, 99, 100])], [4, 12]);
    assert ReadRecords(StringAccessor, s, 4, 1) == Ok(([Str([97, 98, 99, 100])], 12));
  }

  /** The custom type's `size()` returns None: as written, passing over any of its chunks raises, where reading it succeeds. */
  lemma CustomSkipCounterexample()
    ensures var s: seq<byte> := [0, 0, 0, 0];
      && SkipChunk(CustomTypeAccessor, s, 1, 0) == Ok((Chunk(false, []), 4))
      && SkipChunkAsWritten(CustomTypeAccessor, s, 1, 0) == Err(ProgramError)
  {
  }
}
