/**
 * `ICEReader.load`: the header, the attribute descriptors, then the data section of
 * every attribute in descriptor order, each kept or passed over according to the
 * caller's selection of attribute names.
 */
module Reader {
  import opened Results
  import opened Bytes
  import opened WireCodes
  import opened Accessors
  import opened Headers
  import opened Descriptors
  import opened Runs
  import opened AttributeData

  // ---- The selection of attributes to load ----

  /**
   * `attributes_to_load`: a sequence of names, or a single string, as the default
   * argument is written, where Python's `in` looks for a substring.
   */
  datatype Selection = Names(names: seq<seq<byte>>) | Text(text: seq<byte>)

  /** `len(attributes_to_load) == 0`: no names, or no characters. */
  predicate SelectsAll(sel: Selection) {
    match sel
    case Names(names) => |names| == 0
    case Text(text) => |text| == 0
  }

  /** `text` holds `name` from offset `i` on. */
  predicate InfixAt(name: seq<byte>, text: seq<byte>, i: nat) {
    i + |name| <= |text| && text[i..i + |name|] == name
  }

  /** `text` holds `name` as a run of consecutive bytes. */
  predicate Infix(name: seq<byte>, text: seq<byte>) {
    exists i: nat :: i <= |text| && InfixAt(name, text, i)
  }

  /** `name in attributes_to_load`: one of the names, or a substring of the text. */
  predicate Mentions(sel: Selection, name: seq<byte>) {
    match sel
    case Names(names) => name in names
    case Text(text) => Infix(name, text)
  }

  /** The default argument as written: `('PointPosition___')` is a string, not a one-name tuple. */
  const DefaultSelectionAsWritten: Selection := Text(PointPositionName)

  /** The default argument as intended: the point positions alone. */
  const DefaultSelection: Selection := Names([PointPositionName])

  /** An attribute the selection asks for: every attribute when it is empty, otherwise one it mentions. */
  predicate Selected(sel: Selection, name: seq<byte>) {
    SelectsAll(sel) || Mentions(sel, name)
  }

  /** Whether each attribute's data is kept, as intended: each attribute on its own name. */
  function KeepFlags(sel: Selection, attrs: seq<Attribute>): (r: seq<bool>)
    ensures |r| == |attrs|
  {
    seq(|attrs|, i requires 0 <= i < |attrs| => Selected(sel, attrs[i].name))
  }

  /**
   * Whether each attribute's data is kept, as written: `to_keep` starts out as "the
   * selection is empty", turns true at the first attribute the selection mentions,
   * and is never turned back.
   */
  function KeepFlagsAsWritten(sel: Selection, attrs: seq<Attribute>, keep: bool): (r: seq<bool>)
    ensures |r| == |attrs|
    decreases |attrs|
  {
    if attrs == [] then []
    else
      var k := keep || Mentions(sel, attrs[0].name);
      [k] + KeepFlagsAsWritten(sel, attrs[1..], k)
  }

  /** As written, attribute `i` is kept when the selection is empty or mentions it or any attribute before it. */
  lemma {:induction false} StickyAsWritten(sel: Selection, attrs: seq<Attribute>, keep: bool, i: nat)
    requires i < |attrs|
    ensures KeepFlagsAsWritten(sel, attrs, keep)[i] <==> keep || exists j :: 0 <= j <= i && Mentions(sel, attrs[j].name)
    decreases i
  {
    var k := keep || Mentions(sel, attrs[0].name);
    if i > 0 {
      StickyAsWritten(sel, attrs[1..], k, i - 1);
      assert KeepFlagsAsWritten(sel, attrs, keep)[i] == KeepFlagsAsWritten(sel, attrs[1..], k)[i - 1];
      if exists j :: 0 <= j <= i && Mentions(sel, attrs[j].name) {
        var j :| 0 <= j <= i && Mentions(sel, attrs[j].name);
        if j > 0 {
          assert attrs[1..][j - 1] == attrs[j];
        }
      }
      if exists j :: 0 <= j <= i - 1 && Mentions(sel, attrs[1..][j].name) {
        var j :| 0 <= j <= i - 1 && Mentions(sel, attrs[1..][j].name);
        assert attrs[1..][j] == attrs[j + 1];
      }
    }
  }

  /** An attribute carrying `name`, the rest of its descriptor being that of a particle Long. */
  function LongAttribute(name: seq<byte>): Attribute {
    Attribute(name, DataLong, [], StructureSingle, ContextComponent0D, 0, CategoryCustom, 0, true)
  }

  /**
   * Selecting `Mass` out of the attributes `Mass`, `Size`: as written `Size` is kept
   * too, because the flag set for `Mass` stays set.
   */
  lemma StickySelectionCounterexample()
    ensures var sel, attrs := Names([Ascii("Mass")]), [LongAttribute(Ascii("Mass")), LongAttribute(Ascii("Size"))];
      && KeepFlagsAsWritten(sel, attrs, SelectsAll(sel)) == [true, true]
      && KeepFlags(sel, attrs) == [true, false]
  {
    var sel, attrs := Names([Ascii("Mass")]), [LongAttribute(Ascii("Mass")), LongAttribute(Ascii("Size"))];
    assert Ascii("Size") != Ascii("Mass") by {
      assert Ascii("Size")[0] as int == 'S' as int;
    }
    assert KeepFlagsAsWritten(sel, attrs[1..], true) == [true];
  }

  /** The intended default selects exactly the attribute called `PointPosition___`. */
  lemma DefaultSelectsPointPositionsOnly(name: seq<byte>)
    ensures Selected(DefaultSelection, name) <==> name == PointPositionName
  {
  }

  /**
   * The default as written selects every name found inside `PointPosition___`:
   * an attribute called `Position` is selected along with the point positions.
   */
  lemma DefaultAsWrittenCounterexample()
    ensures Selected(DefaultSelectionAsWritten, Ascii("Position"))
    ensures !Selected(DefaultSelection, Ascii("Position"))
  {
    var name := Ascii("Position");
    assert InfixAt(name, PointPositionName, 5);
    assert name != PointPositionName;
  }

  // ---- The data loop ----

  /** One attribute's data section, read from `pos` with its keep flag; Truncated past the end of the stream. */
  function AttrStep(h: Header, c: nat, s: seq<byte>): ((Attribute, bool)) -> Step<Outcome>
    requires c > 0
  {
    (p: (Attribute, bool)) => (pos: nat) => if pos <= |s| then ReadAttributeData(h, p.0, p.1, c, s, pos) else Err(Truncated)
  }

  /** Each attribute with its keep flag. */
  function Zip(attrs: seq<Attribute>, keeps: seq<bool>): (r: seq<(Attribute, bool)>)
    requires |keeps| == |attrs|
    ensures |r| == |attrs| && forall i :: 0 <= i < |attrs| ==> r[i] == (attrs[i], keeps[i])
  {
    seq(|attrs|, i requires 0 <= i < |attrs| => (attrs[i], keeps[i]))
  }

  /** The attributes as the data loop left them, their constant flags updated. */
  function Attrs(outs: seq<Outcome>): (r: seq<Attribute>)
    ensures |r| == |outs| && forall i :: 0 <= i < |outs| ==> r[i] == outs[i].attr
  {
    seq(|outs|, i requires 0 <= i < |outs| => outs[i].attr)
  }

  /** Outcome `o` stores an array under `name`. */
  predicate Stores(o: Outcome, name: seq<byte>) {
    o.stored.Some? && o.attr.name == name
  }

  /** `self._data`: each stored array under its attribute's name, a later attribute of the same name replacing an earlier one. */
  function DataMap(outs: seq<Outcome>): (m: map<seq<byte>, seq<Value>>)
    decreases |outs|
  {
    if outs == [] then map[]
    else
      var m := DataMap(outs[..|outs| - 1]);
      var last := outs[|outs| - 1];
      if last.stored.Some? then m[last.attr.name := last.stored.value] else m
  }

  /**
   * A name is a key of the data exactly when some attribute of that name stored an
   * array, and it maps to the array of the last such attribute.
   */
  lemma {:induction false} DataMapLast(outs: seq<Outcome>, name: seq<byte>)
    ensures name in DataMap(outs) <==> exists i :: 0 <= i < |outs| && Stores(outs[i], name)
    ensures name in DataMap(outs) ==>
      exists i :: 0 <= i < |outs| && Stores(outs[i], name) && DataMap(outs)[name] == outs[i].stored.value
        && forall j :: i < j < |outs| ==> !Stores(outs[j], name)
    decreases |outs|
  {
    if outs != [] {
      var n := |outs|;
      var init := outs[..n - 1];
      DataMapLast(init, name);
      forall i | 0 <= i < n - 1 ensures outs[i] == init[i] {
      }
      if !Stores(outs[n - 1], name) {
        assert name in DataMap(outs) <==> name in DataMap(init);
        if name in DataMap(init) {
          var i :| 0 <= i < n - 1 && Stores(init[i], name) && DataMap(init)[name] == init[i].stored.value
            && forall j :: i < j < n - 1 ==> !Stores(init[j], name);
          assert DataMap(outs)[name] == DataMap(init)[name];
          assert forall j :: i < j < n ==> !Stores(outs[j], name);
        }
      }
    }
  }

  /** What a load leaves: the header, the attributes with their constant flags, and the stored arrays by name. */
  datatype Cache = Cache(header: Header, attributes: seq<Attribute>, data: map<seq<byte>, seq<Value>>)

  /** A point cloud without particles, whose data section the reader does not look at. */
  predicate EmptyPointCloud(h: Header) {
    h.objectType == ObjectPointCloud && h.particleCount == 0
  }

  /**
   * `ICEReader.load`: header, descriptors, then the data loop, with `c` the handler's
   * chunk size. The attribute count is a signed word, so a negative count reads no
   * descriptor. An unsupported version leaves no header, which load reports as an
   * error; every other failure propagates.
   */
  function Load(s: seq<byte>, sel: Selection, c: nat): (r: Result<Cache>)
    requires c > 0
    ensures r.Ok? ==> ReadHeader(s).Ok? && r.value.header == ReadHeader(s).value.0
  {
    var header :- ReadHeader(s);
    var h := header.0;
    var descs :- ReadAttributes(s, header.1, RangeCount(h.attributeCount));
    if EmptyPointCloud(h) then Ok(Cache(h, descs.0, map[]))
    else
      var outs :- RunOver(AttrStep(h, c, s), Zip(descs.0, KeepFlags(sel, descs.0)), descs.1);
      Ok(Cache(h, Attrs(outs.0), DataMap(outs.0)))
  }

  /** The descriptors `Load` works on, read right after the header. */
  function Descs(s: seq<byte>): (r: Result<(seq<Attribute>, nat)>)
    requires ReadHeader(s).Ok?
  {
    ReadAttributes(s, ReadHeader(s).value.1, RangeCount(ReadHeader(s).value.0.attributeCount))
  }

  /** The data loop's run, for a header and descriptors that were read. */
  function DataRun(s: seq<byte>, sel: Selection, c: nat): Result<(seq<Outcome>, nat)>
    requires c > 0 && ReadHeader(s).Ok? && Descs(s).Ok?
  {
    var descs := Descs(s).value;
    RunOver(AttrStep(ReadHeader(s).value.0, c, s), Zip(descs.0, KeepFlags(sel, descs.0)), descs.1)
  }

  /** Load is exactly its three stages. */
  lemma LoadStages(s: seq<byte>, sel: Selection, c: nat)
    requires c > 0
    ensures Load(s, sel, c).Ok? <==>
      ReadHeader(s).Ok? && Descs(s).Ok? && (EmptyPointCloud(ReadHeader(s).value.0) || DataRun(s, sel, c).Ok?)
    ensures Load(s, sel, c).Ok? && EmptyPointCloud(ReadHeader(s).value.0) ==>
      Load(s, sel, c).value == Cache(ReadHeader(s).value.0, Descs(s).value.0, map[])
    ensures Load(s, sel, c).Ok? && !EmptyPointCloud(ReadHeader(s).value.0) ==>
      var outs := DataRun(s, sel, c).value.0;
      Load(s, sel, c).value == Cache(ReadHeader(s).value.0, Attrs(outs), DataMap(outs))
  {
  }

  /** A version that cannot be read or is neither 102 nor 103 is what makes a load report an unsupported version. */
  lemma LoadVersion(s: seq<byte>, sel: Selection, c: nat)
    requires c > 0
    ensures Load(s, sel, c) == Err(UnsupportedVersion) <==> |s| < NameBytes + 4 || !SupportedVersion(WordAt(s, NameBytes))
    ensures Load(s, sel, c).Err? ==> Load(s, sel, c).error in {UnsupportedVersion, Truncated, NoAccessor}
  {
    if ReadHeader(s).Ok? && Descs(s).Ok? {
      DataRunErrors(s, sel, c);
    }
  }

  /** One attribute's data fails only for a missing accessor or a stream cut short. */
  lemma AttrStepFails(h: Header, c: nat, s: seq<byte>)
    requires c > 0
    ensures FailsOverWithin(AttrStep(h, c, s), {NoAccessor, Truncated})
  {
    forall p: (Attribute, bool), pos: nat | AttrStep(h, c, s)(p)(pos).Err?
      ensures AttrStep(h, c, s)(p)(pos).error in {NoAccessor, Truncated}
    {
      if pos <= |s| {
        assert AttrStep(h, c, s)(p)(pos) == ReadAttributeData(h, p.0, p.1, c, s, pos);
      }
    }
  }

  /** The data loop fails only for a missing accessor or a stream cut short. */
  lemma DataRunErrors(s: seq<byte>, sel: Selection, c: nat)
    requires c > 0 && ReadHeader(s).Ok? && Descs(s).Ok?
    ensures DataRun(s, sel, c).Err? ==> DataRun(s, sel, c).error in {NoAccessor, Truncated}
  {
    var h, descs := ReadHeader(s).value.0, Descs(s).value;
    AttrStepFails(h, c, s);
    RunOverError(AttrStep(h, c, s), {NoAccessor, Truncated}, Zip(descs.0, KeepFlags(sel, descs.0)), descs.1);
  }

  /**
   * Item by item, the data loop hands back each descriptor with only its constant flag
   * changed, stores an array exactly for the point positions and for selected
   * attributes with an element count, and sizes that array by the particle or element count.
   */
  lemma DataRunItems(s: seq<byte>, sel: Selection, c: nat)
    requires c > 0 && ReadHeader(s).Ok? && Descs(s).Ok? && DataRun(s, sel, c).Ok?
    ensures var h, descs, outs := ReadHeader(s).value.0, Descs(s).value.0, DataRun(s, sel, c).value.0;
      && |outs| == |descs|
      && forall i :: 0 <= i < |descs| ==>
           && outs[i].attr == descs[i].(isConstant := outs[i].attr.isConstant)
           && (outs[i].stored.Some? <==>
                 descs[i].name == PointPositionName || (Selected(sel, descs[i].name) && ElementCount(h, descs[i].contextType).Some?))
           && (outs[i].stored.Some? ==> |outs[i].stored.value| == StoredLength(h, descs[i]))
  {
    var h, descs := ReadHeader(s).value.0, Descs(s).value;
    AttrStepDescribes(h, c, s);
    RunDescribed(h, AttrStep(h, c, s), descs.0, KeepFlags(sel, descs.0), descs.1);
  }

  /**
   * Outcome `o` is what the data loop makes of descriptor `a` with keep flag `keep`:
   * the descriptor with only its constant flag changed, and an array, of the stored
   * length, exactly for the point positions and for a kept attribute with an element count.
   */
  predicate Described(h: Header, a: Attribute, keep: bool, o: Outcome) {
    && o.attr == a.(isConstant := o.attr.isConstant)
    && (o.stored.Some? <==> a.name == PointPositionName || (keep && ElementCount(h, a.contextType).Some?))
    && (o.stored.Some? ==> |o.stored.value| == StoredLength(h, a))
  }

  /** Every attribute a data step reads is `Described` by its keep flag. */
  ghost predicate DescribesEach(h: Header, step: ((Attribute, bool)) -> Step<Outcome>) {
    forall p: (Attribute, bool), pos: nat :: step(p)(pos).Ok? ==> Described(h, p.0, p.1, step(p)(pos).value.0)
  }

  /** A data loop whose every step is `Described` hands back one described outcome per descriptor. */
  lemma RunDescribed(h: Header, step: ((Attribute, bool)) -> Step<Outcome>, attrs: seq<Attribute>, keeps: seq<bool>, pos: nat)
    requires |keeps| == |attrs| && DescribesEach(h, step) && RunOver(step, Zip(attrs, keeps), pos).Ok?
    ensures var outs := RunOver(step, Zip(attrs, keeps), pos).value.0;
      |outs| == |attrs| && forall i :: 0 <= i < |attrs| ==> Described(h, attrs[i], keeps[i], outs[i])
  {
    var items := Zip(attrs, keeps);
    var outs := RunOver(step, items, pos).value.0;
    var ends := RunOverSplits(step, items, pos);
    forall i | 0 <= i < |attrs| ensures Described(h, attrs[i], keeps[i], outs[i]) {
      assert Yields(step(items[i])(ends[i]), outs[i], ends[i + 1]);
    }
  }

  lemma AttrStepDescribes(h: Header, c: nat, s: seq<byte>)
    requires c > 0
    ensures DescribesEach(h, AttrStep(h, c, s))
  {
    forall p: (Attribute, bool), pos: nat | AttrStep(h, c, s)(p)(pos).Ok?
      ensures Described(h, p.0, p.1, AttrStep(h, c, s)(p)(pos).value.0)
    {
      WhatIsStored(h, p.0, p.1, c, s, pos);
    }
  }

  /** A load returns one attribute per descriptor the header counts, each as described but for its constant flag. */
  lemma LoadAttributes(s: seq<byte>, sel: Selection, c: nat)
    requires c > 0 && Load(s, sel, c).Ok?
    ensures var cache, descs := Load(s, sel, c).value, Descs(s).value.0;
      && |cache.attributes| == |descs| == RangeCount(cache.header.attributeCount)
      && forall i :: 0 <= i < |descs| ==> cache.attributes[i] == descs[i].(isConstant := cache.attributes[i].isConstant)
  {
    LoadStages(s, sel, c);
    if !EmptyPointCloud(ReadHeader(s).value.0) {
      DataRunItems(s, sel, c);
    }
  }

  /**
   * After a load that reached the data section, a name has an array exactly when an
   * attribute of that name is the point positions, or is selected and has an element
   * count; the array holds one value per particle or element.
   */
  lemma LoadData(s: seq<byte>, sel: Selection, c: nat, name: seq<byte>)
    requires c > 0 && Load(s, sel, c).Ok? && !EmptyPointCloud(Load(s, sel, c).value.header)
    ensures var cache := Load(s, sel, c).value;
      var h, attrs := cache.header, cache.attributes;
      && (name in cache.data <==>
            exists i :: 0 <= i < |attrs| && attrs[i].name == name
              && (name == PointPositionName || (Selected(sel, name) && ElementCount(h, attrs[i].contextType).Some?)))
      && (name in cache.data ==> exists i :: 0 <= i < |attrs| && attrs[i].name == name && |cache.data[name]| == StoredLength(h, attrs[i]))
  {
    LoadStages(s, sel, c);
    DataRunItems(s, sel, c);
    var outs := DataRun(s, sel, c).value.0;
    DataMapLast(outs, name);
    var attrs := Load(s, sel, c).value.attributes;
    assert forall i :: 0 <= i < |attrs| ==> attrs[i] == outs[i].attr;
  }

  /** With the intended default selection, the point positions are the only array a load stores. */
  lemma DefaultLoadsPointPositionsOnly(s: seq<byte>, c: nat)
    requires c > 0 && Load(s, DefaultSelection, c).Ok?
    ensures Load(s, DefaultSelection, c).value.data.Keys <= {PointPositionName}
  {
    LoadStages(s, DefaultSelection, c);
    if !EmptyPointCloud(Load(s, DefaultSelection, c).value.header) {
      forall name | name in Load(s, DefaultSelection, c).value.data ensures name == PointPositionName {
        LoadData(s, DefaultSelection, c, name);
        DefaultSelectsPointPositionsOnly(name);
      }
    }
  }

  // ---- The load as written ----

  /** One attribute's data section as the data loop is written. */
  function AttrStepAsWritten(h: Header, c: nat, s: seq<byte>): ((Attribute, bool)) -> Step<Outcome>
    requires c > 0
  {
    (p: (Attribute, bool)) => (pos: nat) => if pos <= |s| then ReadAttributeDataAsWritten(h, p.0, p.1, c, s, pos) else Err(Truncated)
  }

  lemma AttrStepAsWrittenDescribes(h: Header, c: nat, s: seq<byte>)
    requires c > 0
    ensures DescribesEach(h, AttrStepAsWritten(h, c, s))
  {
    forall p: (Attribute, bool), pos: nat | AttrStepAsWritten(h, c, s)(p)(pos).Ok?
      ensures Described(h, p.0, p.1, AttrStepAsWritten(h, c, s)(p)(pos).value.0)
    {
      WhatIsStoredAsWritten(h, p.0, p.1, c, s, pos);
    }
  }

  /**
   * `ICEReader.load` as the program runs it: the blob-name loop of `Attribute.read`, the
   * sticky `to_keep`, and the skip path that passes `len(chunk) * size()` bytes over.
   */
  function LoadAsWritten(s: seq<byte>, sel: Selection, c: nat): (r: Result<Cache>)
    requires c > 0
    ensures r.Ok? ==> ReadHeader(s).Ok? && r.value.header == ReadHeader(s).value.0
  {
    var header :- ReadHeader(s);
    var h := header.0;
    var descs :- ReadAttributesAsWritten(s, header.1, RangeCount(h.attributeCount));
    if EmptyPointCloud(h) then Ok(Cache(h, descs.0, map[]))
    else
      var outs :- RunOver(AttrStepAsWritten(h, c, s), Zip(descs.0, KeepFlagsAsWritten(sel, descs.0, SelectsAll(sel))), descs.1);
      Ok(Cache(h, Attrs(outs.0), DataMap(outs.0)))
  }

  /** As written, one attribute's data fails for a missing accessor, a stream cut short, or by raising on a skip. */
  lemma AttrStepAsWrittenFails(h: Header, c: nat, s: seq<byte>)
    requires c > 0
    ensures FailsOverWithin(AttrStepAsWritten(h, c, s), {NoAccessor, Truncated, ProgramError})
  {
    forall p: (Attribute, bool), pos: nat | AttrStepAsWritten(h, c, s)(p)(pos).Err?
      ensures AttrStepAsWritten(h, c, s)(p)(pos).error in {NoAccessor, Truncated, ProgramError}
    {
      if pos <= |s| {
        assert AttrStepAsWritten(h, c, s)(p)(pos) == ReadAttributeDataAsWritten(h, p.0, p.1, c, s, pos);
      }
    }
  }

  /**
   * As written too, a load reports an unsupported version exactly when the version word
   * is missing or neither 102 nor 103. Its only other failures are a stream cut short,
   * a missing accessor, and the raises of the blob-name loop and of the skip.
   */
  lemma LoadAsWrittenVersion(s: seq<byte>, sel: Selection, c: nat)
    requires c > 0
    ensures LoadAsWritten(s, sel, c) == Err(UnsupportedVersion) <==> |s| < NameBytes + 4 || !SupportedVersion(WordAt(s, NameBytes))
    ensures LoadAsWritten(s, sel, c).Err? ==> LoadAsWritten(s, sel, c).error in {UnsupportedVersion, Truncated, NoAccessor, ProgramError}
  {
    if ReadHeader(s).Ok? {
      LoadAsWrittenPastHeader(s, sel, c);
    }
  }

  /** Once the header is read, a load as written fails only for a stream cut short, a missing accessor, or a raise. */
  lemma LoadAsWrittenPastHeader(s: seq<byte>, sel: Selection, c: nat)
    requires c > 0 && ReadHeader(s).Ok?
    ensures LoadAsWritten(s, sel, c).Err? ==> LoadAsWritten(s, sel, c).error in {Truncated, NoAccessor, ProgramError}
  {
    var (h, p) := ReadHeader(s).value;
    var descs := ReadAttributesAsWritten(s, p, RangeCount(h.attributeCount));
    if descs.Err? {
      assert descs.error in {Truncated, ProgramError};
    } else if !EmptyPointCloud(h) {
      DataRunAsWrittenErrors(s, sel, c);
      LoadAsWrittenStage(s, sel, c);
    }
  }

  /** Past its header and descriptors, a load as written that reaches the data loop fails exactly as that loop does. */
  lemma LoadAsWrittenStage(s: seq<byte>, sel: Selection, c: nat)
    requires c > 0 && ReadHeader(s).Ok? && ReadAttributesAsWritten(s, ReadHeader(s).value.1, RangeCount(ReadHeader(s).value.0.attributeCount)).Ok?
    requires !EmptyPointCloud(ReadHeader(s).value.0)
    ensures LoadAsWritten(s, sel, c).Err? <==> DataRunAsWritten(s, sel, c).Err?
    ensures LoadAsWritten(s, sel, c).Err? ==> LoadAsWritten(s, sel, c).error == DataRunAsWritten(s, sel, c).error
  {
  }

  /** The data loop as written, for a header and descriptors that were read. */
  function DataRunAsWritten(s: seq<byte>, sel: Selection, c: nat): Result<(seq<Outcome>, nat)>
    requires c > 0 && ReadHeader(s).Ok? && ReadAttributesAsWritten(s, ReadHeader(s).value.1, RangeCount(ReadHeader(s).value.0.attributeCount)).Ok?
  {
    var descs := ReadAttributesAsWritten(s, ReadHeader(s).value.1, RangeCount(ReadHeader(s).value.0.attributeCount)).value;
    RunOver(AttrStepAsWritten(ReadHeader(s).value.0, c, s), Zip(descs.0, KeepFlagsAsWritten(sel, descs.0, SelectsAll(sel))), descs.1)
  }

  /** The data loop as written fails only for a missing accessor, a stream cut short, or a raise. */
  lemma DataRunAsWrittenErrors(s: seq<byte>, sel: Selection, c: nat)
    requires c > 0 && ReadHeader(s).Ok? && ReadAttributesAsWritten(s, ReadHeader(s).value.1, RangeCount(ReadHeader(s).value.0.attributeCount)).Ok?
    ensures DataRunAsWritten(s, sel, c).Err? ==> DataRunAsWritten(s, sel, c).error in {NoAccessor, Truncated, ProgramError}
  {
    var h := ReadHeader(s).value.0;
    var descs := ReadAttributesAsWritten(s, ReadHeader(s).value.1, RangeCount(h.attributeCount)).value;
    AsWrittenRunErrors(h, c, s, Zip(descs.0, KeepFlagsAsWritten(sel, descs.0, SelectsAll(sel))), descs.1);
  }

  lemma AsWrittenRunErrors(h: Header, c: nat, s: seq<byte>, items: seq<(Attribute, bool)>, pos: nat)
    requires c > 0
    ensures RunOver(AttrStepAsWritten(h, c, s), items, pos).Err? ==> RunOver(AttrStepAsWritten(h, c, s), items, pos).error in {NoAccessor, Truncated, ProgramError}
  {
    AttrStepAsWrittenFails(h, c, s);
    RunOverError(AttrStepAsWritten(h, c, s), {NoAccessor, Truncated, ProgramError}, items, pos);
  }

  /**
   * A load as written, whatever the selection, returns `attribute_count` attributes
   * (none for a negative count), each its descriptor except for the constant flag.
   */
  lemma LoadAsWrittenAttributes(s: seq<byte>, sel: Selection, c: nat)
    requires c > 0 && LoadAsWritten(s, sel, c).Ok?
    ensures ReadHeader(s).Ok? && Descs(s).Ok?
    ensures var cache, descs := LoadAsWritten(s, sel, c).value, Descs(s).value.0;
      && |cache.attributes| == |descs| == RangeCount(cache.header.attributeCount)
      && forall i :: 0 <= i < |descs| ==> cache.attributes[i] == descs[i].(isConstant := cache.attributes[i].isConstant)
  {
    var (h, p) := ReadHeader(s).value;
    var n := RangeCount(h.attributeCount);
    assert ReadAttributesAsWritten(s, p, n) == ReadAttributes(s, p, n);
    var descs := ReadAttributes(s, p, n).value;
    if !EmptyPointCloud(h) {
      var keeps := KeepFlagsAsWritten(sel, descs.0, SelectsAll(sel));
      AttrStepAsWrittenDescribes(h, c, s);
      RunDescribed(h, AttrStepAsWritten(h, c, s), descs.0, keeps, descs.1);
    }
  }

  /** As written, attribute `i` is kept: the selection is empty, or mentions attribute `i` or one before it. */
  predicate KeptAsWritten(sel: Selection, attrs: seq<Attribute>, i: nat) {
    SelectsAll(sel) || exists j :: 0 <= j <= i && j < |attrs| && Mentions(sel, attrs[j].name)
  }

  /** An empty selection keeps every attribute, as written and as intended alike. */
  lemma KeepAllBothWays(sel: Selection, attrs: seq<Attribute>)
    requires SelectsAll(sel)
    ensures KeepFlagsAsWritten(sel, attrs, true) == KeepFlags(sel, attrs)
    ensures forall i :: 0 <= i < |attrs| ==> KeepFlags(sel, attrs)[i]
  {
    forall i | 0 <= i < |attrs| ensures KeepFlagsAsWritten(sel, attrs, true)[i] == KeepFlags(sel, attrs)[i] {
      StickyAsWritten(sel, attrs, true, i);
    }
  }

  /**
   * With an empty selection, the load as written is the intended load or raises in the
   * blob-name loop. When the descriptors can be read, it is the intended load exactly
   * when none of them has blob names, and raises otherwise.
   */
  lemma LoadAsWrittenKeepingAll(s: seq<byte>, sel: Selection, c: nat)
    requires c > 0 && SelectsAll(sel)
    ensures LoadAsWritten(s, sel, c) == Load(s, sel, c) || LoadAsWritten(s, sel, c) == Err(ProgramError)
    ensures ReadHeader(s).Ok? && Descs(s).Ok? ==>
      LoadAsWritten(s, sel, c) ==
        if forall i :: 0 <= i < |Descs(s).value.0| ==> BlobFree(Descs(s).value.0[i]) then Load(s, sel, c) else Err(ProgramError)
  {
    if ReadHeader(s).Ok? {
      var (h, p) := ReadHeader(s).value;
      var n := RangeCount(h.attributeCount);
      if ReadAttributesAsWritten(s, p, n) == ReadAttributes(s, p, n) && ReadAttributes(s, p, n).Ok? && !EmptyPointCloud(h) {
        var descs := ReadAttributes(s, p, n).value;
        KeepAllBothWays(sel, descs.0);
        var items := Zip(descs.0, KeepFlags(sel, descs.0));
        assert SameOn(AttrStepAsWritten(h, c, s), AttrStep(h, c, s), items);
        RunOverSameOn(AttrStepAsWritten(h, c, s), AttrStep(h, c, s), items, descs.1);
      }
    }
  }

  /**
   * After a load as written that reached the data section, a name has an array exactly
   * when an attribute of that name is the point positions, or is kept as written and
   * has an element count; the array holds one value per particle or element.
   */
  lemma LoadDataAsWritten(s: seq<byte>, sel: Selection, c: nat, name: seq<byte>)
    requires c > 0 && LoadAsWritten(s, sel, c).Ok? && !EmptyPointCloud(LoadAsWritten(s, sel, c).value.header)
    ensures var cache := LoadAsWritten(s, sel, c).value;
      var h, attrs := cache.header, cache.attributes;
      && (name in cache.data <==>
            exists i :: 0 <= i < |attrs| && attrs[i].name == name
              && (name == PointPositionName || (KeptAsWritten(sel, attrs, i) && ElementCount(h, attrs[i].contextType).Some?)))
      && (name in cache.data ==> exists i :: 0 <= i < |attrs| && attrs[i].name == name && |cache.data[name]| == StoredLength(h, attrs[i]))
  {
    var (h, p) := ReadHeader(s).value;
    var descs := ReadAttributesAsWritten(s, p, RangeCount(h.attributeCount)).value;
    var keeps := KeepFlagsAsWritten(sel, descs.0, SelectsAll(sel));
    var outs := RunOver(AttrStepAsWritten(h, c, s), Zip(descs.0, keeps), descs.1).value.0;
    AttrStepAsWrittenDescribes(h, c, s);
    RunDescribed(h, AttrStepAsWritten(h, c, s), descs.0, keeps, descs.1);
    assert LoadAsWritten(s, sel, c).value == Cache(h, Attrs(outs), DataMap(outs));
    KeptAsWrittenFlags(sel, descs.0, Attrs(outs));
    DescribedData(h, descs.0, keeps, outs, name);
  }

  /** The as-written keep flags, read off attributes that carry the descriptors' names. */
  lemma KeptAsWrittenFlags(sel: Selection, descs: seq<Attribute>, attrs: seq<Attribute>)
    requires |attrs| == |descs| && forall i :: 0 <= i < |descs| ==> attrs[i].name == descs[i].name
    ensures forall i :: 0 <= i < |descs| ==> (KeepFlagsAsWritten(sel, descs, SelectsAll(sel))[i] <==> KeptAsWritten(sel, attrs, i))
  {
    forall i | 0 <= i < |descs| ensures KeepFlagsAsWritten(sel, descs, SelectsAll(sel))[i] <==> KeptAsWritten(sel, attrs, i) {
      StickyAsWritten(sel, descs, SelectsAll(sel), i);
    }
  }

  /**
   * Outcomes `Described` by their keep flags store, under a name, exactly what the
   * flags and the point positions call for, sized by the particle or element count.
   */
  lemma DescribedData(h: Header, descs: seq<Attribute>, keeps: seq<bool>, outs: seq<Outcome>, name: seq<byte>)
    requires |outs| == |descs| == |keeps|
    requires forall i :: 0 <= i < |descs| ==> Described(h, descs[i], keeps[i], outs[i])
    ensures var attrs := Attrs(outs);
      && (name in DataMap(outs) <==>
            exists i :: 0 <= i < |attrs| && attrs[i].name == name
              && (name == PointPositionName || (keeps[i] && ElementCount(h, attrs[i].contextType).Some?)))
      && (name in DataMap(outs) ==> exists i :: 0 <= i < |attrs| && attrs[i].name == name && |DataMap(outs)[name]| == StoredLength(h, attrs[i]))
  {
    DataMapLast(outs, name);
    assert forall i :: 0 <= i < |outs| ==> Attrs(outs)[i] == outs[i].attr;
  }

  /**
   * `reader.load()` with its default argument as written stores, besides the point
   * positions, every attribute after them that has an element count.
   */
  lemma DefaultLoadAsWritten(s: seq<byte>, c: nat, i: nat, j: nat)
    requires c > 0 && LoadAsWritten(s, DefaultSelectionAsWritten, c).Ok?
    requires var cache := LoadAsWritten(s, DefaultSelectionAsWritten, c).value;
      && !EmptyPointCloud(cache.header)
      && j <= i < |cache.attributes| && cache.attributes[j].name == PointPositionName
      && ElementCount(cache.header, cache.attributes[i].contextType).Some?
    ensures var cache := LoadAsWritten(s, DefaultSelectionAsWritten, c).value;
      cache.attributes[i].name in cache.data && PointPositionName in cache.data
  {
    var cache := LoadAsWritten(s, DefaultSelectionAsWritten, c).value;
    assert InfixAt(PointPositionName, PointPositionName, 0);
    assert KeptAsWritten(DefaultSelectionAsWritten, cache.attributes, i);
    LoadDataAsWritten(s, DefaultSelectionAsWritten, c, cache.attributes[i].name);
    LoadDataAsWritten(s, DefaultSelectionAsWritten, c, PointPositionName);
  }

  /**
   * An attribute count with its sign bit set is negative, so `range` runs no times:
   * the load reads no descriptor and stores nothing, as written and as intended.
   */
  lemma NegativeAttributeCount(s: seq<byte>, sel: Selection, c: nat)
    requires c > 0 && ReadHeader(s).Ok? && ReadHeader(s).value.0.attributeCount >= 0x8000_0000
    ensures Load(s, sel, c) == Ok(Cache(ReadHeader(s).value.0, [], map[]))
    ensures LoadAsWritten(s, sel, c) == Load(s, sel, c)
  {
    var (h, p) := ReadHeader(s).value;
    assert RangeCount(h.attributeCount) == 0;
    assert ReadAttributes(s, p, 0) == Ok(([], p));
    assert ReadAttributesAsWritten(s, p, 0) == Ok(([], p));
    assert Attrs([]) == [];
  }
}
