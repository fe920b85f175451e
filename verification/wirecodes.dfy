/**
 * The wire codes the decoder dispatches on: context, data-type and structure
 * flags, attribute categories, object types and cache versions.
 */
module WireCodes {
  import opened Bytes

  // Context types (siICENodeContextType): which component set an attribute lives on.
  const ContextSingleton: Word := 0x1
  const ContextComponent0D: Word := 0x2
  const ContextComponent1D: Word := 0x4
  const ContextComponent2D: Word := 0x8
  const ContextComponent0D2D: Word := 0x10
  const ContextElementGenerator: Word := 0x20
  const ContextSingletonOrComponent0D: Word := 0x3
  const ContextSingletonOrComponent1D: Word := 0x5
  const ContextSingletonOrComponent2D: Word := 0x9
  const ContextSingletonOrComponent0D2D: Word := 0x11
  const ContextSingletonOrElementGenerator: Word := 0x21
  const ContextComponent0DOr1DOr2D: Word := 0xe
  const ContextNotSingleton: Word := 0x3e
  const ContextAny: Word := 0x3f

  // Data types (siICENodeDataType).
  const DataBool: Word := 0x1
  const DataLong: Word := 0x2
  const DataFloat: Word := 0x4
  const DataVector2: Word := 0x8
  const DataVector3: Word := 0x10
  const DataVector4: Word := 0x20
  const DataQuaternion: Word := 0x40
  const DataMatrix33: Word := 0x80
  const DataMatrix44: Word := 0x100
  const DataColor4: Word := 0x200
  const DataGeometry: Word := 0x400
  const DataInterface: Word := 0x400
  const DataLocation: Word := 0x800
  const DataExecute: Word := 0x1000
  const DataReference: Word := 0x2000
  const DataRotation: Word := 0x4000
  const DataShape: Word := 0x8000
  const DataCustomType: Word := 0x10000
  const DataString: Word := 0x20000
  const DataIcon: Word := 0x40000
  const DataArithmeticSupport: Word := 0x41fe
  const DataMultiComp: Word := 0x43f8
  const DataValue: Word := 0x7c3ff
  const DataAny: Word := 0x7ffff

  // Structure types (siICENodeStructureType).
  const StructureSingle: Word := 0x1
  const StructureArray: Word := 0x2
  const StructureAny: Word := 0x3

  // Attribute categories.
  const CategoryUnknown: Word := 0
  const CategoryBuiltin: Word := 1
  const CategoryCustom: Word := 2

  // Object types stored in the header.
  const ObjectPointCloud: Word := 0
  const ObjectPolygonMesh: Word := 1
  const ObjectNurbsMesh: Word := 2
  const ObjectNurbsCurve: Word := 3

  // Cache versions.
  const CacheV100: Word := 100
  const CacheV101: Word := 101
  const CacheV102: Word := 102
  const CacheV103: Word := 103

  /** The header layouts the reader knows how to decode. */
  predicate SupportedVersion(v: Word) {
    v == CacheV102 || v == CacheV103
  }

  /** Bitwise OR of two flag words. */
  function BitOr(a: Word, b: Word): Word {
    ((a as bv32) | (b as bv32)) as Word
  }

  function Pow2(k: nat): nat {
    if k == 0 then 1 else 2 * Pow2(k - 1)
  }

  /** The context codes that name one component set each, in bit order. */
  const ElementContexts: seq<Word> :=
    [ContextSingleton, ContextComponent0D, ContextComponent1D, ContextComponent2D, ContextComponent0D2D]

  /** Every data type the format knows, in bit order, with Interface left out as the alias of Geometry. */
  const ConcreteDataTypes: seq<Word> :=
    [DataBool, DataLong, DataFloat, DataVector2, DataVector3, DataVector4, DataQuaternion,
     DataMatrix33, DataMatrix44, DataColor4, DataGeometry, DataLocation, DataExecute,
     DataReference, DataRotation, DataShape, DataCustomType, DataString, DataIcon]

  lemma Pow2Table()
    ensures Pow2(0) == 0x1 && Pow2(1) == 0x2 && Pow2(2) == 0x4 && Pow2(3) == 0x8
    ensures Pow2(4) == 0x10 && Pow2(5) == 0x20 && Pow2(6) == 0x40 && Pow2(7) == 0x80
    ensures Pow2(8) == 0x100 && Pow2(9) == 0x200 && Pow2(10) == 0x400 && Pow2(11) == 0x800
    ensures Pow2(12) == 0x1000 && Pow2(13) == 0x2000 && Pow2(14) == 0x4000 && Pow2(15) == 0x8000
    ensures Pow2(16) == 0x10000 && Pow2(17) == 0x20000 && Pow2(18) == 0x40000
  {
  }

  /**
   * The five element-count contexts are the bits 0 to 4, ElementGenerator is bit 5:
   * six distinct powers of two.
   */
  lemma ContextFlagsAreBits()
    ensures forall i :: 0 <= i < |ElementContexts| ==> ElementContexts[i] == Pow2(i)
    ensures ContextElementGenerator == Pow2(5)
    ensures forall i, j :: 0 <= i < j < |ElementContexts| ==> ElementContexts[i] < ElementContexts[j] < ContextElementGenerator
  {
    Pow2Table();
  }

  /** The composite contexts are the bitwise unions of the contexts they name. */
  lemma CompositeContexts()
    ensures ContextSingletonOrComponent0D == BitOr(ContextSingleton, ContextComponent0D)
    ensures ContextSingletonOrComponent1D == BitOr(ContextSingleton, ContextComponent1D)
    ensures ContextSingletonOrComponent2D == BitOr(ContextSingleton, ContextComponent2D)
    ensures ContextSingletonOrComponent0D2D == BitOr(ContextSingleton, ContextComponent0D2D)
    ensures ContextSingletonOrElementGenerator == BitOr(ContextSingleton, ContextElementGenerator)
    ensures ContextComponent0DOr1DOr2D == BitOr(BitOr(ContextComponent0D, ContextComponent1D), ContextComponent2D)
    ensures ContextNotSingleton ==
      BitOr(BitOr(BitOr(BitOr(ContextComponent0D, ContextComponent1D), ContextComponent2D),
                  ContextComponent0D2D), ContextElementGenerator)
    ensures ContextAny == BitOr(ContextSingleton, ContextNotSingleton)
    ensures ContextNotSingleton == ContextAny - ContextSingleton
  {
    assert BitOr(ContextComponent0D, ContextComponent1D) == 0x6;
    assert BitOr(0x6, ContextComponent2D) == 0xe;
    assert BitOr(0xe, ContextComponent0D2D) == 0x1e;
    assert BitOr(0x1e, ContextElementGenerator) == 0x3e;
  }

  /** Each concrete data type is its own bit (bits 0 to 18, in the order listed); Interface reuses Geometry's bit. */
  lemma DataTypeFlagsAreBits()
    ensures forall i :: 0 <= i < |ConcreteDataTypes| ==> ConcreteDataTypes[i] == Pow2(i)
    ensures forall i, j :: 0 <= i < j < |ConcreteDataTypes| ==> ConcreteDataTypes[i] < ConcreteDataTypes[j]
    ensures DataInterface == DataGeometry
  {
    Pow2Table();
  }

  /** Value is every concrete type except Geometry, Location, Execute and Reference; Any adds those four back. */
  lemma DataAnyIsUnion()
    ensures DataValue ==
      BitOr(BitOr(BitOr(BitOr(BitOr(BitOr(BitOr(BitOr(BitOr(BitOr(BitOr(BitOr(BitOr(BitOr(
        DataBool, DataLong), DataFloat), DataVector2), DataVector3), DataVector4), DataQuaternion),
        DataMatrix33), DataMatrix44), DataColor4), DataRotation), DataShape), DataCustomType),
        DataString), DataIcon)
    ensures DataAny ==
      BitOr(BitOr(BitOr(BitOr(DataValue, DataGeometry), DataLocation), DataExecute), DataReference)
  {
    assert BitOr(DataBool, DataLong) == 0x3;
    assert BitOr(0x3, DataFloat) == 0x7;
    assert BitOr(0x7, DataVector2) == 0xf;
    assert BitOr(0xf, DataVector3) == 0x1f;
    assert BitOr(0x1f, DataVector4) == 0x3f;
    assert BitOr(0x3f, DataQuaternion) == 0x7f;
    assert BitOr(0x7f, DataMatrix33) == 0xff;
    assert BitOr(0xff, DataMatrix44) == 0x1ff;
    assert BitOr(0x1ff, DataColor4) == 0x3ff;
    assert BitOr(0x3ff, DataRotation) == 0x43ff;
    assert BitOr(0x43ff, DataShape) == 0xc3ff;
    assert BitOr(0xc3ff, DataCustomType) == 0x1c3ff;
    assert BitOr(0x1c3ff, DataString) == 0x3c3ff;
    assert BitOr(0x3c3ff, DataIcon) == 0x7c3ff;
    assert BitOr(DataValue, DataGeometry) == 0x7c7ff;
    assert BitOr(0x7c7ff, DataLocation) == 0x7cfff;
    assert BitOr(0x7cfff, DataExecute) == 0x7dfff;
    assert BitOr(0x7dfff, DataReference) == 0x7ffff;
  }

  /** ArithmeticSupport and MultiComp are unions of the numeric types. */
  lemma DataTypeGroups()
    ensures DataArithmeticSupport ==
      BitOr(BitOr(BitOr(BitOr(BitOr(BitOr(BitOr(BitOr(
        DataLong, DataFloat), DataVector2), DataVector3), DataVector4), DataQuaternion),
        DataMatrix33), DataMatrix44), DataRotation)
    ensures DataMultiComp ==
      BitOr(BitOr(BitOr(BitOr(BitOr(BitOr(BitOr(
        DataVector2, DataVector3), DataVector4), DataQuaternion), DataMatrix33),
        DataMatrix44), DataColor4), DataRotation)
  {
    assert BitOr(DataLong, DataFloat) == 0x6;
    assert BitOr(0x6, DataVector2) == 0xe;
    assert BitOr(0xe, DataVector3) == 0x1e;
    assert BitOr(0x1e, DataVector4) == 0x3e;
    assert BitOr(0x3e, DataQuaternion) == 0x7e;
    assert BitOr(0x7e, DataMatrix33) == 0xfe;
    assert BitOr(0xfe, DataMatrix44) == 0x1fe;
    assert BitOr(0x1fe, DataRotation) == 0x41fe;
    assert BitOr(DataVector2, DataVector3) == 0x18;
    assert BitOr(0x18, DataVector4) == 0x38;
    assert BitOr(0x38, DataQuaternion) == 0x78;
    assert BitOr(0x78, DataMatrix33) == 0xf8;
    assert BitOr(0xf8, DataMatrix44) == 0x1f8;
    assert BitOr(0x1f8, DataColor4) == 0x3f8;
    assert BitOr(0x3f8, DataRotation) == 0x43f8;
  }

  /** Structure Any is Single or Array, two distinct bits. */
  lemma StructureFlags()
    ensures StructureSingle == Pow2(0) && StructureArray == Pow2(1)
    ensures StructureAny == BitOr(StructureSingle, StructureArray)
  {
  }

  /**
   * The four cache versions are increasing, and the accepted ones form the range from
   * 102 up to the newest known version: nothing older, nothing newer, nothing between.
   */
  lemma VersionCodes()
    ensures CacheV100 < CacheV101 < CacheV102 < CacheV103
    ensures forall v: Word :: SupportedVersion(v) <==> CacheV102 <= v <= CacheV103
    ensures !SupportedVersion(CacheV100) && !SupportedVersion(CacheV101)
  {
  }
}
