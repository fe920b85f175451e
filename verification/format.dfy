/**
 * The accessors' text `format`: a dump of a decoded array, one labelled line per
 * record (three per Matrix33 record, four per Matrix44 record). Number rendering
 * (`%d`, `%f`, `%s` of a cell) is a parameter; the record index is rendered in decimal.
 */
module AccessorFormat {
  import opened Results
  import opened Accessors
  import Decimal
  import opened Seqs

  /** The printf conversion a field is rendered with. */
  datatype Conversion = IntConversion | FloatConversion | StringConversion

  /** One `label=value` field of a line: its label and the record component it shows. */
  datatype Field = Field(name: string, component: nat)

  const NoData: string := "<no data>"

  function Conv(a: Accessor): Conversion {
    match a
    case LongAccessor | BoolAccessor => IntConversion
    case StringAccessor => StringConversion
    case _ => FloatConversion
  }

  function MatrixRow(r: nat, width: nat): seq<Field> {
    seq(width, c requires 0 <= c < width =>
      Field("m[" + Decimal.ToString(r) + "][" + Decimal.ToString(c) + "]", r * width + c))
  }

  /** The fields of each line `format` prints for one record; empty for the custom-type accessor, which has no `format`. */
  function Layout(a: Accessor): seq<seq<Field>> {
    match a
    case LongAccessor | BoolAccessor | FloatAccessor => [[Field("value", 0)]]
    case StringAccessor => [[Field("string", 0)]]
    case Vector2Accessor => [[Field("x", 0), Field("y", 1)]]
    case Vector3Accessor => [[Field("x", 0), Field("y", 1), Field("z", 2)]]
    case Vector4Accessor => [[Field("x", 0), Field("y", 1), Field("z", 2), Field("w", 3)]]
    case QuaternionAccessor | RotationAccessor => [[Field("w", 0), Field("x", 1), Field("y", 2), Field("z", 3)]]
    case Color4Accessor => [[Field("r", 0), Field("g", 1), Field("b", 2), Field("a", 3)]]
    case Matrix33Accessor => [MatrixRow(0, 3), MatrixRow(1, 3), MatrixRow(2, 3)]
    case Matrix44Accessor => [MatrixRow(0, 4), MatrixRow(1, 4), MatrixRow(2, 4), MatrixRow(3, 4)]
    case CustomTypeAccessor => []
  }

  /** Lines per record: one, except three for Matrix33 and four for Matrix44. */
  lemma LinesPerRecord(a: Accessor)
    ensures a != CustomTypeAccessor ==> |Layout(a)| >= 1
    ensures |Layout(a)| == (if a == Matrix33Accessor then 3 else if a == Matrix44Accessor then 4
                            else if a == CustomTypeAccessor then 0 else 1)
  {
  }

  /** Every component the layout shows is one the record has: the fields cover exactly `length()` components. */
  lemma LayoutCoversRecord(a: Accessor)
    ensures forall l, f :: 0 <= l < |Layout(a)| && 0 <= f < |Layout(a)[l]| ==> Layout(a)[l][f].component < Length(a)
  {
  }

  /** `validate_data`: more than one record, and a non-empty first record. */
  predicate ValidData<C>(rows: seq<seq<C>>) {
    |rows| > 1 && |rows[0]| > 0
  }

  function Fields<C>(fields: seq<Field>, row: seq<C>, conv: Conversion, render: (Conversion, C) -> string): string
    requires forall f :: 0 <= f < |fields| ==> fields[f].component < |row|
  {
    if fields == [] then ""
    else
      var head := fields[0].name + "=" + render(conv, row[fields[0].component]);
      if |fields| == 1 then head else head + " " + Fields(fields[1..], row, conv, render)
  }

  /** The components a record needs for its layout to print. */
  function Needed(a: Accessor): nat {
    if a == CustomTypeAccessor then 0 else Length(a)
  }

  /** A record long enough for its layout always prints. */
  predicate LongEnough<C>(a: Accessor, row: seq<C>) {
    |row| >= Needed(a) || (a == Color4Accessor && |row| <= 1)
  }

  /**
   * The lines of record `i`. A Color4 record with at most one component prints
   * `i: no data`; a record too short for its layout raises (None).
   */
  function RecordLines<C>(a: Accessor, i: nat, row: seq<C>, render: (Conversion, C) -> string): (r: Option<seq<string>>)
    ensures r.Some? <==> LongEnough(a, row)
    ensures r.Some? ==> |r.value| == |Layout(a)|
    ensures r.Some? ==> forall l :: 0 <= l < |r.value| ==> Decimal.ToString(i) + ": " <= r.value[l]
  {
    var prefix := Decimal.ToString(i) + ": ";
    if a == Color4Accessor && |row| <= 1 then Some([prefix + "no data"])
    else if |row| < Needed(a) then None
    else
      LayoutCoversRecord(a);
      Some(seq(|Layout(a)|, l requires 0 <= l < |Layout(a)| => prefix + Fields(Layout(a)[l], row, Conv(a), render)))
  }

  /** `f` applied to `xs[0]` as item `start`, to `xs[1]` as item `start + 1`, ...; None as soon as one application gives None. */
  function Each<X, T>(f: (nat, X) -> Option<T>, xs: seq<X>, start: nat): Option<seq<T>>
    decreases |xs|
  {
    if xs == [] then Some([])
    else
      match f(start, xs[0])
      case None => None
      case Some(first) =>
        match Each(f, xs[1..], start + 1)
        case None => None
        case Some(rest) => Some([first] + rest)
  }

  /** `Each` succeeds exactly when every application does. */
  lemma {:induction false} EachDefined<X, T>(f: (nat, X) -> Option<T>, xs: seq<X>, start: nat)
    ensures Each(f, xs, start).Some? <==> forall i :: 0 <= i < |xs| ==> f(start + i, xs[i]).Some?
    decreases |xs|
  {
    if xs != [] {
      EachDefined(f, xs[1..], start + 1);
      assert forall i :: 1 <= i < |xs| ==> xs[1..][i - 1] == xs[i] && start + 1 + (i - 1) == start + i;
    }
  }

  /** Item `j` of a successful `Each` is what `f` gives for `xs[j]` as item `start + j`. */
  lemma {:induction false} EachItems<X, T>(f: (nat, X) -> Option<T>, xs: seq<X>, start: nat)
    requires Each(f, xs, start).Some?
    ensures var ys := Each(f, xs, start).value;
      && |ys| == |xs|
      && forall j :: 0 <= j < |xs| ==> f(start + j, xs[j]) == Some(ys[j])
    decreases |xs|
  {
    if xs != [] {
      EachItems(f, xs[1..], start + 1);
      var ys := Each(f, xs, start).value;
      var rest := Each(f, xs[1..], start + 1).value;
      assert ys == [ys[0]] + rest;
      forall j | 1 <= j < |xs|
        ensures f(start + j, xs[j]) == Some(ys[j])
      {
        assert ys[j] == rest[j - 1] && xs[j] == xs[1..][j - 1];
        assert start + j == (start + 1) + (j - 1);
      }
    }
  }

  /** The lines of one record, as `format`'s loop prints record `i`. */
  function RowLines<C>(a: Accessor, render: (Conversion, C) -> string): (nat, seq<C>) -> Option<seq<string>> {
    (i: nat, row: seq<C>) => RecordLines(a, i, row, render)
  }

  /** The lines of records `start`, `start + 1`, ..., one group per record; None as soon as a record raises. */
  function RowsLines<C>(a: Accessor, rows: seq<seq<C>>, start: nat, render: (Conversion, C) -> string): Option<seq<seq<string>>> {
    Each(RowLines(a, render), rows, start)
  }

  /**
   * `format(array)` as a list of lines. None where `format` indexes past a short
   * record (IndexError), and for the custom type, whose inherited `format` returns None.
   */
  function FormatLines<C>(a: Accessor, rows: seq<seq<C>>, render: (Conversion, C) -> string): Option<seq<string>> {
    if a == CustomTypeAccessor then None
    else if !ValidData(rows) then Some([NoData])
    else
      match RowsLines(a, rows, 0, render)
      case None => None
      case Some(groups) => Some(Concat(groups))
  }

  function Unlines(lines: seq<string>): string {
    if lines == [] then "" else lines[0] + "\n" + Unlines(lines[1..])
  }

  /** `format(array)`: the text the exporter writes. */
  function Format<C>(a: Accessor, rows: seq<seq<C>>, render: (Conversion, C) -> string): Option<string> {
    match FormatLines(a, rows, render)
    case None => None
    case Some(lines) => Some(Unlines(lines))
  }

  /** An array of fewer than two records, or with an empty first record, formats as `<no data>`, and only such an array does. */
  lemma FormatNoData<C>(a: Accessor, rows: seq<seq<C>>, render: (Conversion, C) -> string)
    requires a != CustomTypeAccessor
    ensures Format(a, rows, render) == Some("<no data>\n") <==> !ValidData(rows)
  {
    if ValidData(rows) && RowsLines(a, rows, 0, render).Some? {
      RowsLinesShape(a, rows, 0, render);
      LinesPerRecord(a);
      var groups := RowsLines(a, rows, 0, render).value;
      assert |groups[0]| >= 1 && |groups[1]| >= 1;
      assert groups[1..][0] == groups[1];
      assert Concat(groups) == groups[0] + (groups[1] + Concat(groups[2..])) by {
        assert groups[1..][1..] == groups[2..];
      }
      UnlinesHasLines(Concat(groups));
    } else if !ValidData(rows) {
      assert FormatLines(a, rows, render) == Some([NoData]);
      assert Unlines([NoData]) == NoData + "\n" + Unlines([NoData][1..]);
      assert [NoData][1..] == [];
      assert NoData + "\n" + "" == "<no data>\n";
    }
  }

  /** The text of two or more lines holds two newlines, so it is not `<no data>\n`. */
  lemma UnlinesHasLines(lines: seq<string>)
    requires |lines| >= 2
    ensures Unlines(lines) != "<no data>\n"
  {
    var u := Unlines(lines);
    assert u == lines[0] + "\n" + Unlines(lines[1..]);
    assert lines[1..][1..] == lines[2..];
    assert Unlines(lines[1..]) == lines[1] + "\n" + Unlines(lines[2..]);
    assert u == lines[0] + "\n" + (lines[1] + "\n" + Unlines(lines[2..]));
    assert |u| >= |lines[0]| + 2;
    assert u[|lines[0]|] == '\n';
    if |lines[0]| < 9 {
      assert "<no data>\n"[|lines[0]|] != '\n';
    }
  }

  /** `RowsLines` prints exactly when every record is long enough for its layout. */
  lemma RowsLinesDefined<C>(a: Accessor, rows: seq<seq<C>>, start: nat, render: (Conversion, C) -> string)
    ensures RowsLines(a, rows, start, render).Some? <==> forall i :: 0 <= i < |rows| ==> LongEnough(a, rows[i])
  {
    EachDefined(RowLines(a, render), rows, start);
    assert forall i :: 0 <= i < |rows| ==>
      (RowLines(a, render)(start + i, rows[i]).Some? <==> LongEnough(a, rows[i]));
  }

  /** Group `j` of `RowsLines` is the lines of record `start + j`. */
  lemma RowsLinesGroups<C>(a: Accessor, rows: seq<seq<C>>, start: nat, render: (Conversion, C) -> string)
    requires RowsLines(a, rows, start, render).Some?
    ensures var groups := RowsLines(a, rows, start, render).value;
      && |groups| == |rows|
      && forall j :: 0 <= j < |rows| ==>
           RecordLines(a, start + j, rows[j], render).Some? && groups[j] == RecordLines(a, start + j, rows[j], render).value
  {
    EachItems(RowLines(a, render), rows, start);
  }

  /**
   * `RowsLines` prints one group of `|Layout(a)|` lines per row, in order, and every
   * line of the group of row `j` opens with the index `start + j`.
   */
  lemma RowsLinesShape<C>(a: Accessor, rows: seq<seq<C>>, start: nat, render: (Conversion, C) -> string)
    requires RowsLines(a, rows, start, render).Some?
    ensures var groups := RowsLines(a, rows, start, render).value;
      && |groups| == |rows|
      && (forall j :: 0 <= j < |rows| ==> |groups[j]| == |Layout(a)|)
      && (forall j, l :: 0 <= j < |rows| && 0 <= l < |groups[j]| ==> Decimal.ToString(start + j) + ": " <= groups[j][l])
  {
    RowsLinesGroups(a, rows, start, render);
  }

  /**
   * On valid data, `format` prints exactly when every record is long enough, and then
   * one group of `|Layout(a)|` lines per record, in order, each opening with its record's index.
   */
  lemma FormatShape<C>(a: Accessor, rows: seq<seq<C>>, render: (Conversion, C) -> string)
    requires a != CustomTypeAccessor && ValidData(rows)
    ensures FormatLines(a, rows, render).Some? <==> forall i :: 0 <= i < |rows| ==> LongEnough(a, rows[i])
    ensures FormatLines(a, rows, render).Some? ==>
      var groups := RowsLines(a, rows, 0, render).value;
      && FormatLines(a, rows, render).value == Concat(groups)
      && |groups| == |rows|
      && forall j, l :: 0 <= j < |rows| && 0 <= l < |groups[j]| ==> Decimal.ToString(j) + ": " <= groups[j][l]
  {
    LinesPerRecord(a);
    RowsLinesDefined(a, rows, 0, render);
    if FormatLines(a, rows, render).Some? {
      RowsLinesShape(a, rows, 0, render);
    }
  }
}
