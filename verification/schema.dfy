/** A declarative description of a category's record: one column per
    tuple position, naming the row field it is read from and how that
    field is converted. `Decode` is the reference reading of a row against
    such a layout, column by column; the hand-written parsers are proved
    to agree with it. */
module Schema {
  import opened Results
  import opened PyStr
  import opened IntText
  import opened Timestamps
  import opened Rows

  /** How a row field becomes a record value. */
  datatype Kind =
    | IntKind     // `int(...)`
    | TextKind    // kept as stripped text
    | FloatKind   // `float(...)`, kept as text here
    | HourlyKind  // `YYYYMMDDHH` re-rendered
    | SolarKind   // `YYYYMMDDHH:MM` re-rendered

  /** One tuple position: the row field it is read from and its conversion. */
  datatype Column = Column(index: nat, kind: Kind)

  /** The value has the database type a column of that kind expects. */
  predicate Fits(v: Value, kind: Kind) {
    match kind
    case IntKind => v.IntValue?
    case FloatKind => v.FloatValue?
    case _ => v.TextValue?
  }

  /** Reading the column from the row raises nothing. */
  predicate Readable(col: Column, row: seq<string>) {
    col.index < |row| && (col.kind == IntKind ==> IsIntLiteral(Strip(row[col.index])))
  }

  /** The value a readable column denotes. */
  function ColumnValue(col: Column, row: seq<string>): (v: Value)
    requires Readable(col, row)
    ensures Fits(v, col.kind)
  {
    match col.kind
    case IntKind => IntValue(IntAt(row, col.index))
    case TextKind => TextValue(TextAt(row, col.index))
    case FloatKind => FloatValue(FloatText(TextAt(row, col.index)))
    case HourlyKind => TextValue(HourlyStamp(TextAt(row, col.index)))
    case SolarKind => TextValue(SolarStamp(TextAt(row, col.index)))
  }

  /** Reads one column the way the parsers read a field, raising the
      parsers' errors. */
  function ReadColumn(col: Column, row: seq<string>): (r: Result<Value, ParseError>)
    ensures r.Success? <==> Readable(col, row)
    ensures r.Success? ==> r.value == ColumnValue(col, row)
    ensures r.Failure? && col.index < |row| ==> col.kind == IntKind && r.error == NotAnInteger(col.index, Strip(row[col.index]))
    ensures r.Failure? && col.index >= |row| ==> r.error == MissingField(col.index)
  {
    match col.kind
    case IntKind =>
      var n :- IntField(row, col.index);
      Success(IntValue(n))
    case TextKind =>
      var t :- Field(row, col.index);
      Success(TextValue(t))
    case FloatKind =>
      var f :- FloatField(row, col.index);
      Success(FloatValue(f))
    case HourlyKind =>
      var t :- Field(row, col.index);
      Success(TextValue(HourlyStamp(t)))
    case SolarKind =>
      var t :- Field(row, col.index);
      Success(TextValue(SolarStamp(t)))
  }

  /** Reads the columns of `layout` from `row` in order, stopping at the
      first column that cannot be read. */
  function Decode(layout: seq<Column>, row: seq<string>): (r: Result<seq<Value>, ParseError>)
    ensures r.Success? ==> |r.value| == |layout|
  {
    if |layout| == 0 then Success([])
    else
      var v :- ReadColumn(layout[0], row);
      var vs :- Decode(layout[1..], row);
      Success([v] + vs)
  }

  /** When every column is readable, decoding yields each column's value
      in layout order. */
  lemma {:induction false} DecodeSuccess(layout: seq<Column>, row: seq<string>)
    requires forall k :: 0 <= k < |layout| ==> Readable(layout[k], row)
    ensures Decode(layout, row).Success?
    ensures forall k :: 0 <= k < |layout| ==> Decode(layout, row).value[k] == ColumnValue(layout[k], row)
  {
    if |layout| > 0 {
      assert forall k :: 0 <= k < |layout| - 1 ==> layout[1..][k] == layout[k + 1];
      DecodeSuccess(layout[1..], row);
    }
  }

  /** Decoding yields exactly the sequence of the columns' values. */
  lemma DecodeYields(layout: seq<Column>, row: seq<string>, vs: seq<Value>)
    requires forall k :: 0 <= k < |layout| ==> Readable(layout[k], row)
    requires |vs| == |layout|
    requires forall k :: 0 <= k < |layout| ==> ColumnValue(layout[k], row) == vs[k]
    ensures Decode(layout, row) == Success(vs)
  {
    DecodeSuccess(layout, row);
    assert Decode(layout, row).value == vs;
  }

  /** Column `k` is the first one of `layout` that cannot be read. */
  predicate FirstUnreadable(layout: seq<Column>, row: seq<string>, k: int) {
    && 0 <= k < |layout|
    && !Readable(layout[k], row)
    && forall j :: 0 <= j < k ==> Readable(layout[j], row)
  }

  /** Decoding succeeds exactly when every column is readable. */
  lemma {:induction false} DecodeSucceedsIff(layout: seq<Column>, row: seq<string>)
    ensures Decode(layout, row).Success? <==> forall k :: 0 <= k < |layout| ==> Readable(layout[k], row)
  {
    if forall k :: 0 <= k < |layout| ==> Readable(layout[k], row) {
      DecodeSuccess(layout, row);
    } else {
      var k := FirstUnreadableIndex(layout, row, 0);
      DecodeFailure(layout, row, k);
    }
  }

  /** The first unreadable column at or after `from`, given that every
      column before `from` is readable and some column is not. */
  function FirstUnreadableIndex(layout: seq<Column>, row: seq<string>, from: nat): (k: nat)
    requires from <= |layout|
    requires forall j :: 0 <= j < from ==> Readable(layout[j], row)
    requires exists j :: 0 <= j < |layout| && !Readable(layout[j], row)
    ensures FirstUnreadable(layout, row, k)
    decreases |layout| - from
  {
    if !Readable(layout[from], row) then from
    else FirstUnreadableIndex(layout, row, from + 1)
  }

  /** Every value a successful decoding yields has its column's type. */
  lemma {:induction false} DecodedValuesFit(layout: seq<Column>, row: seq<string>)
    requires Decode(layout, row).Success?
    ensures forall k :: 0 <= k < |layout| ==> Fits(Decode(layout, row).value[k], layout[k].kind)
  {
    DecodeSucceedsIff(layout, row);
    DecodeSuccess(layout, row);
  }

  /** The error a failed decoding reports is the one of its first unreadable
      column: the field is missing, or it is an integer column whose text
      `int()` rejects. */
  lemma {:induction false} DecodeFailure(layout: seq<Column>, row: seq<string>, k: nat)
    requires FirstUnreadable(layout, row, k)
    ensures Decode(layout, row) == Failure(ReadColumn(layout[k], row).error)
  {
    if k > 0 {
      assert FirstUnreadable(layout[1..], row, k - 1) by {
        assert forall j :: 0 <= j < k - 1 ==> layout[1..][j] == layout[j + 1];
      }
      DecodeFailure(layout[1..], row, k - 1);
    }
  }
}
