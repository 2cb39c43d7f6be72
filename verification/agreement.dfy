/** Each hand-written parser agrees with its category's column layout on
    every row: the same tuple when the row parses, the same error (that of
    the first field that cannot be read) when it does not. Consequently
    every parsed tuple has as many values as the insert statement has
    columns, each of the type its column expects. */
module Agreement {
  import opened Results
  import opened Rows
  import opened Records
  import opened Schema
  import opened Timestamps
  import opened Categories

  /** The layout has one column per name in the job's field list. */
  lemma LayoutMatchesFields(c: Category)
    ensures |Layout(c)| == |Fields(c)|
  {
  }

  /** Every parser agrees with its layout on every row: same values when
      the row parses, same error (the first field that cannot be read)
      when it does not. */
  lemma ParseMatchesLayout(c: Category, row: seq<string>)
    ensures Parse(c, row) == Decode(Layout(c), row)
  {
    match c
    case AirTemperature => AirTemperatureMatchesLayout(row);
    case Cloudiness => CloudinessMatchesLayout(row);
    case Precipitation => PrecipitationMatchesLayout(row);
    case Pressure => PressureMatchesLayout(row);
    case SoilTemperature => SoilTemperatureMatchesLayout(row);
    case Solar => SolarMatchesLayout(row);
    case Sun => SunMatchesLayout(row);
    case Wind => WindMatchesLayout(row);
  }

  /** Each value of `t` has the type of its column in the category's
      layout. */
  predicate FitsColumns(c: Category, t: seq<Value>) {
    && |t| == |Layout(c)|
    && forall k :: 0 <= k < |t| ==> Fits(t[k], Layout(c)[k].kind)
  }

  /** A parsed row has one value per column of the insert statement, each
      of the type its column expects. */
  lemma ParsedRowFitsColumns(c: Category, row: seq<string>)
    requires Parse(c, row).Success?
    ensures |Parse(c, row).value| == |Fields(c)|
    ensures FitsColumns(c, Parse(c, row).value)
  {
    ParseMatchesLayout(c, row);
    LayoutMatchesFields(c);
    DecodedValuesFit(Layout(c), row);
  }

  /** Every column of the AirTemperature layout is readable when the parser succeeds. */
  lemma AirTemperatureReadable(row: seq<string>)
    requires 5 <= |row| && IntReadable(row, 0) && IntReadable(row, 2)
    ensures forall k :: 0 <= k < |AirTemperatureLayout| ==> Readable(AirTemperatureLayout[k], row)
  {
  }

  /** Each column of the AirTemperature layout denotes the value the parser puts at
      that position. */
  lemma AirTemperatureValues(row: seq<string>)
    requires 5 <= |row| && IntReadable(row, 0) && IntReadable(row, 2)
    ensures forall k :: 0 <= k < |AirTemperatureLayout| ==> Readable(AirTemperatureLayout[k], row)
    ensures forall k :: 0 <= k < |AirTemperatureLayout| ==>
      ColumnValue(AirTemperatureLayout[k], row) == AirTemperatureRecord(IntAt(row, 0), HourlyStamp(TextAt(row, 1)), IntAt(row, 2), FloatText(TextAt(row, 3)), FloatText(TextAt(row, 4))).Values()[k]
  {
    AirTemperatureReadable(row);
    var L := AirTemperatureLayout;
    var v := AirTemperatureRecord(IntAt(row, 0), HourlyStamp(TextAt(row, 1)), IntAt(row, 2), FloatText(TextAt(row, 3)), FloatText(TextAt(row, 4))).Values();
    forall k | 0 <= k < |L|
      ensures ColumnValue(L[k], row) == v[k]
    {
      // splitting on k keeps this proof cheap: each branch sees one column
      if k == 0 {} else if k == 1 {} else if k == 2 {} else if k == 3 {} else {}
    }
  }

  /** On a row the AirTemperature parser accepts, decoding the layout yields the
      parsed record. */
  lemma AirTemperatureDecodes(row: seq<string>)
    requires 5 <= |row| && IntReadable(row, 0) && IntReadable(row, 2)
    ensures Decode(AirTemperatureLayout, row) == Success(AirTemperatureRecord(IntAt(row, 0), HourlyStamp(TextAt(row, 1)), IntAt(row, 2), FloatText(TextAt(row, 3)), FloatText(TextAt(row, 4))).Values())
  {
    AirTemperatureValues(row);
    DecodeYields(AirTemperatureLayout, row, AirTemperatureRecord(IntAt(row, 0), HourlyStamp(TextAt(row, 1)), IntAt(row, 2), FloatText(TextAt(row, 3)), FloatText(TextAt(row, 4))).Values());
  }

  /** The AirTemperature parser fails with the error of the layout's first
      unreadable column. */
  lemma AirTemperatureFailure(row: seq<string>, k: nat)
    requires FirstUnreadable(AirTemperatureLayout, row, k)
    ensures ParseAirTemperature(row) == Failure(ReadColumn(AirTemperatureLayout[k], row).error)
  {
    var L := AirTemperatureLayout;
    if k == 0 {
    } else if k == 1 {
      assert Readable(L[0], row);
    } else if k == 2 {
      assert Readable(L[0], row);
      assert Readable(L[1], row);
    } else if k == 3 {
      assert Readable(L[0], row);
      assert Readable(L[1], row);
      assert Readable(L[2], row);
    } else {
      assert Readable(L[0], row);
      assert Readable(L[1], row);
      assert Readable(L[2], row);
      assert Readable(L[3], row);
    }
  }

  /** The AirTemperature parser accepts every row whose columns are all readable. */
  lemma AirTemperatureAccepts(row: seq<string>)
    requires forall k :: 0 <= k < |AirTemperatureLayout| ==> Readable(AirTemperatureLayout[k], row)
    ensures ParseAirTemperature(row).Success?
  {
    var L := AirTemperatureLayout;
    assert Readable(L[0], row);
    assert Readable(L[2], row);
    assert Readable(L[4], row);
  }

  /** On a row the AirTemperature parser rejects, decoding the layout fails with
      the same error. */
  lemma AirTemperatureRejects(row: seq<string>)
    requires ParseAirTemperature(row).Failure?
    ensures Decode(AirTemperatureLayout, row) == Parse(AirTemperature, row)
  {
    var L := AirTemperatureLayout;
    if forall k :: 0 <= k < |L| ==> Readable(L[k], row) {
      AirTemperatureAccepts(row);
    }
    var k := FirstUnreadableIndex(L, row, 0);
    DecodeFailure(L, row, k);
    AirTemperatureFailure(row, k);
  }

  /** The AirTemperature parser and its layout agree on every row. */
  lemma AirTemperatureMatchesLayout(row: seq<string>)
    ensures Parse(AirTemperature, row) == Decode(Layout(AirTemperature), row)
  {
    if ParseAirTemperature(row).Success? {
      AirTemperatureDecodes(row);
    } else {
      AirTemperatureRejects(row);
    }
  }

  /** Every column of the Cloudiness layout is readable when the parser succeeds. */
  lemma CloudinessReadable(row: seq<string>)
    requires 5 <= |row| && IntReadable(row, 0) && IntReadable(row, 2)
    ensures forall k :: 0 <= k < |CloudinessLayout| ==> Readable(CloudinessLayout[k], row)
  {
  }

  /** Each column of the Cloudiness layout denotes the value the parser puts at
      that position. */
  lemma CloudinessValues(row: seq<string>)
    requires 5 <= |row| && IntReadable(row, 0) && IntReadable(row, 2)
    ensures forall k :: 0 <= k < |CloudinessLayout| ==> Readable(CloudinessLayout[k], row)
    ensures forall k :: 0 <= k < |CloudinessLayout| ==>
      ColumnValue(CloudinessLayout[k], row) == CloudinessRecord(IntAt(row, 0), HourlyStamp(TextAt(row, 1)), IntAt(row, 2), TextAt(row, 3), FloatText(TextAt(row, 4))).Values()[k]
  {
    CloudinessReadable(row);
    var L := CloudinessLayout;
    var v := CloudinessRecord(IntAt(row, 0), HourlyStamp(TextAt(row, 1)), IntAt(row, 2), TextAt(row, 3), FloatText(TextAt(row, 4))).Values();
    forall k | 0 <= k < |L|
      ensures ColumnValue(L[k], row) == v[k]
    {
      // splitting on k keeps this proof cheap: each branch sees one column
      if k == 0 {} else if k == 1 {} else if k == 2 {} else if k == 3 {} else {}
    }
  }

  /** On a row the Cloudiness parser accepts, decoding the layout yields the
      parsed record. */
  lemma CloudinessDecodes(row: seq<string>)
    requires 5 <= |row| && IntReadable(row, 0) && IntReadable(row, 2)
    ensures Decode(CloudinessLayout, row) == Success(CloudinessRecord(IntAt(row, 0), HourlyStamp(TextAt(row, 1)), IntAt(row, 2), TextAt(row, 3), FloatText(TextAt(row, 4))).Values())
  {
    CloudinessValues(row);
    DecodeYields(CloudinessLayout, row, CloudinessRecord(IntAt(row, 0), HourlyStamp(TextAt(row, 1)), IntAt(row, 2), TextAt(row, 3), FloatText(TextAt(row, 4))).Values());
  }

  /** The Cloudiness parser fails with the error of the layout's first
      unreadable column. */
  lemma CloudinessFailure(row: seq<string>, k: nat)
    requires FirstUnreadable(CloudinessLayout, row, k)
    ensures ParseCloudiness(row) == Failure(ReadColumn(CloudinessLayout[k], row).error)
  {
    var L := CloudinessLayout;
    if k == 0 {
    } else if k == 1 {
      assert Readable(L[0], row);
    } else if k == 2 {
      assert Readable(L[0], row);
      assert Readable(L[1], row);
    } else if k == 3 {
      assert Readable(L[0], row);
      assert Readable(L[1], row);
      assert Readable(L[2], row);
    } else {
      assert Readable(L[0], row);
      assert Readable(L[1], row);
      assert Readable(L[2], row);
      assert Readable(L[3], row);
    }
  }

  /** The Cloudiness parser accepts every row whose columns are all readable. */
  lemma CloudinessAccepts(row: seq<string>)
    requires forall k :: 0 <= k < |CloudinessLayout| ==> Readable(CloudinessLayout[k], row)
    ensures ParseCloudiness(row).Success?
  {
    var L := CloudinessLayout;
    assert Readable(L[0], row);
    assert Readable(L[2], row);
    assert Readable(L[4], row);
  }

  /** On a row the Cloudiness parser rejects, decoding the layout fails with
      the same error. */
  lemma CloudinessRejects(row: seq<string>)
    requires ParseCloudiness(row).Failure?
    ensures Decode(CloudinessLayout, row) == Parse(Cloudiness, row)
  {
    var L := CloudinessLayout;
    if forall k :: 0 <= k < |L| ==> Readable(L[k], row) {
      CloudinessAccepts(row);
    }
    var k := FirstUnreadableIndex(L, row, 0);
    DecodeFailure(L, row, k);
    CloudinessFailure(row, k);
  }

  /** The Cloudiness parser and its layout agree on every row. */
  lemma CloudinessMatchesLayout(row: seq<string>)
    ensures Parse(Cloudiness, row) == Decode(Layout(Cloudiness), row)
  {
    if ParseCloudiness(row).Success? {
      CloudinessDecodes(row);
    } else {
      CloudinessRejects(row);
    }
  }

  /** Every column of the Precipitation layout is readable when the parser succeeds. */
  lemma PrecipitationReadable(row: seq<string>)
    requires 6 <= |row| && IntReadable(row, 0) && IntReadable(row, 2) && IntReadable(row, 4) && IntReadable(row, 5)
    ensures forall k :: 0 <= k < |PrecipitationLayout| ==> Readable(PrecipitationLayout[k], row)
  {
  }

  /** Each column of the Precipitation layout denotes the value the parser puts at
      that position. */
  lemma PrecipitationValues(row: seq<string>)
    requires 6 <= |row| && IntReadable(row, 0) && IntReadable(row, 2) && IntReadable(row, 4) && IntReadable(row, 5)
    ensures forall k :: 0 <= k < |PrecipitationLayout| ==> Readable(PrecipitationLayout[k], row)
    ensures forall k :: 0 <= k < |PrecipitationLayout| ==>
      ColumnValue(PrecipitationLayout[k], row) == PrecipitationRecord(IntAt(row, 0), HourlyStamp(TextAt(row, 1)), IntAt(row, 2), FloatText(TextAt(row, 3)), IntAt(row, 4), IntAt(row, 5)).Values()[k]
  {
    PrecipitationReadable(row);
    var L := PrecipitationLayout;
    var v := PrecipitationRecord(IntAt(row, 0), HourlyStamp(TextAt(row, 1)), IntAt(row, 2), FloatText(TextAt(row, 3)), IntAt(row, 4), IntAt(row, 5)).Values();
    forall k | 0 <= k < |L|
      ensures ColumnValue(L[k], row) == v[k]
    {
      // splitting on k keeps this proof cheap: each branch sees one column
      if k == 0 {} else if k == 1 {} else if k == 2 {} else if k == 3 {} else if k == 4 {} else {}
    }
  }

  /** On a row the Precipitation parser accepts, decoding the layout yields the
      parsed record. */
  lemma PrecipitationDecodes(row: seq<string>)
    requires 6 <= |row| && IntReadable(row, 0) && IntReadable(row, 2) && IntReadable(row, 4) && IntReadable(row, 5)
    ensures Decode(PrecipitationLayout, row) == Success(PrecipitationRecord(IntAt(row, 0), HourlyStamp(TextAt(row, 1)), IntAt(row, 2), FloatText(TextAt(row, 3)), IntAt(row, 4), IntAt(row, 5)).Values())
  {
    PrecipitationValues(row);
    DecodeYields(PrecipitationLayout, row, PrecipitationRecord(IntAt(row, 0), HourlyStamp(TextAt(row, 1)), IntAt(row, 2), FloatText(TextAt(row, 3)), IntAt(row, 4), IntAt(row, 5)).Values());
  }

  /** `PrecipitationFailure` for a failure among the first four columns. */
  lemma PrecipitationFailureHead(row: seq<string>, k: nat)
    requires FirstUnreadable(PrecipitationLayout, row, k) && k < 4
    ensures ParsePrecipitation(row) == Failure(ReadColumn(PrecipitationLayout[k], row).error)
  {
    var L := PrecipitationLayout;
    if k == 0 {
    } else if k == 1 {
      assert Readable(L[0], row);
    } else if k == 2 {
      assert Readable(L[0], row);
      assert Readable(L[1], row);
    } else {
      assert Readable(L[0], row);
      assert Readable(L[1], row);
      assert Readable(L[2], row);
    }
  }

  /** `PrecipitationFailure` for a failure past the fourth column. */
  lemma PrecipitationFailureTail(row: seq<string>, k: nat)
    requires FirstUnreadable(PrecipitationLayout, row, k) && k >= 4
    ensures ParsePrecipitation(row) == Failure(ReadColumn(PrecipitationLayout[k], row).error)
  {
    var L := PrecipitationLayout;
    if k == 4 {
      assert Readable(L[0], row);
      assert Readable(L[1], row);
      assert Readable(L[2], row);
      assert Readable(L[3], row);
    } else {
      assert Readable(L[0], row);
      assert Readable(L[1], row);
      assert Readable(L[2], row);
      assert Readable(L[3], row);
      assert Readable(L[4], row);
    }
  }

  /** The Precipitation parser fails with the error of the layout's first
      unreadable column. */
  lemma PrecipitationFailure(row: seq<string>, k: nat)
    requires FirstUnreadable(PrecipitationLayout, row, k)
    ensures ParsePrecipitation(row) == Failure(ReadColumn(PrecipitationLayout[k], row).error)
  {
    if k < 4 {
      PrecipitationFailureHead(row, k);
    } else {
      PrecipitationFailureTail(row, k);
    }
  }

  /** The Precipitation parser accepts every row whose columns are all readable. */
  lemma PrecipitationAccepts(row: seq<string>)
    requires forall k :: 0 <= k < |PrecipitationLayout| ==> Readable(PrecipitationLayout[k], row)
    ensures ParsePrecipitation(row).Success?
  {
    var L := PrecipitationLayout;
    assert Readable(L[0], row);
    assert Readable(L[2], row);
    assert Readable(L[4], row);
    assert Readable(L[5], row);
  }

  /** On a row the Precipitation parser rejects, decoding the layout fails with
      the same error. */
  lemma PrecipitationRejects(row: seq<string>)
    requires ParsePrecipitation(row).Failure?
    ensures Decode(PrecipitationLayout, row) == Parse(Precipitation, row)
  {
    var L := PrecipitationLayout;
    if forall k :: 0 <= k < |L| ==> Readable(L[k], row) {
      PrecipitationAccepts(row);
    }
    var k := FirstUnreadableIndex(L, row, 0);
    DecodeFailure(L, row, k);
    PrecipitationFailure(row, k);
  }

  /** The Precipitation parser and its layout agree on every row. */
  lemma PrecipitationMatchesLayout(row: seq<string>)
    ensures Parse(Precipitation, row) == Decode(Layout(Precipitation), row)
  {
    if ParsePrecipitation(row).Success? {
      PrecipitationDecodes(row);
    } else {
      PrecipitationRejects(row);
    }
  }

  /** Every column of the Pressure layout is readable when the parser succeeds. */
  lemma PressureReadable(row: seq<string>)
    requires 5 <= |row| && IntReadable(row, 0) && IntReadable(row, 2)
    ensures forall k :: 0 <= k < |PressureLayout| ==> Readable(PressureLayout[k], row)
  {
  }

  /** Each column of the Pressure layout denotes the value the parser puts at
      that position. */
  lemma PressureValues(row: seq<string>)
    requires 5 <= |row| && IntReadable(row, 0) && IntReadable(row, 2)
    ensures forall k :: 0 <= k < |PressureLayout| ==> Readable(PressureLayout[k], row)
    ensures forall k :: 0 <= k < |PressureLayout| ==>
      ColumnValue(PressureLayout[k], row) == PressureRecord(IntAt(row, 0), HourlyStamp(TextAt(row, 1)), IntAt(row, 2), FloatText(TextAt(row, 3)), FloatText(TextAt(row, 4))).Values()[k]
  {
    PressureReadable(row);
    var L := PressureLayout;
    var v := PressureRecord(IntAt(row, 0), HourlyStamp(TextAt(row, 1)), IntAt(row, 2), FloatText(TextAt(row, 3)), FloatText(TextAt(row, 4))).Values();
    forall k | 0 <= k < |L|
      ensures ColumnValue(L[k], row) == v[k]
    {
      // splitting on k keeps this proof cheap: each branch sees one column
      if k == 0 {} else if k == 1 {} else if k == 2 {} else if k == 3 {} else {}
    }
  }

  /** On a row the Pressure parser accepts, decoding the layout yields the
      parsed record. */
  lemma PressureDecodes(row: seq<string>)
    requires 5 <= |row| && IntReadable(row, 0) && IntReadable(row, 2)
    ensures Decode(PressureLayout, row) == Success(PressureRecord(IntAt(row, 0), HourlyStamp(TextAt(row, 1)), IntAt(row, 2), FloatText(TextAt(row, 3)), FloatText(TextAt(row, 4))).Values())
  {
    PressureValues(row);
    DecodeYields(PressureLayout, row, PressureRecord(IntAt(row, 0), HourlyStamp(TextAt(row, 1)), IntAt(row, 2), FloatText(TextAt(row, 3)), FloatText(TextAt(row, 4))).Values());
  }

  /** The Pressure parser fails with the error of the layout's first
      unreadable column. */
  lemma PressureFailure(row: seq<string>, k: nat)
    requires FirstUnreadable(PressureLayout, row, k)
    ensures ParsePressure(row) == Failure(ReadColumn(PressureLayout[k], row).error)
  {
    var L := PressureLayout;
    if k == 0 {
    } else if k == 1 {
      assert Readable(L[0], row);
    } else if k == 2 {
      assert Readable(L[0], row);
      assert Readable(L[1], row);
    } else if k == 3 {
      assert Readable(L[0], row);
      assert Readable(L[1], row);
      assert Readable(L[2], row);
    } else {
      assert Readable(L[0], row);
      assert Readable(L[1], row);
      assert Readable(L[2], row);
      assert Readable(L[3], row);
    }
  }

  /** The Pressure parser accepts every row whose columns are all readable. */
  lemma PressureAccepts(row: seq<string>)
    requires forall k :: 0 <= k < |PressureLayout| ==> Readable(PressureLayout[k], row)
    ensures ParsePressure(row).Success?
  {
    var L := PressureLayout;
    assert Readable(L[0], row);
    assert Readable(L[2], row);
    assert Readable(L[4], row);
  }

  /** On a row the Pressure parser rejects, decoding the layout fails with
      the same error. */
  lemma PressureRejects(row: seq<string>)
    requires ParsePressure(row).Failure?
    ensures Decode(PressureLayout, row) == Parse(Pressure, row)
  {
    var L := PressureLayout;
    if forall k :: 0 <= k < |L| ==> Readable(L[k], row) {
      PressureAccepts(row);
    }
    var k := FirstUnreadableIndex(L, row, 0);
    DecodeFailure(L, row, k);
    PressureFailure(row, k);
  }

  /** The Pressure parser and its layout agree on every row. */
  lemma PressureMatchesLayout(row: seq<string>)
    ensures Parse(Pressure, row) == Decode(Layout(Pressure), row)
  {
    if ParsePressure(row).Success? {
      PressureDecodes(row);
    } else {
      PressureRejects(row);
    }
  }

  /** Every column of the SoilTemperature layout is readable when the parser succeeds. */
  lemma SoilTemperatureReadable(row: seq<string>)
    requires 9 <= |row| && IntReadable(row, 0) && IntReadable(row, 2)
    ensures forall k :: 0 <= k < |SoilTemperatureLayout| ==> Readable(SoilTemperatureLayout[k], row)
  {
  }

  /** Each column of the SoilTemperature layout denotes the value the parser puts at
      that position. */
  lemma SoilTemperatureValues(row: seq<string>)
    requires 9 <= |row| && IntReadable(row, 0) && IntReadable(row, 2)
    ensures forall k :: 0 <= k < |SoilTemperatureLayout| ==> Readable(SoilTemperatureLayout[k], row)
    ensures forall k :: 0 <= k < |SoilTemperatureLayout| ==>
      ColumnValue(SoilTemperatureLayout[k], row) == SoilTemperatureRecord(IntAt(row, 0), HourlyStamp(TextAt(row, 1)), IntAt(row, 2), FloatText(TextAt(row, 3)), FloatText(TextAt(row, 4)), FloatText(TextAt(row, 5)), FloatText(TextAt(row, 6)), FloatText(TextAt(row, 7)), FloatText(TextAt(row, 8))).Values()[k]
  {
    SoilTemperatureReadable(row);
    var L := SoilTemperatureLayout;
    var v := SoilTemperatureRecord(IntAt(row, 0), HourlyStamp(TextAt(row, 1)), IntAt(row, 2), FloatText(TextAt(row, 3)), FloatText(TextAt(row, 4)), FloatText(TextAt(row, 5)), FloatText(TextAt(row, 6)), FloatText(TextAt(row, 7)), FloatText(TextAt(row, 8))).Values();
    forall k | 0 <= k < |L|
      ensures ColumnValue(L[k], row) == v[k]
    {
      // splitting on k keeps this proof cheap: each branch sees one column
      if k == 0 {} else if k == 1 {} else if k == 2 {} else if k == 3 {} else if k == 4 {} else if k == 5 {} else if k == 6 {} else if k == 7 {} else {}
    }
  }

  /** On a row the SoilTemperature parser accepts, decoding the layout yields the
      parsed record. */
  lemma SoilTemperatureDecodes(row: seq<string>)
    requires 9 <= |row| && IntReadable(row, 0) && IntReadable(row, 2)
    ensures Decode(SoilTemperatureLayout, row) == Success(SoilTemperatureRecord(IntAt(row, 0), HourlyStamp(TextAt(row, 1)), IntAt(row, 2), FloatText(TextAt(row, 3)), FloatText(TextAt(row, 4)), FloatText(TextAt(row, 5)), FloatText(TextAt(row, 6)), FloatText(TextAt(row, 7)), FloatText(TextAt(row, 8))).Values())
  {
    SoilTemperatureValues(row);
    DecodeYields(SoilTemperatureLayout, row, SoilTemperatureRecord(IntAt(row, 0), HourlyStamp(TextAt(row, 1)), IntAt(row, 2), FloatText(TextAt(row, 3)), FloatText(TextAt(row, 4)), FloatText(TextAt(row, 5)), FloatText(TextAt(row, 6)), FloatText(TextAt(row, 7)), FloatText(TextAt(row, 8))).Values());
  }

  /** `SoilTemperatureFailure` for a failure among the first four columns. */
  lemma SoilTemperatureFailureHead(row: seq<string>, k: nat)
    requires FirstUnreadable(SoilTemperatureLayout, row, k) && k < 4
    ensures ParseSoilTemperature(row) == Failure(ReadColumn(SoilTemperatureLayout[k], row).error)
  {
    var L := SoilTemperatureLayout;
    if k == 0 {
    } else if k == 1 {
      assert Readable(L[0], row);
    } else if k == 2 {
      assert Readable(L[0], row);
      assert Readable(L[1], row);
    } else {
      assert Readable(L[0], row);
      assert Readable(L[1], row);
      assert Readable(L[2], row);
    }
  }

  /** `SoilTemperatureFailure` for a failure past the fourth column. */
  lemma SoilTemperatureFailureTail(row: seq<string>, k: nat)
    requires FirstUnreadable(SoilTemperatureLayout, row, k) && k >= 4
    ensures ParseSoilTemperature(row) == Failure(ReadColumn(SoilTemperatureLayout[k], row).error)
  {
    var L := SoilTemperatureLayout;
    if k == 4 {
      assert Readable(L[0], row);
      assert Readable(L[1], row);
      assert Readable(L[2], row);
      assert Readable(L[3], row);
    } else if k == 5 {
      assert Readable(L[0], row);
      assert Readable(L[1], row);
      assert Readable(L[2], row);
      assert Readable(L[3], row);
      assert Readable(L[4], row);
    } else if k == 6 {
      assert Readable(L[0], row);
      assert Readable(L[1], row);
      assert Readable(L[2], row);
      assert Readable(L[3], row);
      assert Readable(L[4], row);
      assert Readable(L[5], row);
    } else if k == 7 {
      assert Readable(L[0], row);
      assert Readable(L[1], row);
      assert Readable(L[2], row);
      assert Readable(L[3], row);
      assert Readable(L[4], row);
      assert Readable(L[5], row);
      assert Readable(L[6], row);
    } else {
      assert Readable(L[0], row);
      assert Readable(L[1], row);
      assert Readable(L[2], row);
      assert Readable(L[3], row);
      assert Readable(L[4], row);
      assert Readable(L[5], row);
      assert Readable(L[6], row);
      assert Readable(L[7], row);
    }
  }

  /** The SoilTemperature parser fails with the error of the layout's first
      unreadable column. */
  lemma SoilTemperatureFailure(row: seq<string>, k: nat)
    requires FirstUnreadable(SoilTemperatureLayout, row, k)
    ensures ParseSoilTemperature(row) == Failure(ReadColumn(SoilTemperatureLayout[k], row).error)
  {
    if k < 4 {
      SoilTemperatureFailureHead(row, k);
    } else {
      SoilTemperatureFailureTail(row, k);
    }
  }

  /** The SoilTemperature parser accepts every row whose columns are all readable. */
  lemma SoilTemperatureAccepts(row: seq<string>)
    requires forall k :: 0 <= k < |SoilTemperatureLayout| ==> Readable(SoilTemperatureLayout[k], row)
    ensures ParseSoilTemperature(row).Success?
  {
    var L := SoilTemperatureLayout;
    assert Readable(L[0], row);
    assert Readable(L[2], row);
    assert Readable(L[8], row);
  }

  /** On a row the SoilTemperature parser rejects, decoding the layout fails with
      the same error. */
  lemma SoilTemperatureRejects(row: seq<string>)
    requires ParseSoilTemperature(row).Failure?
    ensures Decode(SoilTemperatureLayout, row) == Parse(SoilTemperature, row)
  {
    var L := SoilTemperatureLayout;
    if forall k :: 0 <= k < |L| ==> Readable(L[k], row) {
      SoilTemperatureAccepts(row);
    }
    var k := FirstUnreadableIndex(L, row, 0);
    DecodeFailure(L, row, k);
    SoilTemperatureFailure(row, k);
  }

  /** The SoilTemperature parser and its layout agree on every row. */
  lemma SoilTemperatureMatchesLayout(row: seq<string>)
    ensures Parse(SoilTemperature, row) == Decode(Layout(SoilTemperature), row)
  {
    if ParseSoilTemperature(row).Success? {
      SoilTemperatureDecodes(row);
    } else {
      SoilTemperatureRejects(row);
    }
  }

  /** Every column of the Solar layout is readable when the parser succeeds. */
  lemma SolarReadable(row: seq<string>)
    requires 9 <= |row| && IntReadable(row, 0) && IntReadable(row, 2)
    ensures forall k :: 0 <= k < |SolarLayout| ==> Readable(SolarLayout[k], row)
  {
  }

  /** Each column of the Solar layout denotes the value the parser puts at
      that position. */
  lemma SolarValues(row: seq<string>)
    requires 9 <= |row| && IntReadable(row, 0) && IntReadable(row, 2)
    ensures forall k :: 0 <= k < |SolarLayout| ==> Readable(SolarLayout[k], row)
    ensures forall k :: 0 <= k < |SolarLayout| ==>
      ColumnValue(SolarLayout[k], row) == SolarRecord(IntAt(row, 0), SolarStamp(TextAt(row, 1)), SolarStamp(TextAt(row, 8)), IntAt(row, 2), FloatText(TextAt(row, 3)), FloatText(TextAt(row, 4)), FloatText(TextAt(row, 5)), FloatText(TextAt(row, 6)), FloatText(TextAt(row, 7))).Values()[k]
  {
    SolarReadable(row);
    var L := SolarLayout;
    var v := SolarRecord(IntAt(row, 0), SolarStamp(TextAt(row, 1)), SolarStamp(TextAt(row, 8)), IntAt(row, 2), FloatText(TextAt(row, 3)), FloatText(TextAt(row, 4)), FloatText(TextAt(row, 5)), FloatText(TextAt(row, 6)), FloatText(TextAt(row, 7))).Values();
    forall k | 0 <= k < |L|
      ensures ColumnValue(L[k], row) == v[k]
    {
      // splitting on k keeps this proof cheap: each branch sees one column
      if k == 0 {} else if k == 1 {} else if k == 2 {} else if k == 3 {} else if k == 4 {} else if k == 5 {} else if k == 6 {} else if k == 7 {} else {}
    }
  }

  /** On a row the Solar parser accepts, decoding the layout yields the
      parsed record. */
  lemma SolarDecodes(row: seq<string>)
    requires 9 <= |row| && IntReadable(row, 0) && IntReadable(row, 2)
    ensures Decode(SolarLayout, row) == Success(SolarRecord(IntAt(row, 0), SolarStamp(TextAt(row, 1)), SolarStamp(TextAt(row, 8)), IntAt(row, 2), FloatText(TextAt(row, 3)), FloatText(TextAt(row, 4)), FloatText(TextAt(row, 5)), FloatText(TextAt(row, 6)), FloatText(TextAt(row, 7))).Values())
  {
    SolarValues(row);
    DecodeYields(SolarLayout, row, SolarRecord(IntAt(row, 0), SolarStamp(TextAt(row, 1)), SolarStamp(TextAt(row, 8)), IntAt(row, 2), FloatText(TextAt(row, 3)), FloatText(TextAt(row, 4)), FloatText(TextAt(row, 5)), FloatText(TextAt(row, 6)), FloatText(TextAt(row, 7))).Values());
  }

  /** The Solar parser fails with the error of the layout's first
      unreadable column. */
  lemma SolarFailure(row: seq<string>, k: nat)
    requires FirstUnreadable(SolarLayout, row, k)
    requires k < 4
    ensures ParseSolar(row) == Failure(ReadColumn(SolarLayout[k], row).error)
  {
    var L := SolarLayout;
    if k == 0 {
    } else if k == 1 {
      assert Readable(L[0], row);
    } else if k == 2 {
      assert Readable(L[0], row);
      assert Readable(L[1], row);
    } else {
      assert Readable(L[0], row);
      assert Readable(L[1], row);
      assert Readable(L[2], row);
    }
  }

  /** The Solar parser accepts every row whose columns are all readable. */
  lemma SolarAccepts(row: seq<string>)
    requires forall k :: 0 <= k < |SolarLayout| ==> Readable(SolarLayout[k], row)
    ensures ParseSolar(row).Success?
  {
    var L := SolarLayout;
    assert Readable(L[0], row);
    assert Readable(L[2], row);
    assert Readable(L[3], row);
  }

  /** Once field 8 has been read, fields 3 to 7 exist too: the Solar row
      can only fail at one of the first four columns. */
  lemma SolarFailsEarly(row: seq<string>, k: nat)
    requires FirstUnreadable(SolarLayout, row, k)
    ensures k < 4
  {
    var L := SolarLayout;
    assert k >= 4 ==> Readable(L[2], row);
  }

  /** On a row the Solar parser rejects, decoding the layout fails with
      the same error. */
  lemma SolarRejects(row: seq<string>)
    requires ParseSolar(row).Failure?
    ensures Decode(SolarLayout, row) == Parse(Solar, row)
  {
    var L := SolarLayout;
    if forall k :: 0 <= k < |L| ==> Readable(L[k], row) {
      SolarAccepts(row);
    }
    var k := FirstUnreadableIndex(L, row, 0);
    SolarFailsEarly(row, k);
    DecodeFailure(L, row, k);
    SolarFailure(row, k);
  }

  /** The Solar parser and its layout agree on every row. */
  lemma SolarMatchesLayout(row: seq<string>)
    ensures Parse(Solar, row) == Decode(Layout(Solar), row)
  {
    if ParseSolar(row).Success? {
      SolarDecodes(row);
    } else {
      SolarRejects(row);
    }
  }

  /** Every column of the Sun layout is readable when the parser succeeds. */
  lemma SunReadable(row: seq<string>)
    requires 4 <= |row| && IntReadable(row, 0) && IntReadable(row, 2)
    ensures forall k :: 0 <= k < |SunLayout| ==> Readable(SunLayout[k], row)
  {
  }

  /** Each column of the Sun layout denotes the value the parser puts at
      that position. */
  lemma SunValues(row: seq<string>)
    requires 4 <= |row| && IntReadable(row, 0) && IntReadable(row, 2)
    ensures forall k :: 0 <= k < |SunLayout| ==> Readable(SunLayout[k], row)
    ensures forall k :: 0 <= k < |SunLayout| ==>
      ColumnValue(SunLayout[k], row) == SunRecord(IntAt(row, 0), HourlyStamp(TextAt(row, 1)), IntAt(row, 2), FloatText(TextAt(row, 3))).Values()[k]
  {
    SunReadable(row);
    var L := SunLayout;
    var v := SunRecord(IntAt(row, 0), HourlyStamp(TextAt(row, 1)), IntAt(row, 2), FloatText(TextAt(row, 3))).Values();
    forall k | 0 <= k < |L|
      ensures ColumnValue(L[k], row) == v[k]
    {
      // splitting on k keeps this proof cheap: each branch sees one column
      if k == 0 {} else if k == 1 {} else if k == 2 {} else {}
    }
  }

  /** On a row the Sun parser accepts, decoding the layout yields the
      parsed record. */
  lemma SunDecodes(row: seq<string>)
    requires 4 <= |row| && IntReadable(row, 0) && IntReadable(row, 2)
    ensures Decode(SunLayout, row) == Success(SunRecord(IntAt(row, 0), HourlyStamp(TextAt(row, 1)), IntAt(row, 2), FloatText(TextAt(row, 3))).Values())
  {
    SunValues(row);
    DecodeYields(SunLayout, row, SunRecord(IntAt(row, 0), HourlyStamp(TextAt(row, 1)), IntAt(row, 2), FloatText(TextAt(row, 3))).Values());
  }

  /** The Sun parser fails with the error of the layout's first
      unreadable column. */
  lemma SunFailure(row: seq<string>, k: nat)
    requires FirstUnreadable(SunLayout, row, k)
    ensures ParseSun(row) == Failure(ReadColumn(SunLayout[k], row).error)
  {
    var L := SunLayout;
    if k == 0 {
    } else if k == 1 {
      assert Readable(L[0], row);
    } else if k == 2 {
      assert Readable(L[0], row);
      assert Readable(L[1], row);
    } else {
      assert Readable(L[0], row);
      assert Readable(L[1], row);
      assert Readable(L[2], row);
    }
  }

  /** The Sun parser accepts every row whose columns are all readable. */
  lemma SunAccepts(row: seq<string>)
    requires forall k :: 0 <= k < |SunLayout| ==> Readable(SunLayout[k], row)
    ensures ParseSun(row).Success?
  {
    var L := SunLayout;
    assert Readable(L[0], row);
    assert Readable(L[2], row);
    assert Readable(L[3], row);
  }

  /** On a row the Sun parser rejects, decoding the layout fails with
      the same error. */
  lemma SunRejects(row: seq<string>)
    requires ParseSun(row).Failure?
    ensures Decode(SunLayout, row) == Parse(Sun, row)
  {
    var L := SunLayout;
    if forall k :: 0 <= k < |L| ==> Readable(L[k], row) {
      SunAccepts(row);
    }
    var k := FirstUnreadableIndex(L, row, 0);
    DecodeFailure(L, row, k);
    SunFailure(row, k);
  }

  /** The Sun parser and its layout agree on every row. */
  lemma SunMatchesLayout(row: seq<string>)
    ensures Parse(Sun, row) == Decode(Layout(Sun), row)
  {
    if ParseSun(row).Success? {
      SunDecodes(row);
    } else {
      SunRejects(row);
    }
  }

  /** Every column of the Wind layout is readable when the parser succeeds. */
  lemma WindReadable(row: seq<string>)
    requires 5 <= |row| && IntReadable(row, 0) && IntReadable(row, 2) && IntReadable(row, 4)
    ensures forall k :: 0 <= k < |WindLayout| ==> Readable(WindLayout[k], row)
  {
  }

  /** Each column of the Wind layout denotes the value the parser puts at
      that position. */
  lemma WindValues(row: seq<string>)
    requires 5 <= |row| && IntReadable(row, 0) && IntReadable(row, 2) && IntReadable(row, 4)
    ensures forall k :: 0 <= k < |WindLayout| ==> Readable(WindLayout[k], row)
    ensures forall k :: 0 <= k < |WindLayout| ==>
      ColumnValue(WindLayout[k], row) == WindRecord(IntAt(row, 0), HourlyStamp(TextAt(row, 1)), IntAt(row, 2), FloatText(TextAt(row, 3)), IntAt(row, 4)).Values()[k]
  {
    WindReadable(row);
    var L := WindLayout;
    var v := WindRecord(IntAt(row, 0), HourlyStamp(TextAt(row, 1)), IntAt(row, 2), FloatText(TextAt(row, 3)), IntAt(row, 4)).Values();
    forall k | 0 <= k < |L|
      ensures ColumnValue(L[k], row) == v[k]
    {
      // splitting on k keeps this proof cheap: each branch sees one column
      if k == 0 {} else if k == 1 {} else if k == 2 {} else if k == 3 {} else {}
    }
  }

  /** On a row the Wind parser accepts, decoding the layout yields the
      parsed record. */
  lemma WindDecodes(row: seq<string>)
    requires 5 <= |row| && IntReadable(row, 0) && IntReadable(row, 2) && IntReadable(row, 4)
    ensures Decode(WindLayout, row) == Success(WindRecord(IntAt(row, 0), HourlyStamp(TextAt(row, 1)), IntAt(row, 2), FloatText(TextAt(row, 3)), IntAt(row, 4)).Values())
  {
    WindValues(row);
    DecodeYields(WindLayout, row, WindRecord(IntAt(row, 0), HourlyStamp(TextAt(row, 1)), IntAt(row, 2), FloatText(TextAt(row, 3)), IntAt(row, 4)).Values());
  }

  /** The Wind parser fails with the error of the layout's first
      unreadable column. */
  lemma WindFailure(row: seq<string>, k: nat)
    requires FirstUnreadable(WindLayout, row, k)
    ensures ParseWind(row) == Failure(ReadColumn(WindLayout[k], row).error)
  {
    var L := WindLayout;
    if k == 0 {
    } else if k == 1 {
      assert Readable(L[0], row);
    } else if k == 2 {
      assert Readable(L[0], row);
      assert Readable(L[1], row);
    } else if k == 3 {
      assert Readable(L[0], row);
      assert Readable(L[1], row);
      assert Readable(L[2], row);
    } else {
      assert Readable(L[0], row);
      assert Readable(L[1], row);
      assert Readable(L[2], row);
      assert Readable(L[3], row);
    }
  }

  /** The Wind parser accepts every row whose columns are all readable. */
  lemma WindAccepts(row: seq<string>)
    requires forall k :: 0 <= k < |WindLayout| ==> Readable(WindLayout[k], row)
    ensures ParseWind(row).Success?
  {
    var L := WindLayout;
    assert Readable(L[0], row);
    assert Readable(L[2], row);
    assert Readable(L[4], row);
  }

  /** On a row the Wind parser rejects, decoding the layout fails with
      the same error. */
  lemma WindRejects(row: seq<string>)
    requires ParseWind(row).Failure?
    ensures Decode(WindLayout, row) == Parse(Wind, row)
  {
    var L := WindLayout;
    if forall k :: 0 <= k < |L| ==> Readable(L[k], row) {
      WindAccepts(row);
    }
    var k := FirstUnreadableIndex(L, row, 0);
    DecodeFailure(L, row, k);
    WindFailure(row, k);
  }

  /** The Wind parser and its layout agree on every row. */
  lemma WindMatchesLayout(row: seq<string>)
    ensures Parse(Wind, row) == Decode(Layout(Wind), row)
  {
    if ParseWind(row).Success? {
      WindDecodes(row);
    } else {
      WindRejects(row);
    }
  }

}
