/** The eight row parsers. Each turns one split row into the record tuple
    of its category; every field is stripped, station and quality fields
    (and the integer measurements) go through `int()`, floats stay text,
    and the compact timestamp is re-rendered. The parsers read the fields
    in the order the source does, so the first failing read decides the
    error. */
module Records {
  import opened Results
  import opened Timestamps
  import opened Rows

  datatype AirTemperatureRecord = AirTemperatureRecord(
    stationId: int, measuredAt: string, qn9: int, ttTu: FloatText, rfTu: FloatText)
  {
    function Values(): seq<Value> {
      [IntValue(stationId), TextValue(measuredAt), IntValue(qn9), FloatValue(ttTu), FloatValue(rfTu)]
    }
  }

  datatype CloudinessRecord = CloudinessRecord(
    stationId: int, measuredAt: string, qn8: int, vNI: string, vN: FloatText)
  {
    function Values(): seq<Value> {
      [IntValue(stationId), TextValue(measuredAt), IntValue(qn8), TextValue(vNI), FloatValue(vN)]
    }
  }

  datatype PrecipitationRecord = PrecipitationRecord(
    stationId: int, measuredAt: string, qn8: int, r1: FloatText, rsInd: int, wrtr: int)
  {
    function Values(): seq<Value> {
      [IntValue(stationId), TextValue(measuredAt), IntValue(qn8), FloatValue(r1), IntValue(rsInd), IntValue(wrtr)]
    }
  }

  datatype PressureRecord = PressureRecord(
    stationId: int, measuredAt: string, qn8: int, p: FloatText, p0: FloatText)
  {
    function Values(): seq<Value> {
      [IntValue(stationId), TextValue(measuredAt), IntValue(qn8), FloatValue(p), FloatValue(p0)]
    }
  }

  datatype SoilTemperatureRecord = SoilTemperatureRecord(
    stationId: int, measuredAt: string, qn2: int,
    vTe002: FloatText, vTe005: FloatText, vTe010: FloatText,
    vTe020: FloatText, vTe050: FloatText, vTe100: FloatText)
  {
    function Values(): seq<Value> {
      [IntValue(stationId), TextValue(measuredAt), IntValue(qn2),
       FloatValue(vTe002), FloatValue(vTe005), FloatValue(vTe010),
       FloatValue(vTe020), FloatValue(vTe050), FloatValue(vTe100)]
    }
  }

  datatype SolarRecord = SolarRecord(
    stationId: int, measuredStartedAt: string, measuredEndedAt: string, qn592: int,
    atmoLberg: FloatText, fdLberg: FloatText, fgLberg: FloatText, sdLberg: FloatText, zenit: FloatText)
  {
    function Values(): seq<Value> {
      [IntValue(stationId), TextValue(measuredStartedAt), TextValue(measuredEndedAt), IntValue(qn592),
       FloatValue(atmoLberg), FloatValue(fdLberg), FloatValue(fgLberg), FloatValue(sdLberg), FloatValue(zenit)]
    }
  }

  datatype SunRecord = SunRecord(stationId: int, measuredAt: string, qn7: int, sdSo: FloatText)
  {
    function Values(): seq<Value> {
      [IntValue(stationId), TextValue(measuredAt), IntValue(qn7), FloatValue(sdSo)]
    }
  }

  datatype WindRecord = WindRecord(stationId: int, measuredAt: string, qn3: int, f: FloatText, d: int)
  {
    function Values(): seq<Value> {
      [IntValue(stationId), TextValue(measuredAt), IntValue(qn3), FloatValue(f), IntValue(d)]
    }
  }

  function ParseAirTemperature(row: seq<string>): (r: Result<AirTemperatureRecord, ParseError>)
    ensures r.Success? <==> 5 <= |row| && IntReadable(row, 0) && IntReadable(row, 2)
    ensures r.Success? ==> r.value == AirTemperatureRecord(
      IntAt(row, 0), HourlyStamp(TextAt(row, 1)), IntAt(row, 2), FloatText(TextAt(row, 3)), FloatText(TextAt(row, 4)))
  {
    var stationId :- IntField(row, 0);
    var measuredAt :- Field(row, 1);
    var qn9 :- IntField(row, 2);
    var ttTu :- FloatField(row, 3);
    var rfTu :- FloatField(row, 4);
    Success(AirTemperatureRecord(stationId, HourlyStamp(measuredAt), qn9, ttTu, rfTu))
  }

  function ParseCloudiness(row: seq<string>): (r: Result<CloudinessRecord, ParseError>)
    ensures r.Success? <==> 5 <= |row| && IntReadable(row, 0) && IntReadable(row, 2)
    ensures r.Success? ==> r.value == CloudinessRecord(
      IntAt(row, 0), HourlyStamp(TextAt(row, 1)), IntAt(row, 2), TextAt(row, 3), FloatText(TextAt(row, 4)))
  {
    var stationId :- IntField(row, 0);
    var measuredAt :- Field(row, 1);
    var qn8 :- IntField(row, 2);
    var vNI :- Field(row, 3);
    var vN :- FloatField(row, 4);
    Success(CloudinessRecord(stationId, HourlyStamp(measuredAt), qn8, vNI, vN))
  }

  function ParsePrecipitation(row: seq<string>): (r: Result<PrecipitationRecord, ParseError>)
    ensures r.Success? <==>
      6 <= |row| && IntReadable(row, 0) && IntReadable(row, 2) && IntReadable(row, 4) && IntReadable(row, 5)
    ensures r.Success? ==> r.value == PrecipitationRecord(
      IntAt(row, 0), HourlyStamp(TextAt(row, 1)), IntAt(row, 2), FloatText(TextAt(row, 3)), IntAt(row, 4), IntAt(row, 5))
  {
    var stationId :- IntField(row, 0);
    var measuredAt :- Field(row, 1);
    var qn8 :- IntField(row, 2);
    var r1 :- FloatField(row, 3);
    var rsInd :- IntField(row, 4);
    var wrtr :- IntField(row, 5);
    Success(PrecipitationRecord(stationId, HourlyStamp(measuredAt), qn8, r1, rsInd, wrtr))
  }

  function ParsePressure(row: seq<string>): (r: Result<PressureRecord, ParseError>)
    ensures r.Success? <==> 5 <= |row| && IntReadable(row, 0) && IntReadable(row, 2)
    ensures r.Success? ==> r.value == PressureRecord(
      IntAt(row, 0), HourlyStamp(TextAt(row, 1)), IntAt(row, 2), FloatText(TextAt(row, 3)), FloatText(TextAt(row, 4)))
  {
    var stationId :- IntField(row, 0);
    var measuredAt :- Field(row, 1);
    var qn8 :- IntField(row, 2);
    var p :- FloatField(row, 3);
    var p0 :- FloatField(row, 4);
    Success(PressureRecord(stationId, HourlyStamp(measuredAt), qn8, p, p0))
  }

  function ParseSoilTemperature(row: seq<string>): (r: Result<SoilTemperatureRecord, ParseError>)
    ensures r.Success? <==> 9 <= |row| && IntReadable(row, 0) && IntReadable(row, 2)
    ensures r.Success? ==> r.value == SoilTemperatureRecord(
      IntAt(row, 0), HourlyStamp(TextAt(row, 1)), IntAt(row, 2),
      FloatText(TextAt(row, 3)), FloatText(TextAt(row, 4)), FloatText(TextAt(row, 5)),
      FloatText(TextAt(row, 6)), FloatText(TextAt(row, 7)), FloatText(TextAt(row, 8)))
  {
    var stationId :- IntField(row, 0);
    var measuredAt :- Field(row, 1);
    var qn2 :- IntField(row, 2);
    var vTe002 :- FloatField(row, 3);
    var vTe005 :- FloatField(row, 4);
    var vTe010 :- FloatField(row, 5);
    var vTe020 :- FloatField(row, 6);
    var vTe050 :- FloatField(row, 7);
    var vTe100 :- FloatField(row, 8);
    Success(SoilTemperatureRecord(stationId, HourlyStamp(measuredAt), qn2, vTe002, vTe005, vTe010, vTe020, vTe050, vTe100))
  }

  /** The solar row carries two timestamps: the start of the interval in
      field 1 and its end in field 8; both come before the quality flag. */
  function ParseSolar(row: seq<string>): (r: Result<SolarRecord, ParseError>)
    ensures r.Success? <==> 9 <= |row| && IntReadable(row, 0) && IntReadable(row, 2)
    ensures r.Success? ==> r.value == SolarRecord(
      IntAt(row, 0), SolarStamp(TextAt(row, 1)), SolarStamp(TextAt(row, 8)), IntAt(row, 2),
      FloatText(TextAt(row, 3)), FloatText(TextAt(row, 4)), FloatText(TextAt(row, 5)),
      FloatText(TextAt(row, 6)), FloatText(TextAt(row, 7)))
  {
    var stationId :- IntField(row, 0);
    var measuredStartedAt :- Field(row, 1);
    var measuredEndedAt :- Field(row, 8);
    var qn592 :- IntField(row, 2);
    // The `float()` reads of fields 3 to 7; field 8 has been read already,
    // so none of them can raise `IndexError` (each failure case is dead).
    match FloatField(row, 3)
    case Failure(e) => Failure(e)
    case Success(atmoLberg) =>
    match FloatField(row, 4)
    case Failure(e) => Failure(e)
    case Success(fdLberg) =>
    match FloatField(row, 5)
    case Failure(e) => Failure(e)
    case Success(fgLberg) =>
    match FloatField(row, 6)
    case Failure(e) => Failure(e)
    case Success(sdLberg) =>
    match FloatField(row, 7)
    case Failure(e) => Failure(e)
    case Success(zenit) =>
    Success(SolarRecord(stationId, SolarStamp(measuredStartedAt), SolarStamp(measuredEndedAt), qn592,
                        atmoLberg, fdLberg, fgLberg, sdLberg, zenit))
  }

  function ParseSun(row: seq<string>): (r: Result<SunRecord, ParseError>)
    ensures r.Success? <==> 4 <= |row| && IntReadable(row, 0) && IntReadable(row, 2)
    ensures r.Success? ==> r.value == SunRecord(
      IntAt(row, 0), HourlyStamp(TextAt(row, 1)), IntAt(row, 2), FloatText(TextAt(row, 3)))
  {
    var stationId :- IntField(row, 0);
    var measuredAt :- Field(row, 1);
    var qn7 :- IntField(row, 2);
    var sdSo :- FloatField(row, 3);
    Success(SunRecord(stationId, HourlyStamp(measuredAt), qn7, sdSo))
  }

  function ParseWind(row: seq<string>): (r: Result<WindRecord, ParseError>)
    ensures r.Success? <==> 5 <= |row| && IntReadable(row, 0) && IntReadable(row, 2) && IntReadable(row, 4)
    ensures r.Success? ==> r.value == WindRecord(
      IntAt(row, 0), HourlyStamp(TextAt(row, 1)), IntAt(row, 2), FloatText(TextAt(row, 3)), IntAt(row, 4))
  {
    var stationId :- IntField(row, 0);
    var measuredAt :- Field(row, 1);
    var qn3 :- IntField(row, 2);
    var f :- FloatField(row, 3);
    var d :- IntField(row, 4);
    Success(WindRecord(stationId, HourlyStamp(measuredAt), qn3, f, d))
  }
}
