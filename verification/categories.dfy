/** The eight import jobs: for every measurement category, the table it
    fills, the file pattern it reads, the column list of its insert
    statement and its row parser. `Layout` restates each parser as a
    column layout, the reference the parsers are checked against. */
module Categories {
  import opened Results
  import opened Rows
  import opened Records
  import opened Schema

  datatype Category =
    | AirTemperature | Cloudiness | Precipitation | Pressure
    | SoilTemperature | Solar | Sun | Wind

  /** The destination table. */
  function TableName(c: Category): string {
    match c
    case AirTemperature => "air_temperature"
    case Cloudiness => "cloudiness"
    case Precipitation => "precipitation"
    case Pressure => "pressure"
    case SoilTemperature => "soil_temperature"
    case Solar => "solar"
    case Sun => "sun"
    case Wind => "wind"
  }

  /** The glob pattern of the category's input files. */
  function FilePattern(c: Category): string {
    match c
    case AirTemperature => "data/air_temperature/historical/produkt_tu_stunde_*.txt"
    case Cloudiness => "data/cloudiness/historical/produkt_n_stunde_*.txt"
    case Precipitation => "data/precipitation/historical/produkt_rr_stunde_*.txt"
    case Pressure => "data/pressure/historical/produkt_p0_stunde_*.txt"
    case SoilTemperature => "data/soil_temperature/historical/produkt_eb_stunde_*.txt"
    case Solar => "data/solar/produkt_st_stunde_*.txt"
    case Sun => "data/sun/historical/produkt_sd_stunde_*.txt"
    case Wind => "data/wind/historical/produkt_ff_stunde_*.txt"
  }

  /** The column names the job hands to the generic importer, in order. */
  function Fields(c: Category): (r: seq<string>)
    ensures |r| >= 1
  {
    match c
    case AirTemperature => ["station_id", "measured_at", "qn_9", "tt_tu", "rf_tu"]
    case Cloudiness => ["station_id", "measured_at", "qn_8", "v_n_i", "v_n"]
    case Precipitation => ["station_id", "measured_at", "qn_8", "r1", "rs_ind", "wrtr"]
    case Pressure => ["station_id", "measured_at", "qn_8", "p", "p0"]
    case SoilTemperature => ["station_id", "measured_at", "qn_2", "v_te002", "v_te005", "v_te010", "v_te020", "v_te050", "v_te100"]
    case Solar => ["station_id", "measured_started_at", "measured_ended_at", "qn_592", "atmo_lberg", "fd_lberg", "fg_lberg", "sd_lberg", "zenit"]
    case Sun => ["station_id", "measured_at", "qn_7", "sd_so"]
    case Wind => ["station_id", "measured_at", "qn_3", "f", "d"]
  }

  /** No field name holds a comma, so the column list of the insert
      statement splits back into the names. */
  lemma FieldNamesPlain(c: Category)
    ensures forall k :: 0 <= k < |Fields(c)| ==> ',' !in Fields(c)[k]
  {
    match c
    case AirTemperature => AirTemperatureNamesPlain();
    case Cloudiness => CloudinessNamesPlain();
    case Precipitation => PrecipitationNamesPlain();
    case Pressure => PressureNamesPlain();
    case SoilTemperature => SoilTemperatureNamesPlain();
    case Solar => SolarNamesPlain();
    case Sun => SunNamesPlain();
    case Wind => WindNamesPlain();
  }

  lemma AirTemperatureNamesPlain()
    ensures forall k :: 0 <= k < |Fields(AirTemperature)| ==> ',' !in Fields(AirTemperature)[k]
  {
  }

  lemma CloudinessNamesPlain()
    ensures forall k :: 0 <= k < |Fields(Cloudiness)| ==> ',' !in Fields(Cloudiness)[k]
  {
  }

  lemma PrecipitationNamesPlain()
    ensures forall k :: 0 <= k < |Fields(Precipitation)| ==> ',' !in Fields(Precipitation)[k]
  {
  }

  lemma PressureNamesPlain()
    ensures forall k :: 0 <= k < |Fields(Pressure)| ==> ',' !in Fields(Pressure)[k]
  {
  }

  lemma SoilTemperatureNamesPlain()
    ensures forall k :: 0 <= k < |Fields(SoilTemperature)| ==> ',' !in Fields(SoilTemperature)[k]
  {
  }

  lemma SolarNamesPlain()
    ensures forall k :: 0 <= k < |Fields(Solar)| ==> ',' !in Fields(Solar)[k]
  {
  }

  lemma SunNamesPlain()
    ensures forall k :: 0 <= k < |Fields(Sun)| ==> ',' !in Fields(Sun)[k]
  {
  }

  lemma WindNamesPlain()
    ensures forall k :: 0 <= k < |Fields(Wind)| ==> ',' !in Fields(Wind)[k]
  {
  }

  const AirTemperatureLayout: seq<Column> :=
    [ Column(0, IntKind),
      Column(1, HourlyKind),
      Column(2, IntKind),
      Column(3, FloatKind),
      Column(4, FloatKind) ]

  const CloudinessLayout: seq<Column> :=
    [ Column(0, IntKind),
      Column(1, HourlyKind),
      Column(2, IntKind),
      Column(3, TextKind),
      Column(4, FloatKind) ]

  const PrecipitationLayout: seq<Column> :=
    [ Column(0, IntKind),
      Column(1, HourlyKind),
      Column(2, IntKind),
      Column(3, FloatKind),
      Column(4, IntKind),
      Column(5, IntKind) ]

  const PressureLayout: seq<Column> :=
    [ Column(0, IntKind),
      Column(1, HourlyKind),
      Column(2, IntKind),
      Column(3, FloatKind),
      Column(4, FloatKind) ]

  const SoilTemperatureLayout: seq<Column> :=
    [ Column(0, IntKind),
      Column(1, HourlyKind),
      Column(2, IntKind),
      Column(3, FloatKind),
      Column(4, FloatKind),
      Column(5, FloatKind),
      Column(6, FloatKind),
      Column(7, FloatKind),
      Column(8, FloatKind) ]

  const SolarLayout: seq<Column> :=
    [ Column(0, IntKind),
      Column(1, SolarKind),
      Column(8, SolarKind),
      Column(2, IntKind),
      Column(3, FloatKind),
      Column(4, FloatKind),
      Column(5, FloatKind),
      Column(6, FloatKind),
      Column(7, FloatKind) ]

  const SunLayout: seq<Column> :=
    [ Column(0, IntKind),
      Column(1, HourlyKind),
      Column(2, IntKind),
      Column(3, FloatKind) ]

  const WindLayout: seq<Column> :=
    [ Column(0, IntKind),
      Column(1, HourlyKind),
      Column(2, IntKind),
      Column(3, FloatKind),
      Column(4, IntKind) ]

  /** Which row field feeds each tuple position, and how it is converted. */
  function Layout(c: Category): seq<Column> {
    match c
    case AirTemperature => AirTemperatureLayout
    case Cloudiness => CloudinessLayout
    case Precipitation => PrecipitationLayout
    case Pressure => PressureLayout
    case SoilTemperature => SoilTemperatureLayout
    case Solar => SolarLayout
    case Sun => SunLayout
    case Wind => WindLayout
  }

  /** The category's parser, giving the record as the tuple of values the
      database driver receives. */
  function Parse(c: Category, row: seq<string>): (r: Result<seq<Value>, ParseError>)
    ensures r.Success? ==> |r.value| == |Fields(c)|
  {
    match c
    case AirTemperature =>
      var rec :- ParseAirTemperature(row);
      Success(rec.Values())
    case Cloudiness =>
      var rec :- ParseCloudiness(row);
      Success(rec.Values())
    case Precipitation =>
      var rec :- ParsePrecipitation(row);
      Success(rec.Values())
    case Pressure =>
      var rec :- ParsePressure(row);
      Success(rec.Values())
    case SoilTemperature =>
      var rec :- ParseSoilTemperature(row);
      Success(rec.Values())
    case Solar =>
      var rec :- ParseSolar(row);
      Success(rec.Values())
    case Sun =>
      var rec :- ParseSun(row);
      Success(rec.Values())
    case Wind =>
      var rec :- ParseWind(row);
      Success(rec.Values())
  }
}
