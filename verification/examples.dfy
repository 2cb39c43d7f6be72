/** The sample rows quoted in the importer's documentation, proved against
    the model. Each literal fact is proved in a lemma of its own and the row is
    then assembled from them. */
module Examples {
  import opened Results
  import opened PyStr
  import opened IntText
  import opened Timestamps
  import opened Rows
  import opened Records

  /** The wind sample's station column, `   3987`. */
  lemma StationColumn()
    ensures Strip("   3987") == "3987" && IsIntLiteral("3987") && IntOf("3987") == 3987
  {
    StripBetween("   3987", 3, 7);
    ParseShow(3987);
    assert Show(3987) == "3987";
  }

  /** The wind sample's quality column, `    5`. */
  lemma QualityColumn()
    ensures Strip("    5") == "5" && IsIntLiteral("5") && IntOf("5") == 5
  {
    StripBetween("    5", 4, 5);
    ParseShow(5);
    assert Show(5) == "5";
  }

  /** The wind sample's direction column, `-999` (the missing-value mark). */
  lemma DirectionColumn()
    ensures Strip("-999") == "-999" && IsIntLiteral("-999") && IntOf("-999") == -999
  {
    StripBetween("-999", 0, 4);
    ParseShow(-999);
    assert Show(-999) == "-999";
  }

  /** The wind sample's speed column, `   5.4`. */
  lemma SpeedColumn()
    ensures Strip("   5.4") == "5.4"
  {
    StripBetween("   5.4", 3, 6);
  }

  /** The wind sample's timestamp column, `1893010100`. */
  lemma StampColumn()
    ensures Strip("1893010100") == "1893010100"
    ensures HourlyStamp("1893010100") == "1893-01-01 00:00:00"
  {
    StripBetween("1893010100", 0, 10);
    HourlyRendering("1893010100");
  }

  /** The hourly rendering of a full stamp spelled out piece by piece. */
  lemma HourlyRendering(s: string)
    requires |s| == 10
    ensures HourlyStamp(s) == s[..4] + "-" + s[4..6] + "-" + s[6..8] + " " + s[8..10] + ":00:00"
  {
  }

  /** A wind row is determined by the stripped texts of its first five
      columns. */
  lemma WindFromStripped(row: seq<string>, a: string, b: string, c: string, e: string, g: string)
    requires |row| >= 5
    requires Strip(row[0]) == a && Strip(row[1]) == b && Strip(row[2]) == c
    requires Strip(row[3]) == e && Strip(row[4]) == g
    requires IsIntLiteral(a) && IsIntLiteral(c) && IsIntLiteral(g)
    ensures ParseWind(row) == Success(WindRecord(IntOf(a), HourlyStamp(b), IntOf(c), FloatText(e), IntOf(g)))
  {
  }

  /** The wind sample row `   3987;1893010100;    5;   5.4;-999;eor`: the
      padding goes, the timestamp is re-rendered, the trailing `eor` column
      is ignored. */
  lemma WindSample()
    ensures ParseWind(["   3987", "1893010100", "    5", "   5.4", "-999", "eor"])
         == Success(WindRecord(3987, "1893-01-01 00:00:00", 5, FloatText("5.4"), -999))
  {
    StationColumn();
    QualityColumn();
    DirectionColumn();
    SpeedColumn();
    StampColumn();
    WindFromStripped(["   3987", "1893010100", "    5", "   5.4", "-999", "eor"], "3987", "1893010100", "5", "5.4", "-999");
  }

  /** The solar sample's start `1949010100:18` keeps its minutes. */
  lemma SolarSample()
    ensures SolarStamp("1949010100:18") == "1949-01-01 00:18:00"
  {
    assert Slice("1949010100:18", 0, 4) == "1949";
    assert Slice("1949010100:18", 4, 6) == "01";
    assert Slice("1949010100:18", 6, 8) == "01";
    assert Slice("1949010100:18", 8, 10) == "00";
    assert Slice("1949010100:18", 11, 13) == "18";
  }

  /** A mistyped station column, `   39x7`. */
  lemma MistypedStationColumn()
    ensures Strip("   39x7") == "39x7" && !IsIntLiteral("39x7")
  {
    StripBetween("   39x7", 3, 7);
    assert !IsDigit("39x7"[2]);
  }

  /** A wind row whose station column is not a number is rejected with
      that column's text, whatever the other columns hold. */
  lemma WindRejectsStation(row: seq<string>, a: string)
    requires |row| >= 1 && Strip(row[0]) == a && !IsIntLiteral(a)
    ensures ParseWind(row) == Failure(NotAnInteger(0, a))
  {
  }

  /** The wind sample with a mistyped station column fails as a whole. */
  lemma WindSampleBadStation()
    ensures ParseWind(["   39x7", "1893010100", "    5", "   5.4", "-999", "eor"])
         == Failure(NotAnInteger(0, "39x7"))
  {
    MistypedStationColumn();
    WindRejectsStation(["   39x7", "1893010100", "    5", "   5.4", "-999", "eor"], "39x7");
  }
}
