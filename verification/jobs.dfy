/** The eight import jobs put together: each runs the generic loader with
    its category's parser, and its insert statement names the category's
    table and fields. */
module Jobs {
  import opened Results
  import opened PyStr
  import opened Rows
  import opened Categories
  import opened Agreement
  import opened Sql
  import opened Loader

  /** The insert statement of a category's job. */
  function JobStatement(c: Category): string {
    InsertStatement(TableName(c), Fields(c))
  }

  /** The outcome of a category's job on the files its pattern matched. */
  function ImportCategory(c: Category, files: seq<File>): Outcome<seq<Value>> {
    Load(files, (row: Row) => Parse(c, row))
  }

  /** The statement lists the category's fields in order and takes exactly
      one value per field. */
  lemma JobStatementColumns(c: Category)
    ensures JobStatement(c) ==
      "INSERT INTO " + Quote(TableName(c)) + "(" + Join(",", QuoteAll(Fields(c))) + ") VALUES(" + Placeholders(|Fields(c)|) + ")"
    ensures Split(',', Join(",", QuoteAll(Fields(c)))) == QuoteAll(Fields(c))
    ensures |Split(',', Placeholders(|Fields(c)|))| == |Fields(c)|
  {
    FieldNamesPlain(c);
    ColumnsRoundTrip(Fields(c));
    PlaceholderCount(|Fields(c)|);
  }

  /** Every tuple a completed job inserts has one value per field of the
      job's statement, each of the type its column expects. */
  lemma ImportedTuplesFit(c: Category, files: seq<File>)
    requires ImportCategory(c, files).Completed?
    ensures forall t :: t in ImportCategory(c, files).table ==> |t| == |Fields(c)| && FitsColumns(c, t)
  {
    var parse := (row: Row) => Parse(c, row);
    var table := ImportCategory(c, files).table;
    LoadCompletedTable(files, parse);
    forall t | t in table
      ensures |t| == |Fields(c)| && FitsColumns(c, t)
    {
      var j :| 0 <= j < |table| && table[j] == t;
      var row := AllDataRows(files)[j];
      assert Parse(c, row) == Success(t);
      ParsedRowFitsColumns(c, row);
    }
  }
}
