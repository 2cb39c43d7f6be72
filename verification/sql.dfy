/** The parameterised `INSERT` statement every batch of parsed tuples is
    executed with: the table, the backtick-quoted column list and one `%s`
    placeholder per column. */
module Sql {
  import opened PyStr

  /** A MySQL identifier in backticks. */
  function Quote(name: string): string {
    "`" + name + "`"
  }

  /** Every name in backticks, in order. */
  function QuoteAll(names: seq<string>): (r: seq<string>)
    ensures |r| == |names|
    ensures forall k :: 0 <= k < |names| ==> r[k] == Quote(names[k])
  {
    if |names| == 0 then [] else [Quote(names[0])] + QuoteAll(names[1..])
  }

  /** Python's `[s] * n`. */
  function Repeat(s: string, n: nat): (r: seq<string>)
    ensures |r| == n
    ensures forall k :: 0 <= k < n ==> r[k] == s
  {
    if n == 0 then [] else [s] + Repeat(s, n - 1)
  }

  /** The placeholder list `%s,%s,...,%s` for `n` values. */
  function Placeholders(n: nat): string {
    Join(",", Repeat("%s", n))
  }

  /** The insert statement exactly as the importer formats it: the field
      names joined with `` `,` `` inside one pair of backticks, and the
      placeholders joined with `,`. */
  function InsertStatement(table: string, fields: seq<string>): (r: string)
    ensures |fields| >= 1 ==>
      r == "INSERT INTO " + Quote(table) + "(" + Join(",", QuoteAll(fields)) + ") VALUES(" + Placeholders(|fields|) + ")"
  {
    InsertShape(fields);
    "INSERT INTO `" + table + "`(`" + Join("`,`", fields) + "`) VALUES(" + Placeholders(|fields|) + ")"
  }

  /** Joining with `` `,` `` inside outer backticks is joining the quoted
      names with `,`. */
  lemma {:induction false} InsertShape(fields: seq<string>)
    ensures |fields| >= 1 ==> "`" + Join("`,`", fields) + "`" == Join(",", QuoteAll(fields))
  {
    if |fields| >= 2 {
      InsertShape(fields[1..]);
      var rest := Join("`,`", fields[1..]);
      calc {
        "`" + Join("`,`", fields) + "`";
        "`" + (fields[0] + "`,`" + rest) + "`";
        { assert "`,`" == "`" + "," + "`"; }
        Quote(fields[0]) + "," + ("`" + rest + "`");
        Quote(fields[0]) + "," + Join(",", QuoteAll(fields[1..]));
        { assert QuoteAll(fields)[1..] == QuoteAll(fields[1..]); }
        Join(",", QuoteAll(fields));
      }
    }
  }

  /** Splitting the placeholder list at its commas gives exactly `n`
      placeholders, so the statement takes `n` values. */
  lemma {:induction false} PlaceholderCount(n: nat)
    requires n >= 1
    ensures Split(',', Placeholders(n)) == Repeat("%s", n)
  {
    SplitJoin(',', Repeat("%s", n));
  }

  /** Splitting the column list at its commas gives the quoted field names
      back in order, provided no name holds a comma. */
  lemma {:induction false} ColumnsRoundTrip(fields: seq<string>)
    requires |fields| >= 1
    requires forall k :: 0 <= k < |fields| ==> ',' !in fields[k]
    ensures Split(',', Join(",", QuoteAll(fields))) == QuoteAll(fields)
  {
    var q := QuoteAll(fields);
    forall k | 0 <= k < |q|
      ensures ',' !in q[k]
    {
      assert q[k] == "`" + fields[k] + "`";
    }
    SplitJoin(',', q);
  }
}
