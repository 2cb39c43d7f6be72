/** The generic import job. The table is truncated, then the files are
    processed in order: the header row of each is skipped, every remaining
    row goes through the parser, and the file's tuples are inserted as one
    batch. A row the parser rejects raises out of the job: the batches of
    the earlier files stay in the table, the file being read contributes
    nothing, and the later files are never opened. */
module Loader {
  import opened Results
  import opened Rows

  /** A row split at its `;` separators. */
  type Row = seq<string>

  /** A file's rows, header first. */
  type File = seq<Row>

  /** Which data row of a file the parser rejected (counted from zero,
      the header not included), and why. */
  datatype RowFailure = RowFailure(row: nat, error: ParseError)

  /** How a job ends: with every file inserted, or with the exception of
      the file `file`, leaving the tuples committed before it. */
  datatype Outcome<R> =
    | Completed(table: seq<R>)
    | Aborted(table: seq<R>, file: nat, failure: RowFailure)

  /** The rows after the header; a file without any row has none. */
  function DataRows(f: File): (r: seq<Row>)
    ensures |f| == 0 ==> r == []
    ensures |f| >= 1 ==> |r| == |f| - 1 && forall j :: 0 <= j < |r| ==> r[j] == f[j + 1]
  {
    if |f| == 0 then [] else f[1..]
  }

  /** `table` holds, in order, exactly the tuples `parse` makes of `rows`. */
  ghost predicate ParsedFrom<R>(table: seq<R>, rows: seq<Row>, parse: Row -> Result<R, ParseError>) {
    && |table| == |rows|
    && forall j :: 0 <= j < |rows| ==> parse(rows[j]) == Success(table[j])
  }

  /** Parses the rows of one file, stopping at the first row the parser
      rejects. */
  function ParseBatch<R>(rows: seq<Row>, parse: Row -> Result<R, ParseError>): (r: Result<seq<R>, RowFailure>)
    ensures r.Success? ==> ParsedFrom(r.value, rows, parse)
    ensures r.Failure? ==>
      && r.error.row < |rows|
      && parse(rows[r.error.row]) == Failure(r.error.error)
      && forall j :: 0 <= j < r.error.row ==> parse(rows[j]).Success?
  {
    if |rows| == 0 then Success([])
    else
      match parse(rows[0])
      case Failure(e) => Failure(RowFailure(0, e))
      case Success(v) =>
        match ParseBatch(rows[1..], parse)
        case Failure(f) => Failure(RowFailure(f.row + 1, f.error))
        case Success(vs) => Success([v] + vs)
  }

  /** A batch parses exactly when every row does. */
  lemma {:induction false} ParseBatchSucceedsIff<R>(rows: seq<Row>, parse: Row -> Result<R, ParseError>)
    ensures ParseBatch(rows, parse).Success? <==> forall j :: 0 <= j < |rows| ==> parse(rows[j]).Success?
  {
    if ParseBatch(rows, parse).Failure? {
      var f := ParseBatch(rows, parse).error;
      assert parse(rows[f.row]).Failure?;
    }
  }

  /** The data rows of all the files, in file order. */
  function AllDataRows(files: seq<File>): seq<Row> {
    if |files| == 0 then []
    else AllDataRows(files[..|files| - 1]) + DataRows(files[|files| - 1])
  }

  /** The data rows of two groups of files are those of the first group
      followed by those of the second. */
  lemma {:induction false} AllDataRowsAppend(fs: seq<File>, gs: seq<File>)
    ensures AllDataRows(fs + gs) == AllDataRows(fs) + AllDataRows(gs)
    decreases |gs|
  {
    if |gs| == 0 {
      assert fs + gs == fs;
    } else {
      var init := gs[..|gs| - 1];
      var last := gs[|gs| - 1];
      var all := fs + gs;
      DropLastOfAppend(fs, gs);
      calc {
        AllDataRows(all);
        AllDataRows(fs + init) + DataRows(last);
        { AllDataRowsAppend(fs, init); }
        (AllDataRows(fs) + AllDataRows(init)) + DataRows(last);
        AllDataRows(fs) + (AllDataRows(init) + DataRows(last));
        AllDataRows(fs) + AllDataRows(gs);
      }
    }
  }

  /** Dropping the last element of `xs + ys`, for a non-empty `ys`, drops
      it from `ys`. */
  lemma DropLastOfAppend<T>(xs: seq<T>, ys: seq<T>)
    requires |ys| > 0
    ensures (xs + ys)[..|xs + ys| - 1] == xs + ys[..|ys| - 1]
    ensures (xs + ys)[|xs + ys| - 1] == ys[|ys| - 1]
  {
  }

  /** A file holding at most its header contributes no data rows, wherever
      it stands among the files. */
  lemma HeaderOnlyFileHasNoRows(fs: seq<File>, header: File, gs: seq<File>)
    requires |header| <= 1
    ensures AllDataRows(fs + [header] + gs) == AllDataRows(fs + gs)
  {
    var f := fs + [header];
    assert f[..|f| - 1] == fs && f[|f| - 1] == header;
    assert AllDataRows(f) == AllDataRows(fs);
    AllDataRowsAppend(f, gs);
    AllDataRowsAppend(fs, gs);
  }

  /** What the job leaves behind, file by file: the reference reading of
      the loop. */
  function Load<R>(files: seq<File>, parse: Row -> Result<R, ParseError>): Outcome<R>
  {
    if |files| == 0 then Completed([])
    else
      match Load(files[..|files| - 1], parse)
      case Aborted(t, i, f) => Aborted(t, i, f)
      case Completed(t) =>
        match ParseBatch(DataRows(files[|files| - 1]), parse)
        case Failure(f) => Aborted(t, |files| - 1, f)
        case Success(b) => Completed(t + b)
  }

  /** Every data row of the file parses. */
  ghost predicate FileParses<R>(f: File, parse: Row -> Result<R, ParseError>) {
    forall j :: 0 <= j < |DataRows(f)| ==> parse(DataRows(f)[j]).Success?
  }

  /** Every data row of every file parses. */
  ghost predicate AllParse<R>(files: seq<File>, parse: Row -> Result<R, ParseError>) {
    forall i :: 0 <= i < |files| ==> FileParses(files[i], parse)
  }

  /** A job whose rows all parse completes. */
  lemma {:induction false} AllParseCompletes<R>(files: seq<File>, parse: Row -> Result<R, ParseError>)
    requires AllParse(files, parse)
    ensures Load(files, parse).Completed?
  {
    if |files| > 0 {
      var n := |files| - 1;
      var init := files[..n];
      assert AllParse(init, parse) by {
        forall i | 0 <= i < |init|
          ensures FileParses(init[i], parse)
        {
          assert init[i] == files[i];
        }
      }
      AllParseCompletes(init, parse);
      assert FileParses(files[n], parse);
      ParseBatchSucceedsIff(DataRows(files[n]), parse);
    }
  }

  /** A job completes only when its rows all parse. */
  lemma {:induction false} CompletedAllParse<R>(files: seq<File>, parse: Row -> Result<R, ParseError>)
    requires Load(files, parse).Completed?
    ensures AllParse(files, parse)
  {
    if |files| > 0 {
      var n := |files| - 1;
      var init := files[..n];
      assert Load(init, parse).Completed? && ParseBatch(DataRows(files[n]), parse).Success?;
      CompletedAllParse(init, parse);
      ParseBatchSucceedsIff(DataRows(files[n]), parse);
      assert FileParses(files[n], parse);
      forall i | 0 <= i < |files|
        ensures FileParses(files[i], parse)
      {
        if i < n {
          assert init[i] == files[i];
        }
      }
    }
  }

  /** The job completes exactly when every data row of every file parses. */
  lemma {:induction false} LoadCompletesIff<R>(files: seq<File>, parse: Row -> Result<R, ParseError>)
    ensures Load(files, parse).Completed? <==> AllParse(files, parse)
  {
    if AllParse(files, parse) {
      AllParseCompletes(files, parse);
    }
    if Load(files, parse).Completed? {
      CompletedAllParse(files, parse);
    }
  }

  /** A completed job's table holds the tuples of all data rows, file
      after file. */
  lemma {:induction false} LoadCompletedTable<R>(files: seq<File>, parse: Row -> Result<R, ParseError>)
    requires Load(files, parse).Completed?
    ensures ParsedFrom(Load(files, parse).table, AllDataRows(files), parse)
  {
    if |files| > 0 {
      var n := |files| - 1;
      var init := files[..n];
      LoadCompletedTable(init, parse);
      var t := Load(init, parse).table;
      var b := ParseBatch(DataRows(files[n]), parse).value;
      ParsedFromAppend(t, AllDataRows(init), b, DataRows(files[n]), parse);
    }
  }

  /** When a job aborts, the files before the failing one parsed
      completely and their tuples are the table, and the reported row is
      the first row of the failing file that the parser rejects. */
  lemma {:induction false} LoadAbortedTable<R>(files: seq<File>, parse: Row -> Result<R, ParseError>)
    requires Load(files, parse).Aborted?
    ensures Load(files, parse).file < |files|
    ensures AllParse(files[..Load(files, parse).file], parse)
    ensures ParsedFrom(Load(files, parse).table, AllDataRows(files[..Load(files, parse).file]), parse)
    ensures ParseBatch(DataRows(files[Load(files, parse).file]), parse) == Failure(Load(files, parse).failure)
  {
    var n := |files| - 1;
    var init := files[..n];
    if Load(init, parse).Aborted? {
      LoadAbortedTable(init, parse);
      var i := Load(init, parse).file;
      assert files[..i] == init[..i];
      assert files[i] == init[i];
    } else {
      assert files[..n] == init;
      LoadCompletesIff(init, parse);
      LoadCompletedTable(init, parse);
    }
  }

  /** Tables built from consecutive groups of rows concatenate. */
  lemma ParsedFromAppend<R>(t: seq<R>, rows: seq<Row>, b: seq<R>, more: seq<Row>, parse: Row -> Result<R, ParseError>)
    requires ParsedFrom(t, rows, parse) && ParsedFrom(b, more, parse)
    ensures ParsedFrom(t + b, rows + more, parse)
  {
    forall j | 0 <= j < |rows + more|
      ensures parse((rows + more)[j]) == Success((t + b)[j])
    {
      if j >= |rows| {
        assert (rows + more)[j] == more[j - |rows|];
      }
    }
  }

  /** A file holding at most its header adds nothing to the table, and
      does not change how the job ends. */
  lemma HeaderOnlyFileAddsNothing<R>(files: seq<File>, header: File, parse: Row -> Result<R, ParseError>)
    requires |header| <= 1
    ensures Load(files + [header], parse) == Load(files, parse)
  {
    assert (files + [header])[..|files|] == files;
  }

  /** Once a job aborts, files after the failing one make no difference. */
  lemma {:induction false} AbortedIgnoresLaterFiles<R>(files: seq<File>, more: seq<File>, parse: Row -> Result<R, ParseError>)
    requires Load(files, parse).Aborted?
    ensures Load(files + more, parse) == Load(files, parse)
    decreases |more|
  {
    if |more| > 0 {
      var init := more[..|more| - 1];
      AbortedIgnoresLaterFiles(files, init, parse);
      assert (files + more)[..|files + more| - 1] == files + init;
    } else {
      assert files + more == files;
    }
  }

  /** The job as the importer runs it: truncate the table (its previous
      contents are dropped), then read the files one after the other,
      parsing every data row and inserting the file's tuples as a batch;
      the first row the parser rejects ends the job. */
  method RunImport<R>(previous: seq<R>, files: seq<File>, parse: Row -> Result<R, ParseError>) returns (outcome: Outcome<R>)
    ensures outcome == Load(files, parse)
  {
    var table: seq<R> := [];
    var i := 0;
    while i < |files|
      invariant 0 <= i <= |files|
      invariant Load(files[..i], parse) == Completed(table)
    {
      var rows := DataRows(files[i]);
      var itemBank: seq<R> := [];
      var j := 0;
      while j < |rows|
        invariant 0 <= j <= |rows|
        invariant ParseBatch(rows[..j], parse) == Success(itemBank)
      {
        var item := parse(rows[j]);
        if item.Failure? {
          BatchPrefixFails(rows, j, itemBank, parse);
          LoadStops(files, i, table, parse);
          return Aborted(table, i, RowFailure(j, item.error));
        }
        BatchPrefixGrows(rows, j, itemBank, parse);
        itemBank := itemBank + [item.value];
        j := j + 1;
      }
      assert rows[..j] == rows;
      LoadGrows(files, i, table, parse);
      table := table + itemBank;
      i := i + 1;
    }
    assert files[..i] == files;
    outcome := Completed(table);
  }

  /** A sequence is its prefix followed by the rest. */
  lemma TakeDrop<T>(s: seq<T>, n: nat)
    requires n <= |s|
    ensures s[..n] + s[n..] == s
  {
  }

  /** A file whose rows all parse appends its batch to the table. */
  lemma LoadGrows<R>(files: seq<File>, i: nat, table: seq<R>, parse: Row -> Result<R, ParseError>)
    requires i < |files|
    requires Load(files[..i], parse) == Completed(table)
    requires ParseBatch(DataRows(files[i]), parse).Success?
    ensures Load(files[..i + 1], parse) == Completed(table + ParseBatch(DataRows(files[i]), parse).value)
  {
    var upto := files[..i + 1];
    assert upto[..|upto| - 1] == files[..i] && upto[|upto| - 1] == files[i];
  }

  /** A file with a row the parser rejects ends the job there, whatever
      files follow. */
  lemma {:induction false} LoadStops<R>(files: seq<File>, i: nat, table: seq<R>, parse: Row -> Result<R, ParseError>)
    requires i < |files|
    requires Load(files[..i], parse) == Completed(table)
    requires ParseBatch(DataRows(files[i]), parse).Failure?
    ensures Load(files, parse) == Aborted(table, i, ParseBatch(DataRows(files[i]), parse).error)
  {
    var upto := files[..i + 1];
    var rest := files[i + 1..];
    TakeDrop(files, i + 1);
    assert upto[..|upto| - 1] == files[..i] && upto[|upto| - 1] == files[i];
    assert Load(upto, parse) == Aborted(table, i, ParseBatch(DataRows(files[i]), parse).error);
    AbortedIgnoresLaterFiles(upto, rest, parse);
  }

  /** Parsing one more row that the parser accepts extends the batch. */
  lemma {:induction false} BatchPrefixGrows<R>(rows: seq<Row>, j: nat, bank: seq<R>, parse: Row -> Result<R, ParseError>)
    requires j < |rows|
    requires ParseBatch(rows[..j], parse) == Success(bank)
    requires parse(rows[j]).Success?
    ensures ParseBatch(rows[..j + 1], parse) == Success(bank + [parse(rows[j]).value])
    decreases j
  {
    if j > 0 {
      var v := parse(rows[0]).value;
      assert rows[..j][1..] == rows[1..][..j - 1];
      assert rows[..j + 1][1..] == rows[1..][..j];
      var rest := ParseBatch(rows[..j][1..], parse);
      assert rest.Success? && bank == [v] + rest.value;
      BatchPrefixGrows(rows[1..], j - 1, rest.value, parse);
      assert [v] + (rest.value + [parse(rows[j]).value]) == bank + [parse(rows[j]).value];
    } else {
      assert rows[..0] == [] && rows[..1] == [rows[0]];
      assert [rows[0]][1..] == [];
      assert ParseBatch([rows[0]], parse) == Success([parse(rows[0]).value] + []);
      assert ParseBatch(rows[..0], parse) == Success([]);
      assert bank == [];
      assert bank + [parse(rows[j]).value] == [parse(rows[0]).value] + [];
    }
  }

  /** A row the parser rejects, after a prefix it accepts, is the batch's
      failure. */
  lemma {:induction false} BatchPrefixFails<R>(rows: seq<Row>, j: nat, bank: seq<R>, parse: Row -> Result<R, ParseError>)
    requires j < |rows|
    requires ParseBatch(rows[..j], parse) == Success(bank)
    requires parse(rows[j]).Failure?
    ensures ParseBatch(rows, parse) == Failure(RowFailure(j, parse(rows[j]).error))
    decreases j
  {
    if j > 0 {
      assert rows[..j][1..] == rows[1..][..j - 1];
      var rest := ParseBatch(rows[..j][1..], parse);
      assert rest.Success?;
      BatchPrefixFails(rows[1..], j - 1, rest.value, parse);
    }
  }
}
