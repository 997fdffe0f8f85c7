/** pre-process.py: the header-preserving variant. The first row of each
    `.csv` file is taken with next(reader) and written back verbatim; the
    remaining rows follow the row rule of pre-process-midnight.py, whose
    lines this script repeats. */
module PreProcess {
  import opened Csv
  import opened TimeFormat
  import opened PreProcessMidnight

  /** What add_time_to_second_column does with one file: writes the rows
      below, or raises StopIteration from next(reader) on a file without
      rows, before the output file is opened. */
  datatype FileOutcome = Written(rows: seq<Row>) | StopIteration

  /** The header-mode transform of one file's rows: an empty file, and only
      that, is an error; otherwise the header comes first and verbatim, every
      later row follows the row rule, and no row is added, dropped or
      reordered. */
  function NormalizeWithHeader(input: seq<Row>): (r: FileOutcome)
    ensures r.StopIteration? <==> input == []
    ensures r.Written? ==>
              && |r.rows| == |input|
              && r.rows[0] == input[0]
              && forall k :: 1 <= k < |input| ==> r.rows[k] == NormalizeRow(input[k])
  {
    if input == [] then StopIteration else Written([input[0]] + NormalizeRows(input[1..]))
  }

  /** The header is not normalised even when field 1 is a bare date, as
      the no-header variant would do. */
  lemma HeaderKeptVerbatim()
    ensures NormalizeWithHeader([["id", "2023-12-21"]]) == Written([["id", "2023-12-21"]])
    ensures NormalizeRows([["id", "2023-12-21"]]) == [["id", "2023-12-21 00:00:00"]]
  {
    var row := ["id", "2023-12-21"];
    RejectsBareDate();
    assert [row][1..] == [];
    assert row[1] + Midnight == "2023-12-21 00:00:00";
    assert row[1 := row[1] + Midnight] == ["id", "2023-12-21 00:00:00"];
  }

  /** Running the header-mode transform on its own output changes nothing,
      provided no data row's field 1 holds a newline. */
  lemma HeaderModeIdempotent(input: seq<Row>)
    requires input != [] && NoNewlineInTimestamps(input[1..])
    ensures NormalizeWithHeader(NormalizeWithHeader(input).rows) == NormalizeWithHeader(input)
  {
    var out := NormalizeWithHeader(input).rows;
    assert out[1..] == NormalizeRows(input[1..]);
    NormalizeRowsIdempotent(input[1..]);
  }

  /** add_time_to_second_column with a header: the outcome for the input
      file's rows. */
  method AddTimeToSecondColumn(input: seq<Row>) returns (outcome: FileOutcome)
    ensures outcome == NormalizeWithHeader(input)
  {
    var reader := new RowReader(input);
    var header := reader.Next();
    if header.None? {
      return StopIteration;
    }
    var writer := new RowWriter();
    writer.WriteRow(header.value);
    RewriteRows(reader, writer);
    outcome := Written(writer.written);
  }

  /** A directory run: the files written, in order, and the name of the
      file whose StopIteration ended the run, if one did. */
  datatype Run = Run(written: seq<Entry>, stoppedAt: Option<string>)

  /** process_csv_files in header mode: `.csv` entries are processed in
      listing order until an empty one raises and aborts the run. Only
      `.csv` entries with a header row are written, and a stop names a
      `.csv` entry. */
  function HeaderRun(listing: seq<Entry>): (run: Run)
    ensures |run.written| <= |listing|
    ensures forall f :: f in run.written ==> IsCsvName(f.name) && f.rows != []
    ensures run.stoppedAt.Some? ==> IsCsvName(run.stoppedAt.value)
  {
    if listing == [] then Run([], None)
    else
      var e := listing[0];
      if !IsCsvName(e.name) then HeaderRun(listing[1..])
      else match NormalizeWithHeader(e.rows)
        case StopIteration => Run([], Some(e.name))
        case Written(out) =>
          var rest := HeaderRun(listing[1..]);
          Run([Entry(e.name, out)] + rest.written, rest.stoppedAt)
  }

  /** A run over a listing whose `.csv` files all have a row completes, and
      writes exactly the `.csv` entries, under their own names, in order. */
  lemma {:induction false} HeaderRunCompletes(listing: seq<Entry>)
    requires forall e :: e in listing && IsCsvName(e.name) ==> e.rows != []
    ensures HeaderRun(listing).stoppedAt == None
    ensures Names(HeaderRun(listing).written) == CsvNames(Names(listing))
  {
    if listing != [] {
      var tail := listing[1..];
      assert listing[0] in listing;
      HeaderRunCompletes(tail);
      HeaderRunStep(listing);
      assert [listing[0]] + tail == listing;
      WritesCsvOfCons(listing[0], tail, HeaderRun(tail).written);
    }
  }

  /** The files a `.csv` entry with rows contributes in front of the rest of
      the run; none for any other entry. */
  function Front(e: Entry): seq<Entry>
  {
    if IsCsvName(e.name) && e.rows != [] then [Entry(e.name, NormalizeWithHeader(e.rows).rows)] else []
  }

  lemma HeaderRunStep(listing: seq<Entry>)
    requires listing != [] && !(IsCsvName(listing[0].name) && listing[0].rows == [])
    ensures HeaderRun(listing)
         == Run(Front(listing[0]) + HeaderRun(listing[1..]).written, HeaderRun(listing[1..]).stoppedAt)
  {
  }

  /** No `.csv` entry before index j is empty. */
  ghost predicate NoEmptyCsvBefore(listing: seq<Entry>, j: int)
    requires 0 <= j <= |listing|
  {
    forall k :: 0 <= k < j ==> !(IsCsvName(listing[k].name) && listing[k].rows == [])
  }

  /** The files written are exactly the `.csv` entries of prefix, in order. */
  ghost predicate WritesCsvOf(written: seq<Entry>, prefix: seq<Entry>)
  {
    Names(written) == CsvNames(Names(prefix))
  }

  lemma NoEmptyCsvBeforeCons(listing: seq<Entry>, j: int)
    requires listing != [] && !(IsCsvName(listing[0].name) && listing[0].rows == [])
    requires 0 <= j < |listing| - 1 && NoEmptyCsvBefore(listing[1..], j)
    ensures NoEmptyCsvBefore(listing, j + 1)
  {
    forall k | 1 <= k < j + 1
      ensures !(IsCsvName(listing[k].name) && listing[k].rows == [])
    {
      assert listing[k] == listing[1..][k - 1];
    }
  }

  lemma WritesCsvOfCons(e: Entry, prefix: seq<Entry>, written: seq<Entry>)
    requires !(IsCsvName(e.name) && e.rows == [])
    requires WritesCsvOf(written, prefix)
    ensures WritesCsvOf(Front(e) + written, [e] + prefix)
  {
    assert Names([e] + prefix) == [e.name] + Names(prefix);
    assert ([e.name] + Names(prefix))[1..] == Names(prefix);
    assert Names(Front(e) + written) == Names(Front(e)) + Names(written);
  }

  /** Entry j of the listing is the first empty `.csv` file, the run stopped
      there, and the files written are exactly the `.csv` entries before it. */
  ghost predicate StoppedBy(listing: seq<Entry>, run: Run, j: int)
  {
    && 0 <= j < |listing|
    && run.stoppedAt == Some(listing[j].name)
    && IsCsvName(listing[j].name) && listing[j].rows == []
    && NoEmptyCsvBefore(listing, j)
    && WritesCsvOf(run.written, listing[..j])
  }

  /** Prepending a non-empty head entry's output keeps the stop point. */
  lemma StoppedByPrepend(listing: seq<Entry>, rest: Run, j: int)
    requires listing != [] && !(IsCsvName(listing[0].name) && listing[0].rows == [])
    requires StoppedBy(listing[1..], rest, j)
    ensures StoppedBy(listing, Run(Front(listing[0]) + rest.written, rest.stoppedAt), j + 1)
  {
    var tail := listing[1..];
    assert listing[j + 1] == tail[j];
    NoEmptyCsvBeforeCons(listing, j);
    assert listing[..j + 1] == [listing[0]] + tail[..j];
    WritesCsvOfCons(listing[0], tail[..j], rest.written);
  }

  /** A run that stops names the first empty `.csv` entry; the files written
      before it are exactly the `.csv` entries that precede it. */
  lemma {:induction false} HeaderRunStops(listing: seq<Entry>)
    requires HeaderRun(listing).stoppedAt.Some?
    ensures exists j :: StoppedBy(listing, HeaderRun(listing), j)
  {
    var e := listing[0];
    if IsCsvName(e.name) && e.rows == [] {
      assert WritesCsvOf([], listing[..0]);
      assert StoppedBy(listing, HeaderRun(listing), 0);
    } else {
      HeaderRunStep(listing);
      HeaderRunStops(listing[1..]);
      var j :| StoppedBy(listing[1..], HeaderRun(listing[1..]), j);
      StoppedByPrepend(listing, HeaderRun(listing[1..]), j);
    }
  }

  /** Conversely, an empty `.csv` entry anywhere in the listing stops the run:
      empty files are not skipped. */
  lemma {:induction false} EmptyCsvStops(listing: seq<Entry>)
    requires exists j :: 0 <= j < |listing| && IsCsvName(listing[j].name) && listing[j].rows == []
    ensures HeaderRun(listing).stoppedAt.Some?
  {
    var j :| 0 <= j < |listing| && IsCsvName(listing[j].name) && listing[j].rows == [];
    var e := listing[0];
    if !(IsCsvName(e.name) && e.rows == []) {
      assert listing[1..][j - 1] == listing[j];
      EmptyCsvStops(listing[1..]);
      HeaderRunStep(listing);
    }
  }

  /** out is the header-mode output of a `.csv` entry of the listing that
      has rows, under that entry's name. */
  ghost predicate WrittenFrom(listing: seq<Entry>, out: Entry)
  {
    exists e :: e in listing && IsCsvName(e.name) && e.rows != []
                && out == Entry(e.name, NormalizeWithHeader(e.rows).rows)
  }

  /** Every file the header-mode run writes holds the header-mode transform
      of an input `.csv` entry of the same name. */
  lemma {:induction false} HeaderRunContents(listing: seq<Entry>)
    ensures forall out :: out in HeaderRun(listing).written ==> WrittenFrom(listing, out)
  {
    if listing != [] {
      var e := listing[0];
      var tail := listing[1..];
      HeaderRunContents(tail);
      if !(IsCsvName(e.name) && e.rows == []) {
        HeaderRunStep(listing);
        forall out | out in HeaderRun(listing).written
          ensures WrittenFrom(listing, out)
        {
          if out in HeaderRun(tail).written {
            assert WrittenFrom(tail, out);
            var e' :| e' in tail && IsCsvName(e'.name) && e'.rows != []
                      && out == Entry(e'.name, NormalizeWithHeader(e'.rows).rows);
            assert e' in listing;
          } else {
            assert out in Front(e);
            assert e in listing;
          }
        }
      }
    }
  }

  /** process_csv_files: the loop over the directory listing, ended by the
      first StopIteration. */
  method ProcessCsvFiles(listing: seq<Entry>) returns (run: Run)
    ensures run == HeaderRun(listing)
  {
    var written: seq<Entry> := [];
    var i := 0;
    while i < |listing|
      invariant i <= |listing|
      invariant HeaderRun(listing)
             == Run(written + HeaderRun(listing[i..]).written, HeaderRun(listing[i..]).stoppedAt)
    {
      var entry := listing[i];
      assert listing[i..][1..] == listing[i + 1..];
      if IsCsvName(entry.name) {
        var outcome := AddTimeToSecondColumn(entry.rows);
        if outcome.StopIteration? {
          return Run(written, Some(entry.name));
        }
        written := written + [Entry(entry.name, outcome.rows)];
      }
      i := i + 1;
    }
    run := Run(written, None);
  }
}
