/** pre-process-midnight.py: in every row of every `.csv` file of the input
    directory that has at least two fields, a second field failing the time
    test gets " 00:00:00" appended. The row rule and the row loop defined here are
    the same lines as in pre-process.py, which reuses them. */
module PreProcessMidnight {
  import opened Csv
  import opened TimeFormat

  /** The row rule: a row with at least two fields whose field 1 fails the
      time test gets the midnight suffix on field 1; every other row stays. */
  function NormalizeRow(row: Row): (r: Row)
    ensures |r| == |row|
    ensures forall j :: 0 <= j < |row| && j != 1 ==> r[j] == row[j]
    ensures |row| < 2 || IsValidTimeFormat(row[1]) ==> r == row
    ensures |row| >= 2 && !IsValidTimeFormat(row[1]) ==> r[1] == row[1] + Midnight
  {
    if |row| >= 2 && !IsValidTimeFormat(row[1]) then row[1 := row[1] + Midnight] else row
  }

  /** The rule as the script applies it: to the row's own list, in place. */
  method RepairRow(row: array<Field>)
    modifies row
    ensures row[..] == NormalizeRow(old(row[..]))
  {
    if row.Length >= 2 && !IsValidTimeFormat(row[1]) {
      row[1] := row[1] + Midnight;
    }
  }

  /** Field 1 of no row with at least two fields holds a newline. */
  predicate NoNewlineInTimestamps(rows: seq<Row>)
  {
    forall k :: 0 <= k < |rows| && |rows[k]| >= 2 ==> '\n' !in rows[k][1]
  }

  /** After the rule, a newline-free field 1 passes the time test. */
  lemma NormalizeRowRepairs(row: Row)
    requires |row| >= 2 && '\n' !in row[1]
    ensures IsValidTimeFormat(NormalizeRow(row)[1])
  {
    MidnightRepairs(row[1]);
  }

  /** A second pass of the rule changes nothing when field 1 holds no newline. */
  lemma NormalizeRowIdempotent(row: Row)
    requires |row| >= 2 ==> '\n' !in row[1]
    ensures NormalizeRow(NormalizeRow(row)) == NormalizeRow(row)
  {
    if |row| >= 2 {
      NormalizeRowRepairs(row);
    }
  }

  /** With a newline in field 1 the rule is not idempotent: every pass
      appends the suffix again. */
  lemma NormalizeRowTwiceWithNewline(row: Row)
    requires |row| >= 2 && '\n' in row[1] && !IsValidTimeFormat(row[1])
    ensures NormalizeRow(NormalizeRow(row))[1] == row[1] + Midnight + Midnight
  {
    NewlineDefeatsRepair(row[1]);
  }

  lemma NewlineRowNotIdempotent()
    ensures NormalizeRow(NormalizeRow(["id1", "2023-12-21\n"]))
         != NormalizeRow(["id1", "2023-12-21\n"])
  {
    var row := ["id1", "2023-12-21\n"];
    var s := row[1];
    assert s[10] == '\n';
    assert forall i :: 0 <= i < |s| - 8 ==> s[i] != ' ';
    NormalizeRowTwiceWithNewline(row);
    assert |NormalizeRow(NormalizeRow(row))[1]| != |NormalizeRow(row)[1]|;
  }

  /** The rule applied to each row of a file: one output row per input row,
      in order. */
  function NormalizeRows(rows: seq<Row>): (out: seq<Row>)
    ensures |out| == |rows|
    ensures forall k :: 0 <= k < |rows| ==> out[k] == NormalizeRow(rows[k])
  {
    if rows == [] then [] else [NormalizeRow(rows[0])] + NormalizeRows(rows[1..])
  }

  lemma NormalizeRowsSnoc(rows: seq<Row>, row: Row)
    ensures NormalizeRows(rows + [row]) == NormalizeRows(rows) + [NormalizeRow(row)]
  {
    var l, r := NormalizeRows(rows + [row]), NormalizeRows(rows) + [NormalizeRow(row)];
    assert forall k :: 0 <= k < |rows| ==> (rows + [row])[k] == rows[k];
    assert forall k :: 0 <= k < |l| ==> l[k] == r[k];
  }

  lemma {:induction false} NormalizeRowsIdempotent(rows: seq<Row>)
    requires NoNewlineInTimestamps(rows)
    ensures NormalizeRows(NormalizeRows(rows)) == NormalizeRows(rows)
  {
    forall k | 0 <= k < |rows|
      ensures NormalizeRow(NormalizeRow(rows[k])) == NormalizeRow(rows[k])
    {
      NormalizeRowIdempotent(rows[k]);
    }
  }

  /** One iteration's work on a row the reader produced: the row's own list
      is repaired in place and handed back for writing. */
  method RepairedCopy(row: Row) returns (out: Row)
    ensures out == NormalizeRow(row)
  {
    var fields := new Field[|row|](k requires 0 <= k < |row| => row[k]);
    assert fields[..] == row;
    RepairRow(fields);
    out := fields[..];
  }

  lemma NormalizeRowsExtend(source: seq<Row>, start: nat, done: nat)
    requires start <= done < |source|
    ensures NormalizeRows(source[start..done + 1])
         == NormalizeRows(source[start..done]) + [NormalizeRow(source[done])]
  {
    assert source[start..done + 1] == source[start..done] + [source[done]];
    NormalizeRowsSnoc(source[start..done], source[done]);
  }

  lemma WrittenExtend(before: seq<Row>, source: seq<Row>, start: nat, done: nat, written: seq<Row>)
    requires start <= done < |source|
    requires written == before + NormalizeRows(source[start..done])
    ensures written + [NormalizeRow(source[done])] == before + NormalizeRows(source[start..done + 1])
  {
    NormalizeRowsExtend(source, start, done);
  }

  /** The `for row in reader` loop: every row the reader has left is taken,
      repaired and written, in order, until the reader is exhausted. */
  method RewriteRows(reader: RowReader, writer: RowWriter)
    requires reader.Valid()
    modifies reader, writer
    ensures reader.Valid() && reader.pos == |reader.source|
    ensures writer.written == old(writer.written) + NormalizeRows(reader.source[old(reader.pos)..])
  {
    ghost var start := reader.pos;
    ghost var before := writer.written;
    while true
      invariant reader.Valid() && start <= reader.pos
      invariant writer.written == before + NormalizeRows(reader.source[start..reader.pos])
      decreases |reader.source| - reader.pos
    {
      ghost var done := reader.pos;
      var next := reader.Next();
      if next.None? {
        break;
      }
      var row := RepairedCopy(next.value);
      WrittenExtend(before, reader.source, start, done, writer.written);
      writer.WriteRow(row);
    }
  }

  /** add_time_to_second_column without a header: the rows written to the
      output file, given the rows of the input file. */
  method AddTimeToSecondColumn(input: seq<Row>) returns (output: seq<Row>)
    ensures output == NormalizeRows(input)
  {
    var reader := new RowReader(input);
    var writer := new RowWriter();
    RewriteRows(reader, writer);
    output := writer.written;
  }

  /** str.endswith('.csv'): the name is some stem followed by ".csv". */
  predicate IsCsvName(name: string): (b: bool)
    ensures b <==> |name| >= 4 && name[..|name| - 4] + ".csv" == name
  {
    |name| >= 4 && name[|name| - 4..] == ".csv"
  }

  /** The names the directory loop picks, in listing order. */
  function CsvNames(names: seq<string>): (csv: seq<string>)
    ensures |csv| <= |names|
    ensures forall n :: n in csv <==> n in names && IsCsvName(n)
  {
    if names == [] then []
    else (if IsCsvName(names[0]) then [names[0]] else []) + CsvNames(names[1..])
  }

  /** The files process_csv_files writes, in order: one per `.csv` entry,
      under the same name, holding that entry's rows normalised. */
  function ProcessedFiles(listing: seq<Entry>): (out: seq<Entry>)
    ensures |out| <= |listing|
    ensures forall f :: f in out ==> IsCsvName(f.name)
  {
    if listing == [] then []
    else
      var e := listing[0];
      (if IsCsvName(e.name) then [Entry(e.name, NormalizeRows(e.rows))] else [])
        + ProcessedFiles(listing[1..])
  }

  /** Exactly the `.csv` entries produce an output file, each under its own
      name and in listing order; no other entry produces anything. */
  lemma {:induction false} ProcessedFilesNames(listing: seq<Entry>)
    ensures Names(ProcessedFiles(listing)) == CsvNames(Names(listing))
  {
    if listing != [] {
      ProcessedFilesNames(listing[1..]);
      assert Names(listing)[1..] == Names(listing[1..]);
    }
  }

  /** Every file written holds the normalised rows of an input entry of the
      same name. */
  lemma {:induction false} ProcessedFilesContents(listing: seq<Entry>)
    ensures forall out :: out in ProcessedFiles(listing) ==>
              exists e :: e in listing && IsCsvName(e.name) && out == Entry(e.name, NormalizeRows(e.rows))
  {
    if listing != [] {
      ProcessedFilesContents(listing[1..]);
      forall out | out in ProcessedFiles(listing)
        ensures exists e :: e in listing && IsCsvName(e.name) && out == Entry(e.name, NormalizeRows(e.rows))
      {
        if out !in ProcessedFiles(listing[1..]) {
          assert listing[0] in listing;
        } else {
          var e :| e in listing[1..] && IsCsvName(e.name) && out == Entry(e.name, NormalizeRows(e.rows));
          assert e in listing;
        }
      }
    }
  }

  /** Running the script again over its own output directory writes the same
      files again, provided no `.csv` entry's field 1 holds a newline. */
  lemma {:induction false} ProcessedFilesIdempotent(listing: seq<Entry>)
    requires forall e :: e in listing && IsCsvName(e.name) ==> NoNewlineInTimestamps(e.rows)
    ensures ProcessedFiles(ProcessedFiles(listing)) == ProcessedFiles(listing)
  {
    if listing != [] {
      var e := listing[0];
      ProcessedFilesIdempotent(listing[1..]);
      if IsCsvName(e.name) {
        assert e in listing;
        NormalizeRowsIdempotent(e.rows);
        var rest := ProcessedFiles(listing[1..]);
        var once := [Entry(e.name, NormalizeRows(e.rows))] + rest;
        assert once == ProcessedFiles(listing);
        assert once[1..] == rest;
        assert ProcessedFiles(once)
            == [Entry(e.name, NormalizeRows(NormalizeRows(e.rows)))] + ProcessedFiles(rest);
      } else {
        assert ProcessedFiles(listing) == ProcessedFiles(listing[1..]);
      }
    }
  }

  /** process_csv_files: the loop over the directory listing. */
  method ProcessCsvFiles(listing: seq<Entry>) returns (written: seq<Entry>)
    ensures written == ProcessedFiles(listing)
  {
    written := [];
    var i := 0;
    while i < |listing|
      invariant i <= |listing|
      invariant written + ProcessedFiles(listing[i..]) == ProcessedFiles(listing)
    {
      var entry := listing[i];
      assert listing[i..][1..] == listing[i + 1..];
      if IsCsvName(entry.name) {
        var rows := AddTimeToSecondColumn(entry.rows);
        written := written + [Entry(entry.name, rows)];
      }
      i := i + 1;
    }
  }
}
