/** Rows as the semicolon-delimited CSV reader hands them over, and the two
    objects the scripts drive: a reader that yields rows one at a time and a
    writer that receives them. Parsing and quoting are not modelled; a file
    is the sequence of rows it parses to. */
module Csv {

  type Field = string
  type Row = seq<Field>

  datatype Option<+T> = None | Some(value: T)

  /** One entry of the input directory: its file name and the rows of its file. */
  datatype Entry = Entry(name: string, rows: seq<Row>)

  function Names(entries: seq<Entry>): seq<string>
  {
    seq(|entries|, k requires 0 <= k < |entries| => entries[k].name)
  }

  /** A reader over an already parsed file: `source` is every row of the file,
      `pos` how many of them have been taken. */
  class RowReader {
    const source: seq<Row>
    var pos: nat

    ghost predicate Valid()
      reads this
    {
      pos <= |source|
    }

    constructor (rows: seq<Row>)
      ensures Valid() && source == rows && pos == 0
    {
      source := rows;
      pos := 0;
    }

    /** One step of iteration: the next row, or None where the iterator
        protocol raises StopIteration. */
    method Next() returns (r: Option<Row>)
      requires Valid()
      modifies this
      ensures Valid()
      ensures old(pos) < |source| ==> r == Some(source[old(pos)]) && pos == old(pos) + 1
      ensures old(pos) == |source| ==> r == None && pos == old(pos)
    {
      if pos < |source| {
        r := Some(source[pos]);
        pos := pos + 1;
      } else {
        r := None;
      }
    }
  }

  /** A writer over a fresh output file: `written` is every row written so far. */
  class RowWriter {
    var written: seq<Row>

    constructor ()
      ensures written == []
    {
      written := [];
    }

    method WriteRow(row: Row)
      modifies this
      ensures written == old(written) + [row]
    {
      written := written + [row];
    }
  }
}
