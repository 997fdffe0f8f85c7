# Midnight timestamp repair for data-logger CSV exports

The repository holds two near-duplicate scripts for the semicolon-delimited
files that TOMST data loggers export. When a reading falls exactly on
midnight, the export drops the time of day from the timestamp in the second
column. `pre-process-midnight.py` writes every `.csv` file of an input
directory to an output directory under the same file name. `pre-process.py`
does the same, but stops at the first `.csv` file that has no rows: no later
file is written. On the way each script appends `" 00:00:00"` to the
second field of a row when the row has at least two fields and that field
fails the time test. The test passes when the field has a space
followed by `DD:DD:DD` (ASCII digits), with no newline before that space.
A field such as `"2023-12-21T08:30:00"` fails the test (no space before the
time), and so does `"x\n 08:30:00"` (the newline comes first). Both get the
suffix.

- `pre-process-midnight.py` treats every row alike, the first one included.
- `pre-process.py` takes the first row of each file with `next(reader)` as a
  header and writes it back unchanged, whatever its second field holds. On a
  file with no rows at all, that `next` raises `StopIteration` before the
  output file is opened, and the exception ends the whole directory run.

The model has four modules:

- `Csv` (`csv.dfy`): a row is a `seq<string>` of already-parsed fields.
  `RowReader` yields a file's rows one at a time. Its `Next` returns `None`
  where Python's iterator protocol raises `StopIteration`. `RowWriter`
  collects the rows written to a fresh output file. A directory entry is its
  name together with the rows of its file.
- `TimeFormat` (`time_format.dfy`): `is_valid_time_format`, the anchored
  match of `.* \d{2}:\d{2}:\d{2}`. It holds exactly when some index `i` has a
  space followed by `DD:DD:DD`, and `s[..i]` contains no newline, because `.`
  does not match a newline. Anything may follow the match.
- `PreProcessMidnight` (`pre_process_midnight.dfy`): the row rule, as a
  function (`NormalizeRow`) and as the in-place update of the row's list
  (`RepairRow`). It also holds the `for row in reader` loop (`RewriteRows`),
  the file transform without a header, the `.csv` name filter and the
  directory loop.
- `PreProcess` (`pre_process.dfy`): the header variant. It reuses the row
  rule and the row loop, whose source lines are identical in both scripts.
  Its directory run stops at the first empty `.csv` file.

Each loop is a method proved against a specification function. The
properties the scripts promise are lemmas about those functions: row count
and order kept, only field 1 changed, header kept, exactly the `.csv` names
processed, and idempotence.

Idempotence needs a precondition. A value such as `"2023-12-21"` fails the
test, gets the suffix, and then passes it, so a second pass changes nothing.
But `.*` cannot cross a newline. If field 1 contains a `'\n'` (possible for a
quoted CSV field) and fails the test, it still fails after the suffix is
appended, and every further pass appends the suffix again. The model proves
idempotence for fields without a newline and proves this failure for a
concrete row. So the rule is not idempotent when field 1 holds a newline.

## Model

| member | source | states |
|---|---|---|
| `TimeFormat.IsValidTimeFormat` | pre-process-midnight.py:18-19 | true exactly when the pattern matches at the start: some index i has a space followed by DD:DD:DD, with no newline in the prefix before i |
| `TimeFormat.MatchFrom` | pre-process-midnight.py:19 | trying each end position of `.*` from i onward, and stopping at the first newline, finds a match exactly when one exists at some j >= i |
| `TimeFormat.MidnightRepairs` | pre-process-midnight.py:19 | a newline-free value with " 00:00:00" appended passes the time test |
| `TimeFormat.ValidExtends` | pre-process.py:10 | the match is anchored at the start only: a value that passes still passes with any text appended |
| `TimeFormat.NewlineDefeatsRepair` | pre-process-midnight.py:19 | a value that contains a newline and fails the test still fails after " 00:00:00" is appended |
| `TimeFormat.RejectsBareDate` | pre-process-midnight.py:19 | "2023-12-21" fails the test |
| `TimeFormat.RejectsSingleDigitTime` | pre-process-midnight.py:19 | "2023-12-21 0:0:0" fails the test, because each time part needs two digits |
| `TimeFormat.AcceptsFullTimestamp` | pre-process.py:10 | "2023-12-21 00:00:00" passes the test |
| `TimeFormat.AcceptsTimeBeforeOtherText` | pre-process.py:10 | a time followed by more text passes the test; the time need not be a suffix |
| `TimeFormat.RejectsTimeAfterNewline` | pre-process-midnight.py:19 | a time that comes only after a newline is not seen |
| `PreProcessMidnight.NormalizeRow` | pre-process-midnight.py:30-31 | the row length and every field other than field 1 stay the same; a row with fewer than 2 fields, or whose field 1 passes the test, is unchanged; otherwise field 1 becomes old + " 00:00:00" |
| `PreProcessMidnight.RepairRow` | pre-process-midnight.py:31 | the in-place update of the row's list leaves that list equal to the row rule applied to its old contents |
| `PreProcessMidnight.RepairedCopy` | pre-process-midnight.py:30-31 | the row each loop iteration writes is the row rule applied to the row the reader produced |
| `PreProcessMidnight.NormalizeRowRepairs` | pre-process-midnight.py:30-31 | after the rule, a newline-free field 1 of a row with 2 or more fields passes the time test |
| `PreProcessMidnight.NormalizeRowIdempotent` | pre-process-midnight.py:30-31 | applying the row rule twice equals applying it once when field 1 holds no newline |
| `PreProcessMidnight.NormalizeRowTwiceWithNewline` | pre-process-midnight.py:30-31 | when field 1 holds a newline and fails the test, a second pass appends the suffix a second time |
| `PreProcessMidnight.NewlineRowNotIdempotent` | pre-process-midnight.py:30-31 | for the row ["id1", "2023-12-21\n"], applying the rule twice differs from applying it once |
| `PreProcessMidnight.NormalizeRows` | pre-process-midnight.py:29-32 | one output row for every input row, in the same order, each the row rule applied to the input row at the same index |
| `PreProcessMidnight.NormalizeRowsSnoc` | pre-process-midnight.py:29-32 | handling one more row appends exactly that row's normalised form to the output |
| `PreProcessMidnight.NormalizeRowsIdempotent` | pre-process-midnight.py:29-32 | normalising a file's rows twice equals normalising them once when no field 1 holds a newline |
| `PreProcessMidnight.RewriteRows` | pre-process-midnight.py:29-32 | the loop takes every row the reader has left; the writer gains exactly those rows normalised, in order |
| `PreProcessMidnight.AddTimeToSecondColumn` | pre-process-midnight.py:22-34 | without a header, the output file holds the normalised form of every input row, the first one included |
| `PreProcessMidnight.IsCsvName` | pre-process-midnight.py:44 | `filename.endswith('.csv')`: the name has at least 4 characters and is some stem followed by ".csv" |
| `PreProcessMidnight.CsvNames` | pre-process-midnight.py:43-44 | a name is picked exactly when it is in the listing and ends with ".csv"; no more names are picked than were listed |
| `PreProcessMidnight.ProcessedFiles` | pre-process-midnight.py:43-48 | the directory-level specification: no more files are written than were listed, and each file written has a ".csv" name |
| `PreProcessMidnight.ProcessedFilesNames` | pre-process-midnight.py:43-48 | the output files' names are exactly the ".csv" names of the listing, in listing order |
| `PreProcessMidnight.ProcessedFilesContents` | pre-process-midnight.py:43-48 | every output file is a ".csv" input entry under the same name, holding that entry's rows normalised |
| `PreProcessMidnight.ProcessedFilesIdempotent` | pre-process-midnight.py:37-48 | running over the run's own output writes the same files again, given no newline in field 1 of any row of a ".csv" entry |
| `PreProcessMidnight.ProcessCsvFiles` | pre-process-midnight.py:37-48 | the directory loop writes exactly the files of the directory-level specification, in order |
| `PreProcess.NormalizeWithHeader` | pre-process.py:15-24 | an empty input, and only that, is an error; otherwise the output has as many rows as the input, row 0 unchanged and every later row normalised |
| `PreProcess.HeaderKeptVerbatim` | pre-process.py:15-19 | a header whose field 1 is a bare date is written unchanged, where the no-header variant appends " 00:00:00" |
| `PreProcess.HeaderModeIdempotent` | pre-process.py:19-24 | the header-mode transform applied to its own output changes nothing, given no newline in any data row's field 1 |
| `PreProcess.AddTimeToSecondColumn` | pre-process.py:12-26 | the reader/writer procedure returns StopIteration for an empty file and otherwise the header followed by the normalised remaining rows |
| `PreProcess.HeaderRun` | pre-process.py:34-39 | the directory-level specification in header mode: no more files are written than were listed, each file written has a ".csv" name and at least its header row, and a stop names a ".csv" entry |
| `PreProcess.HeaderRunCompletes` | pre-process.py:34-39 | if no ".csv" file is empty, the run does not stop, and it writes exactly the ".csv" names in listing order |
| `PreProcess.HeaderRunStops` | pre-process.py:34-39 | a run that stops names the first empty ".csv" entry of the listing, and the files written are exactly the ".csv" entries before that entry, in order |
| `PreProcess.EmptyCsvStops` | pre-process.py:34-39 | an empty ".csv" entry anywhere in the listing stops the run; empty files are not skipped |
| `PreProcess.HeaderRunContents` | pre-process.py:34-39 | every file the run writes is a non-empty ".csv" input entry under the same name, holding that entry's header-mode transform |
| `PreProcess.ProcessCsvFiles` | pre-process.py:28-39 | the directory loop, ended by the first StopIteration, matches the directory-level specification |
| `Csv.RowReader.Next` | pre-process.py:15 | yields the next row and advances, or yields None (StopIteration) and does not advance once the rows are used up |
| `Csv.RowWriter.WriteRow` | pre-process.py:19 | appends the row to the rows written so far |

## Left out

- File I/O is not modelled: opening, reading and writing files, `os.makedirs`, `os.path.exists`, `os.path.isdir` and `os.listdir`. A directory is a given sequence of entries (a name and its parsed rows). The output directory is the sequence of files written.
- `os.path.join` is not modelled. An output file is identified by the input file's own name, which is what the join produces inside the output directory.
- CSV parsing and writing with `delimiter=';'`, including quoting, are not modelled. Rows arrive already parsed as sequences of strings.
- Errors from the file system are not modelled: an unreadable file, an entry that is a directory, a failed write. So a run of the no-header script never stops early.
- The input and output directories are assumed to be different. If `pre-process-midnight.py` is given the same directory for both, it opens the output file for writing before its reader reads the input, which empties the input, so every file comes out empty. The model does not capture this. (`pre-process.py` reads the header before it opens the output file, and its two directory names are fixed and different.)
- The progress message printed after each file is not modelled.
- The command-line checks are not modelled. These are the argument count, the input-directory test and the exit codes, plus `pre-process.py`'s hardcoded directory names and its top-level call.
- `TimeFormat.IsValidTimeFormat`: `\d` is read as an ASCII digit `0`-`9`. Python 3's `\d` on `str` also matches other Unicode decimal digits.
