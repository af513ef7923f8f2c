# CSVReaderWriter, modelled in Dafny

`CSVReaderWriter` is a sequential reader/writer for a line-oriented text
format. A record is one line. On write the fields are joined with a tab. On
read the line is split on every tab and the first two segments are returned.
Despite the name there is no comma, quoting or escaping. The class holds two
handle slots, a `StreamReader` and a `StreamWriter`. `Open` fills one of them
according to a `[Flags]` enum `Mode`, and `Close` closes whichever are present.

The model is functional:

- `wrappers.dfy` (`Wrappers`): `Option` stands for a nullable reference and
  `Result` for a call that may throw.
- `codec.dfy` (`Codec`): the tab separator, `String.Split(char)` as `Split`
  (empty segments kept), `String.Join` as `Join`, and `ParseLine`, the part of
  `Read` that turns one line into the boolean result and the two out
  parameters. It also holds the round-trip lemmas between `Split` and `Join`.
- `file_mode.dfy` (`FileMode`): `Mode` as a 32-bit integer newtype, because a
  C# enum variable can hold any value of its underlying type. `Read` is 1,
  `Write` is 2, and `Or` is the bitwise combination of flags.
- `reader_writer.dfy` (`CsvReaderWriter`): the object state and its transitions.
  A file is the sequence of its lines. The state holds the disk the object
  works against, which is a map from paths to lines. It also holds the reader
  slot, which keeps the lines not yet read, and the writer slot, which keeps the
  path and the lines written so far. `Open`, `Write`, `Read`, the by-value
  `Read` overload (`ReadByValue`) and `Close` are pure functions from state to
  state.

Behaviour choices, taken from the code:

- `Close` closes the handles but does not null the fields, so the slots stay
  present and become closed. A second `Close` changes nothing.
- Opening for write truncates the file on disk at once (`CreateText`). The
  written lines reach the disk when the writer is closed.
- Opening for read a path that is not on disk fails (`File.OpenText` throws).
- Nothing prevents both slots from holding open handles at once. This happens
  after `Open(Read)` followed by `Open(Write)` with no `Close` in between, and
  the model allows it. An invalid mode throws a plain `Exception` whose message
  is "Unknown file mode for " followed by the file name. The model keeps this
  behaviour. It does not switch to a typed "invalid argument" error or to an
  "at most one handle" rule, which a redesign might prefer.
- At end of input, and for a line without a tab, both out parameters are
  `null` (`None`), not empty strings.

## Model

| member | source | states |
|---|---|---|
| Codec.Split | AddressProcessor/CSV/CSVReaderWriter.cs:64 | `line.Split('\t')` gives one more segment than the line has tabs. No segment contains a tab. The first segment is the longest tab-free prefix, followed by a tab or by the end of the line. |
| Codec.Join | AddressProcessor/CSV/CSVReaderWriter.cs:45 | Joining no fields gives the empty line. A joined line starts with its first field. |
| Codec.JoinSplit | AddressProcessor/CSV/CSVReaderWriter.cs:45-64 | Splitting a line on tabs and joining the segments with tabs gives back the same line, for every line. |
| Codec.SplitJoin | AddressProcessor/CSV/CSVReaderWriter.cs:45-64 | Joining one or more tab-free fields and splitting the result gives back exactly those fields. |
| Codec.EmptyRecord | AddressProcessor/CSV/CSVReaderWriter.cs:43-46 | Writing zero columns produces the empty line, which splits into one empty segment. |
| Codec.ParseLine | AddressProcessor/CSV/CSVReaderWriter.cs:64-76 | A line reads as a record exactly when it contains a tab. Otherwise the result is `false` with both outputs null. On success the outputs are the tab-free text before the first tab and the tab-free text after it, and that second text is followed by a tab or by the end of the line. |
| Codec.LeadingColumnsUnique | AddressProcessor/CSV/CSVReaderWriter.cs:73-76 | The two leading columns of a line are uniquely determined, so `ParseLine`'s contract fixes its outputs completely. |
| Codec.ParseLeadingColumns | AddressProcessor/CSV/CSVReaderWriter.cs:64-76 | Two tab-free columns followed by the end of the line, or by a tab and anything at all, read back as those two columns. Later segments are dropped and empty segments are kept. |
| Codec.LoneSeparator | AddressProcessor/CSV/CSVReaderWriter.cs:64-76 | A line consisting of a single tab reads as `true` with two empty columns. |
| FileMode.CombinedFlags | AddressProcessor/CSV/CSVReaderWriter.cs:18-23 | The combined flags `Read` and `Write` are the value 3, which is neither `Read` nor `Write`. |
| CsvReaderWriter.New | AddressProcessor/CSV/CSVReaderWriter.cs:13-14 | A new object has both slots null, so it has neither a readable nor a writable handle. |
| CsvReaderWriter.CloseNeverOpened | AddressProcessor.Tests/CSV/CSVReaderWriterTests.cs:30-33 | `Close` on an object that was never opened changes nothing, and closing it a second time changes nothing either. |
| CsvReaderWriter.Open | AddressProcessor/CSV/CSVReaderWriter.cs:25-41 | `Open` succeeds exactly for `Write`, or for `Read` of an existing file. `Read` sets only the reader slot, to the whole file. `Write` sets only the writer slot, to an empty writer on that path. It creates or truncates that path to an empty file, adds no other path, and leaves the lines of every other path unchanged. Any other mode value throws an exception whose message names the file. |
| CsvReaderWriter.OpenRejectsOtherModes | AddressProcessor/CSV/CSVReaderWriter.cs:37-38 | The mode values `0` and the combination of `Read` and `Write` both reach the throwing default branch. |
| CsvReaderWriter.WriteCreatesFile | AddressProcessor.Tests/CSV/CSVReaderWriterTests.cs:54-64 | After opening a path for write and writing to it, the file exists on disk. It stays empty until the writer is closed. |
| CsvReaderWriter.Write | AddressProcessor/CSV/CSVReaderWriter.cs:43-46 | `Write` appends exactly one line, the columns joined by tabs, and leaves earlier lines, the disk and the reader unchanged. Zero columns append the empty line. |
| CsvReaderWriter.Read | AddressProcessor/CSV/CSVReaderWriter.cs:53-77 | At end of input `Read` returns `false` with null outputs and leaves the state unchanged. Otherwise it consumes exactly the first remaining line and reports that line's parse. It succeeds exactly when a line remains and that line contains a tab. |
| CsvReaderWriter.ReadByValue | AddressProcessor/CSV/CSVReaderWriter.cs:48-51 | The by-value overload returns the same boolean and leaves the same state as the `out` form. Its arguments are copies, so the caller's values are not changed. |
| CsvReaderWriter.Close | AddressProcessor/CSV/CSVReaderWriter.cs:79-90 | `Close` closes every present handle and keeps the slots present. Closing an open writer commits its lines to its file, and nothing else on disk changes. With neither slot ever opened it is a no-op. |
| CsvReaderWriter.CloseIdempotent | AddressProcessor/CSV/CSVReaderWriter.cs:79-90 | Calling `Close` twice gives the same state as calling it once. |
| CsvReaderWriter.ReadMany | AddressProcessor/CSV/CSVReaderWriter.cs:53-77 | `n` successive reads give `n` results and leave the reader readable. |
| CsvReaderWriter.ReadManyInFileOrder | AddressProcessor/CSV/CSVReaderWriter.cs:53-77 | The i-th of `n` successive reads reports the parse of the file's i-th remaining line, or `false` with null outputs once the lines run out. No line is ever re-read, and the reader stays exhausted after the last line. |
| CsvReaderWriter.RecordLineParses | AddressProcessor/CSV/CSVReaderWriter.cs:43-77 | The line written for a name and an address without tabs reads back as `true` with that name and that address. |
| CsvReaderWriter.WriteThenReadBack | AddressProcessor.Tests/CSV/CSVReaderWriterTests.cs:126-151 | The sequence open for write, write a tab-free name and address, close, reopen the same path for read, then read returns `true` with the same pair. Lines are abstract here, so a field holding a line terminator is also covered, which the real file does not honour (see Left out). |
| CsvReaderWriter.WriteRecords | AddressProcessor/CSV/CSVReaderWriter.cs:43-46 | Writing a sequence of records appends one joined line per record, in order. |
| CsvReaderWriter.WriteRecordsThenReadBack | AddressProcessor/CSV/CSVReaderWriter.cs:43-77 | Any sequence of tab-free records can be written, closed, reopened and read back one read per record. The reads return the records unchanged and in the order written. As with the single pair, fields holding a line terminator are covered only in the abstraction (see Left out). |

## Left out

- File system calls (`File.OpenText`, `FileInfo.CreateText`, `StreamReader.Close`, `StreamWriter.Close`): the disk is an abstract map from paths to lines.
- I/O failures other than a missing file on `Open(Read)`, such as an invalid path name (the empty string among them), permission denied, a missing directory, or a sharing violation when a file open for write is opened for read. These are not modelled.
- Text encoding, and the splitting of the file into lines by `StreamReader.ReadLine` (`\r`, `\n`, `\r\n`). Lines arrive already split.
- CsvReaderWriter.WriteThenReadBack: it requires only tab-free fields. In the real file a field holding `\n` or `\r` splits the record over two physical lines. Reading it back then gives `false` or a truncated field, not the written pair.
- CsvReaderWriter.WriteRecordsThenReadBack: the same limit on line terminators applies.
- CsvReaderWriter.Write: a column containing a line terminator is appended as one abstract line. In the real file it becomes several physical lines and reads back as several records.
- CsvReaderWriter.Close: written lines reach the disk only on `Close`. A `StreamWriter` may flush part of its buffer earlier, and that is not modelled. The file itself exists from `Open` onwards (`WriteCreatesFile`).
- FileMode.Or: defined only for non-negative flag values. It is used only to form `Read | Write`, and C#'s `|` on negative enum values is not modelled.
- Error.Message: only the unknown-mode exception has a message here. The text of `FileNotFoundException`, which quotes the full path, is not modelled.
- CsvReaderWriter.Write: `null` columns and a `null` array (which `String.Join` treats as empty strings or rejects) are not modelled. Columns are always strings.
- Calling `Read` or `Write` without a matching open handle throws a null dereference or an "object disposed" error in the class. Here it is a precondition (`CanRead`, `CanWrite`).
- A second `Open` leaks the previous handle. The model simply replaces the slot, and a leaked writer's lines never reach the disk.
- The unreachable `break` after the `throw` in `Open` has no behaviour.
- The test fixture paths and the NUnit harness.
