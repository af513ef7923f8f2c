/** CSVReaderWriter as a state machine over abstract files.

    A file is the sequence of its lines. The state holds the disk the object
    works against together with the two handle slots of the class: the reader
    slot holds the lines not yet read, the writer slot holds the path and the
    lines written so far. `Close` closes the handles but, as in the class,
    does not clear the slots. */
module CsvReaderWriter {
  import opened Wrappers
  import opened Codec
  import FileMode

  /** Paths to file contents, each file a sequence of lines. */
  type FileSystem = map<string, seq<string>>

  /** The `StreamReader` slot: the lines still to be read. */
  datatype ReadHandle = ReadHandle(remaining: seq<string>, closed: bool)

  /** The `StreamWriter` slot: the file it writes and the lines written so far. */
  datatype WriteHandle = WriteHandle(path: string, written: seq<string>, closed: bool)

  datatype State = State(disk: FileSystem, reader: Option<ReadHandle>, writer: Option<WriteHandle>) {
    /** `Read` has a live reader to call. */
    predicate CanRead() {
      reader.Some? && !reader.value.closed
    }

    /** `Write` has a live writer to call. */
    predicate CanWrite() {
      writer.Some? && !writer.value.closed
    }
  }

  /** The exceptions `Open` can throw. */
  datatype Error =
    | UnknownFileMode(fileName: string)
    | FileNotFound(fileName: string)
  {
    /** The message of the exception thrown for an unknown mode. */
    function Message(): (message: string)
      requires UnknownFileMode?
    {
      "Unknown file mode for " + fileName
    }
  }

  /** A freshly constructed object: both slots null. */
  function New(disk: FileSystem): (s: State)
    ensures s.reader.None? && s.writer.None?
    ensures !s.CanRead() && !s.CanWrite()
    ensures s.disk == disk
  {
    State(disk, None, None)
  }

  /** `Open(fileName, mode)`: `Read` replaces the reader slot with the file's
      lines, `Write` creates or truncates the file and replaces the writer slot;
      any other mode value throws an exception naming the file. */
  function Open(s: State, fileName: string, mode: FileMode.Mode): (r: Result<State, Error>)
    ensures r.Success? <==> mode == FileMode.Write || (mode == FileMode.Read && fileName in s.disk)
    ensures mode != FileMode.Read && mode != FileMode.Write ==>
              r == Failure(UnknownFileMode(fileName)) && r.error.Message() == "Unknown file mode for " + fileName
    ensures mode == FileMode.Read && fileName !in s.disk ==> r == Failure(FileNotFound(fileName))
    ensures mode == FileMode.Read && r.Success? ==>
              && r.value.CanRead()
              && r.value.reader.value.remaining == s.disk[fileName]
              && r.value.writer == s.writer
              && r.value.disk == s.disk
    ensures mode == FileMode.Write ==>
              && r.value.CanWrite()
              && r.value.writer.value == WriteHandle(fileName, [], false)
              && r.value.reader == s.reader
              && r.value.disk == s.disk[fileName := []]
  {
    if mode == FileMode.Read then
      if fileName in s.disk then Success(s.(reader := Some(ReadHandle(s.disk[fileName], false))))
      else Failure(FileNotFound(fileName))
    else if mode == FileMode.Write then
      Success(s.(disk := s.disk[fileName := []], writer := Some(WriteHandle(fileName, [], false))))
    else
      Failure(UnknownFileMode(fileName))
  }

  /** `Write(columns)`: appends one line, the columns joined by tabs. */
  function Write(s: State, columns: seq<string>): (r: State)
    requires s.CanWrite()
    ensures r.CanWrite() && r.writer.value.path == s.writer.value.path
    ensures r.writer.value.written == s.writer.value.written + [Join(columns)]
    ensures columns == [] ==> r.writer.value.written == s.writer.value.written + [""]
    ensures r.disk == s.disk && r.reader == s.reader
  {
    var line := Join(columns);
    s.(writer := Some(s.writer.value.(written := s.writer.value.written + [line])))
  }

  /** `Read(out column1, out column2)`: consumes the next line, if any. At the
      end of input the result is `false` with null outputs and nothing changes. */
  function Read(s: State): (r: (State, ReadResult))
    requires s.CanRead()
    ensures r.0.CanRead() && r.0.disk == s.disk && r.0.writer == s.writer
    ensures s.reader.value.remaining == [] ==> r.0 == s && r.1 == NoRecord
    ensures s.reader.value.remaining != [] ==>
              && s.reader.value.remaining == [s.reader.value.remaining[0]] + r.0.reader.value.remaining
              && r.1 == ParseLine(s.reader.value.remaining[0])
    ensures r.1.success <==> s.reader.value.remaining != [] && Separator in s.reader.value.remaining[0]
  {
    var lines := s.reader.value.remaining;
    if lines == [] then (s, NoRecord)
    else (s.(reader := Some(ReadHandle(lines[1..], false))), ParseLine(lines[0]))
  }

  /** `Read(column1, column2)`: the by-value overload. Its arguments are
      copies, so the caller's values are never changed; it returns what the
      `out` form returns and leaves the object as the `out` form does. */
  function ReadByValue(s: State, column1: Option<string>, column2: Option<string>): (r: (State, bool))
    requires s.CanRead()
    ensures r.0 == Read(s).0 && r.1 == Read(s).1.success
  {
    var (s', result) := Read(s);
    (s', result.success)
  }

  /** `Close()`: closes whichever slots hold a handle; closing the writer
      commits its lines to its file. Slots are not cleared. */
  function Close(s: State): (r: State)
    ensures r.reader.Some? == s.reader.Some? && r.writer.Some? == s.writer.Some?
    ensures !r.CanRead() && !r.CanWrite()
    ensures s.reader.Some? ==> r.reader.value.remaining == s.reader.value.remaining
    ensures s.writer.Some? ==> r.writer.value.path == s.writer.value.path && r.writer.value.written == s.writer.value.written
    ensures s.CanWrite() ==> r.disk == s.disk[s.writer.value.path := s.writer.value.written]
    ensures !s.CanWrite() ==> r.disk == s.disk
    ensures s.reader.None? && s.writer.None? ==> r == s
  {
    var disk := if s.CanWrite() then s.disk[s.writer.value.path := s.writer.value.written] else s.disk;
    var writer := if s.writer.Some? then Some(s.writer.value.(closed := true)) else None;
    var reader := if s.reader.Some? then Some(s.reader.value.(closed := true)) else None;
    State(disk, reader, writer)
  }

  /** Closing twice is the same as closing once. */
  lemma CloseIdempotent(s: State)
    ensures Close(Close(s)) == Close(s)
  {
  }

  /** `Close` on an object that was never opened changes nothing, and a
      second `Close` after it changes nothing either. */
  lemma CloseNeverOpened(disk: FileSystem)
    ensures Close(New(disk)) == New(disk)
    ensures Close(Close(New(disk))) == New(disk)
  {
  }

  /** Opening a path for write creates it (empty) at once, and it stays on
      disk, still empty, while lines are written and until the writer closes. */
  lemma WriteCreatesFile(s: State, path: string, columns: seq<string>)
    ensures var forWrite := Open(s, path, FileMode.Write);
            && forWrite.Success?
            && var written := Write(forWrite.value, columns);
            && path in written.disk && written.disk[path] == []
  {
  }

  /** `n` successive calls to `Read`, collecting their results. */
  function ReadMany(s: State, n: nat): (r: (State, seq<ReadResult>))
    requires s.CanRead()
    ensures r.0.CanRead() && |r.1| == n
    decreases n
  {
    if n == 0 then (s, [])
    else
      var (s1, first) := Read(s);
      var (s2, rest) := ReadMany(s1, n - 1);
      (s2, [first] + rest)
  }

  /** Successive reads return the records of the file in order, one line per
      call, never re-reading a line; once the input is exhausted every further
      read is `false` with null outputs and the reader stays exhausted. */
  lemma {:induction false} ReadManyInFileOrder(s: State, n: nat)
    requires s.CanRead()
    ensures var lines := s.reader.value.remaining;
            var (s', results) := ReadMany(s, n);
            && s'.reader.value.remaining == lines[if n <= |lines| then n else |lines|..]
            && (forall i :: 0 <= i < n ==> results[i] == if i < |lines| then ParseLine(lines[i]) else NoRecord)
    decreases n
  {
    if n > 0 {
      var lines := s.reader.value.remaining;
      var (s1, first) := Read(s);
      ReadManyInFileOrder(s1, n - 1);
      if lines != [] {
        assert s1.reader.value.remaining == lines[1..];
      }
    }
  }

  /** A record of the file: a name and an address. */
  type Record = (string, string)

  /** The line `Write(name, address)` produces for a record. */
  function RecordLine(record: Record): (line: string) {
    Join([record.0, record.1])
  }

  /** A record whose fields hold no tab reads back as itself. */
  lemma RecordLineParses(record: Record)
    requires SeparatorFree(record.0) && SeparatorFree(record.1)
    ensures ParseLine(RecordLine(record)) == ReadResult(true, Some(record.0), Some(record.1))
  {
    ParseLeadingColumns(record.0, record.1, "");
    var fields := [record.0, record.1];
    assert fields[1..] == [record.1];
    assert Join(fields) == record.0 + [Separator] + Join([record.1]);
    assert record.0 + [Separator] + record.1 + "" == record.0 + [Separator] + record.1;
  }

  /** The round trip of the class: open for write, write a name and an
      address, close, reopen the same path for read, and read the pair back. */
  lemma WriteThenReadBack(s: State, path: string, name: string, address: string)
    requires SeparatorFree(name) && SeparatorFree(address)
    ensures var forWrite := Open(s, path, FileMode.Write);
            && forWrite.Success?
            && var closed := Close(Write(forWrite.value, [name, address]));
            && var reopened := Open(closed, path, FileMode.Read);
            && reopened.Success?
            && Read(reopened.value).1 == ReadResult(true, Some(name), Some(address))
  {
    RecordLineParses((name, address));
  }

  /** Any mode value other than `Read` and `Write`, such as `0` or
      `Read | Write`, makes `Open` throw. */
  lemma OpenRejectsOtherModes(s: State, fileName: string)
    ensures Open(s, fileName, 0) == Failure(UnknownFileMode(fileName))
    ensures Open(s, fileName, FileMode.Or(FileMode.Read, FileMode.Write)) == Failure(UnknownFileMode(fileName))
  {
    FileMode.CombinedFlags();
  }

  /** Writes each record with one call to `Write`, in order. */
  function WriteRecords(s: State, records: seq<Record>): (r: State)
    requires s.CanWrite()
    ensures r.CanWrite() && r.writer.value.path == s.writer.value.path
    ensures r.disk == s.disk && r.reader == s.reader
    ensures r.writer.value.written == s.writer.value.written + seq(|records|, i requires 0 <= i < |records| => RecordLine(records[i]))
    decreases |records|
  {
    if records == [] then s
    else
      var r := WriteRecords(Write(s, [records[0].0, records[0].1]), records[1..]);
      assert seq(|records|, i requires 0 <= i < |records| => RecordLine(records[i]))
          == [RecordLine(records[0])] + seq(|records| - 1, i requires 0 <= i < |records| - 1 => RecordLine(records[1..][i]));
      r
  }

  /** Records written to a file and read back after closing and reopening it
      come back unchanged and in order, provided no field contains a tab. */
  lemma WriteRecordsThenReadBack(s: State, path: string, records: seq<Record>)
    requires forall i :: 0 <= i < |records| ==> SeparatorFree(records[i].0) && SeparatorFree(records[i].1)
    ensures var forWrite := Open(s, path, FileMode.Write);
            && forWrite.Success?
            && var closed := Close(WriteRecords(forWrite.value, records));
            && var reopened := Open(closed, path, FileMode.Read);
            && reopened.Success?
            && ReadMany(reopened.value, |records|).1
               == seq(|records|, i requires 0 <= i < |records| => ReadResult(true, Some(records[i].0), Some(records[i].1)))
  {
    var expected := seq(|records|, i requires 0 <= i < |records| => RecordLine(records[i]));
    var forWrite := Open(s, path, FileMode.Write);
    assert forWrite.value.writer.value == WriteHandle(path, [], false);
    var written := WriteRecords(forWrite.value, records);
    assert written.writer.value.written == [] + expected;
    var closed := Close(written);
    assert closed.disk[path] == expected;
    var reopened := Open(closed, path, FileMode.Read);
    assert reopened.value.reader.value.remaining == expected;
    ReadManyInFileOrder(reopened.value, |records|);
    RecordLinesParse(records);
  }

  /** Each record line parses back to its record. */
  lemma RecordLinesParse(records: seq<Record>)
    requires forall i :: 0 <= i < |records| ==> SeparatorFree(records[i].0) && SeparatorFree(records[i].1)
    ensures forall i :: 0 <= i < |records| ==>
              ParseLine(RecordLine(records[i])) == ReadResult(true, Some(records[i].0), Some(records[i].1))
  {
    forall i | 0 <= i < |records|
      ensures ParseLine(RecordLine(records[i])) == ReadResult(true, Some(records[i].0), Some(records[i].1))
    {
      RecordLineParses(records[i]);
    }
  }
}
