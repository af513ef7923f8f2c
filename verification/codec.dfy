/** The line codec of CSVReaderWriter: fields are joined with a single tab on
    write, and a line is split on every tab on read (String.Split(char) without
    removing empty entries). Only the first two segments form a record. */
module Codec {
  import opened Wrappers

  /** The fixed field separator (`_separator`). */
  const Separator: char := '\t'

  /** A field that can be written and read back unchanged. */
  predicate SeparatorFree(field: string) {
    Separator !in field
  }

  /** Index of the first separator of `s`. */
  function FirstSeparator(s: string): (i: nat)
    requires Separator in s
    ensures i < |s| && s[i] == Separator
    ensures SeparatorFree(s[..i])
  {
    if s[0] == Separator then 0
    else
      var j := FirstSeparator(s[1..]);
      assert s[..j + 1] == [s[0]] + s[1..][..j];
      j + 1
  }

  /** String.Split(char): the maximal separator-free segments of `s`, in order.
      Empty segments are kept, so "" gives [""] and "a\t" gives ["a", ""]. */
  function Split(s: string): (segs: seq<string>)
    ensures |segs| == multiset(s)[Separator] + 1
    ensures forall k :: 0 <= k < |segs| ==> SeparatorFree(segs[k])
    ensures segs[0] <= s
    ensures |segs[0]| == |s| || s[|segs[0]|] == Separator
    decreases |s|
  {
    if Separator !in s then
      assert multiset(s)[Separator] == 0;
      [s]
    else
      var i := FirstSeparator(s);
      var rest := Split(s[i + 1..]);
      assert s == s[..i] + [s[i]] + s[i + 1..];
      assert multiset(s[..i])[Separator] == 0;
      [s[..i]] + rest
  }

  /** String.Join with the tab separator. */
  function Join(fields: seq<string>): (line: string)
    ensures fields == [] ==> line == []
    ensures |fields| > 0 ==> fields[0] <= line
  {
    if |fields| == 0 then []
    else if |fields| == 1 then fields[0]
    else fields[0] + [Separator] + Join(fields[1..])
  }

  /** Splitting loses nothing: joining the segments gives the line back. */
  lemma {:induction false} JoinSplit(s: string)
    ensures Join(Split(s)) == s
    decreases |s|
  {
    if Separator in s {
      var i := FirstSeparator(s);
      JoinSplit(s[i + 1..]);
      assert s == s[..i] + [Separator] + s[i + 1..];
    }
  }

  /** Joining separator-free fields (at least one) and splitting the line gives the fields back. */
  lemma {:induction false} SplitJoin(fields: seq<string>)
    requires |fields| >= 1
    requires forall k :: 0 <= k < |fields| ==> SeparatorFree(fields[k])
    ensures Split(Join(fields)) == fields
  {
    if |fields| > 1 {
      var head, rest := fields[0], fields[1..];
      var tail := Join(rest);
      var line := Join(fields);
      assert line == head + [Separator] + tail;
      assert line[..|head|] == head;
      assert line[|head|] == Separator;
      SeparatorPosition(line, head);
      var i := FirstSeparator(line);
      assert i == |head|;
      assert line[i + 1..] == tail;
      SplitJoin(rest);
      assert Split(line) == [head] + Split(tail);
      assert fields == [head] + rest;
    }
  }

  /** The zero-field record is the empty line, which reads back as one empty segment. */
  lemma EmptyRecord()
    ensures Join([]) == ""
    ensures Split("") == [""]
  {
  }

  /** What `Read` reports for one line: the boolean result and the two out parameters. */
  datatype ReadResult = ReadResult(success: bool, column1: Option<string>, column2: Option<string>)

  /** `false` with both out parameters set to null. */
  const NoRecord: ReadResult := ReadResult(false, None, None)

  /** `c1` and `c2` are the first two tab-separated segments of `line`:
      `line` starts with c1, a tab, c2, and then ends or continues with a tab. */
  ghost predicate LeadingColumns(line: string, c1: string, c2: string) {
    && SeparatorFree(c1)
    && SeparatorFree(c2)
    && |c1| + 1 + |c2| <= |line|
    && line[..|c1| + 1 + |c2|] == c1 + [Separator] + c2
    && (|c1| + 1 + |c2| == |line| || line[|c1| + 1 + |c2|] == Separator)
  }

  /** The leading two columns of a line are determined by the line. */
  lemma LeadingColumnsUnique(line: string, a1: string, a2: string, b1: string, b2: string)
    requires LeadingColumns(line, a1, a2) && LeadingColumns(line, b1, b2)
    ensures a1 == b1 && a2 == b2
  {
    FirstColumn(line, a1, a2);
    FirstColumn(line, b1, b2);
    SeparatorPosition(line, a1);
    SeparatorPosition(line, b1);
    var rest := line[|a1| + 1..];
    SecondColumn(line, a1, a2);
    SecondColumn(line, b1, b2);
    SeparatorPosition(rest, a2);
    SeparatorPosition(rest, b2);
  }

  /** The first column is followed by a separator. */
  lemma FirstColumn(line: string, c1: string, c2: string)
    requires LeadingColumns(line, c1, c2)
    ensures |c1| < |line| && line[..|c1|] == c1 && line[|c1|] == Separator
  {
    var n := |c1| + 1 + |c2|;
    assert line[..|c1|] == line[..n][..|c1|];
    assert line[|c1|] == line[..n][|c1|];
  }

  /** The second column starts right after the first separator. */
  lemma SecondColumn(line: string, c1: string, c2: string)
    requires LeadingColumns(line, c1, c2)
    ensures var rest := line[|c1| + 1..];
            && |c2| <= |rest| && rest[..|c2|] == c2
            && (|c2| == |rest| || rest[|c2|] == Separator)
  {
    var n := |c1| + 1 + |c2|;
    var rest := line[|c1| + 1..];
    assert rest[..|c2|] == line[..n][|c1| + 1..];
    assert (c1 + [Separator] + c2)[|c1| + 1..] == c2;
  }

  /** A separator-free prefix followed by a separator (or the end) is unique. */
  lemma SeparatorPosition(s: string, p: string)
    requires SeparatorFree(p) && |p| <= |s| && s[..|p|] == p
    requires |p| == |s| || s[|p|] == Separator
    ensures p == if Separator in s then s[..FirstSeparator(s)] else s
  {
    if Separator in s {
      var i := FirstSeparator(s);
      if |p| < i {
        assert false;
      } else if i < |p| {
        assert false;
      }
    } else if |p| < |s| {
      assert false;
    }
  }

  /** The line-handling part of `Read`: split the line; fewer than two segments is `false`
      with null outputs, otherwise the first two segments (the rest dropped). */
  function ParseLine(line: string): (r: ReadResult)
    ensures r.success <==> Separator in line
    ensures !r.success ==> r == NoRecord
    ensures r.success ==> r.column1.Some? && r.column2.Some?
    ensures r.success ==> LeadingColumns(line, r.column1.value, r.column2.value)
  {
    var columns := Split(line);
    if |columns| < 2 then NoRecord
    else
      assert multiset(line)[Separator] > 0;
      var i := FirstSeparator(line);
      assert line == line[..i] + [Separator] + line[i + 1..];
      ReadResult(true, Some(columns[0]), Some(columns[1]))
  }

  /** A line that starts with two separator-free columns, followed by the end
      of the line or by a tab and anything at all, reads as exactly those two
      columns: segments after the second are dropped, empty ones are kept. */
  lemma ParseLeadingColumns(c1: string, c2: string, tail: string)
    requires SeparatorFree(c1) && SeparatorFree(c2)
    requires tail == [] || tail[0] == Separator
    ensures ParseLine(c1 + [Separator] + c2 + tail) == ReadResult(true, Some(c1), Some(c2))
  {
    var line := c1 + [Separator] + c2 + tail;
    assert line[..|c1| + 1 + |c2|] == c1 + [Separator] + c2;
    assert LeadingColumns(line, c1, c2);
    var r := ParseLine(line);
    LeadingColumnsUnique(line, c1, c2, r.column1.value, r.column2.value);
  }

  /** A line holding only a tab reads as two empty columns. */
  lemma LoneSeparator()
    ensures ParseLine([Separator]) == ReadResult(true, Some(""), Some(""))
  {
    ParseLeadingColumns("", "", "");
    assert "" + [Separator] + "" + "" == [Separator];
  }
}
