/** The line-window and column logic shared by the scripts that read Abaqus text output
    (code/S3_mapping.py:18-35, code/S5_PostProcessing.py:10-29): locate a start marker and
    the last end marker, cut the lines between them with offsets, split every line into
    whitespace-separated tokens and separate the leading id columns from the rest. */
module SolverText {
  import opened Python
  import opened PyStrings

  /** `next(i for i, line in enumerate(lines) if word in line)` without the exception: the
      index of the first line that contains word, or None when no line does. */
  function FirstContaining(lines: seq<string>, word: string): (r: Option<nat>)
    ensures r.None? <==> forall j :: 0 <= j < |lines| ==> !Contains(lines[j], word)
    ensures r.Some? ==> r.value < |lines| && Contains(lines[r.value], word)
    ensures r.Some? ==> forall j :: 0 <= j < r.value ==> !Contains(lines[j], word)
  {
    if lines == [] then None
    else if Contains(lines[0], word) then Some(0)
    else
      var t := FirstContaining(lines[1..], word);
      if t.None? then None else Some(t.value + 1)
  }

  /** The index of the last line that contains word, or None when no line does. */
  function LastContaining(lines: seq<string>, word: string): (r: Option<nat>)
    ensures r.None? <==> forall j :: 0 <= j < |lines| ==> !Contains(lines[j], word)
    ensures r.Some? ==> r.value < |lines| && Contains(lines[r.value], word)
    ensures r.Some? ==> forall j :: r.value < j < |lines| ==> !Contains(lines[j], word)
  {
    if lines == [] then None
    else if Contains(lines[|lines| - 1], word) then Some(|lines| - 1)
    else LastContaining(lines[..|lines| - 1], word)
  }

  /** `len(lines) - next(i for i, line in enumerate(lines[::-1]) if word in line)`: the
      backward search gives one past the last line that contains word, and raises
      StopIteration exactly when no line contains it. */
  function EndAfterLast(lines: seq<string>, word: string): (r: Result<int>)
    ensures r.Err? <==> LastContaining(lines, word).None?
    ensures r.Err? ==> r.error == StopIteration
    ensures r.Ok? ==> r.value == LastContaining(lines, word).value + 1
  {
    var back := FirstContaining(Reverse(lines), word);
    ReversedSearch(lines, word);
    if back.None? then Err(StopIteration) else Ok(|lines| - back.value)
  }

  /** Searching the reversed lines from the front finds the last matching line: at
      position len - 1 - last, and nothing exactly when there is no matching line. */
  lemma ReversedSearch(lines: seq<string>, word: string)
    ensures FirstContaining(Reverse(lines), word).None? <==> LastContaining(lines, word).None?
    ensures FirstContaining(Reverse(lines), word).Some? ==>
              FirstContaining(Reverse(lines), word).value == |lines| - 1 - LastContaining(lines, word).value
  {
    var rev := Reverse(lines);
    var back := FirstContaining(rev, word);
    var last := LastContaining(lines, word);
    if back.Some? {
      var b := back.value;
      var m := |lines| - 1 - b;
      assert rev[b] == lines[m];
      assert Contains(lines[m], word);
      assert last.Some?;
      var l := last.value;
      assert m <= l;
      assert rev[|lines| - 1 - l] == lines[l];
      assert Contains(rev[|lines| - 1 - l], word);
      assert b <= |lines| - 1 - l;
    } else {
      forall j | 0 <= j < |lines|
        ensures !Contains(lines[j], word)
      {
        assert rev[|lines| - 1 - j] == lines[j];
      }
    }
  }

  /** Lines 16-24 of code/S5_PostProcessing.py (and 23-31 of code/S3_mapping.py):
      `lines[start_ip:end_ip]` with start_ip the first line holding the start marker plus
      the start offset, and end_ip one past the last line holding the end marker less the
      end offset. The start search runs first; either search raises StopIteration. The
      slice follows Python's rules, so a negative end counts from the end of the lines. */
  function SelectWindow(lines: seq<string>, startLine: string, endLine: string,
                        startOffset: int, endOffset: int): (r: Result<seq<string>>)
    ensures FirstContaining(lines, startLine).None? || LastContaining(lines, endLine).None? ==>
              r == Err(StopIteration)
    ensures FirstContaining(lines, startLine).Some? && LastContaining(lines, endLine).Some? ==>
              var s := FirstContaining(lines, startLine).value + startOffset;
              var e := LastContaining(lines, endLine).value + 1 - endOffset;
              && r.Ok?
              && var w := r.value;
                 && w == Take(lines, Slice(Some(s), Some(e)))
                 && (0 <= s <= e <= |lines| ==> w == lines[s..e])
                 && (0 <= s && 0 <= e <= s ==> w == [])
  {
    var first := FirstContaining(lines, startLine);
    var end := EndAfterLast(lines, endLine);
    var r := Window(lines, first, end, startOffset, endOffset);
    assert end.Ok? ==> end.value - endOffset == LastContaining(lines, endLine).value + 1 - endOffset;
    r
  }

  /** The window once both searches are done, with the searches' outcomes as inputs:
      StopIteration from either one passes on, otherwise `lines[first + startOffset:end -
      endOffset]`. */
  function Window(lines: seq<string>, first: Option<nat>, end: Result<int>,
                  startOffset: int, endOffset: int): (r: Result<seq<string>>)
    ensures r.Err? <==> first.None? || end.Err?
    ensures end.Err? && end.error == StopIteration ==> r == Err(StopIteration)
    ensures first.None? ==> r == Err(StopIteration)
    ensures r.Ok? ==>
              var s := first.value + startOffset;
              var e := end.value - endOffset;
              && r.value == Take(lines, Slice(Some(s), Some(e)))
              && (0 <= s <= e <= |lines| ==> r.value == lines[s..e])
              && (0 <= s && 0 <= e <= s ==> r.value == [])
  {
    if first.None? then Err(StopIteration)
    else if end.Err? then Err(end.error)
    else
      var startIp := first.value + startOffset;
      var endIp := end.value - endOffset;
      TakeWithin(lines, startIp, endIp);
      Ok(Take(lines, Slice(Some(startIp), Some(endIp))))
  }

  /** `[l.split() for l in ip_lines]`. */
  function Tokenize(lines: seq<string>): (rows: seq<seq<string>>)
    ensures |rows| == |lines|
    ensures forall i :: 0 <= i < |lines| ==> rows[i] == Split(lines[i])
  {
    seq(|lines|, i requires 0 <= i < |lines| => Split(lines[i]))
  }

  /** Rows that numpy can stack into a two-dimensional array: all of one length. */
  predicate Rectangular(rows: seq<seq<string>>) {
    forall i, j :: 0 <= i < |rows| && 0 <= j < |rows| ==> |rows[i]| == |rows[j]|
  }

  /** `a = np.array(rows)` followed by `a[:, :m]` and `a[:, m:]`. Rows of different lengths
      make np.array raise ValueError; no rows at all give a one-dimensional array, which
      two indices overrun (IndexError). Otherwise every row is cut after its m-th token
      (after all of it, when it is shorter): the two parts keep the row order and put each
      row back together. */
  function ColumnSplit(rows: seq<seq<string>>, m: nat): (r: Result<(seq<seq<string>>, seq<seq<string>>)>)
    ensures r.Err? <==> !Rectangular(rows) || rows == []
    ensures r.Err? ==> r.error == (if !Rectangular(rows) then ValueError else IndexError)
    ensures r.Ok? ==> |r.value.0| == |rows| && |r.value.1| == |rows|
    ensures r.Ok? ==> forall i :: 0 <= i < |rows| ==>
              && r.value.0[i] + r.value.1[i] == rows[i]
              && |r.value.0[i]| == (if m <= |rows[0]| then m else |rows[0]|)
  {
    if !Rectangular(rows) then Err(ValueError)
    else if rows == [] then Err(IndexError)
    else
      var w := |rows[0]|;
      var cut := if m <= w then m else w;
      var ids := seq(|rows|, i requires 0 <= i < |rows| => rows[i][..cut]);
      var rest := seq(|rows|, i requires 0 <= i < |rows| => rows[i][cut..]);
      assert forall i :: 0 <= i < |rows| ==> ids[i] + rest[i] == rows[i] by {
        forall i | 0 <= i < |rows|
          ensures ids[i] + rest[i] == rows[i]
        {
          assert |rows[i]| == w;
          assert rows[i] == rows[i][..cut] + rows[i][cut..];
        }
      }
      Ok((ids, rest))
  }
}
