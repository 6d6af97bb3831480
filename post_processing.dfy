/** The index logic of the post-processing script (code/S5_PostProcessing.py): loading a
    table of integration-point values out of the solver's text output, and `FuncRange`,
    which picks the index range of the strain curve used for the modulus fit. */
module PostProcessing {
  import opened Python
  import opened PyStrings
  import opened SolverText

  /** `load_AbqData` (lines 10-29) on the lines of the file: the window between the markers,
      split into tokens, with the two id columns dropped. A missing marker raises
      StopIteration; rows of different lengths raise ValueError and an empty window
      IndexError; otherwise each line of the window gives one row, in order, holding its
      tokens from the third onward. */
  function LoadAbqData(lines: seq<string>, startLine: string, endLine: string,
                       startOffset: int, endOffset: int): (r: Result<seq<seq<string>>>)
    ensures r == Err(StopIteration) <==>
              FirstContaining(lines, startLine).None? || LastContaining(lines, endLine).None?
    ensures SelectWindow(lines, startLine, endLine, startOffset, endOffset).Ok? ==>
              var window := SelectWindow(lines, startLine, endLine, startOffset, endOffset).value;
              var rows := Tokenize(window);
              && (r.Err? <==> !Rectangular(rows) || rows == [])
              && (r.Err? ==> r.error == if !Rectangular(rows) then ValueError else IndexError)
              && (r.Ok? ==> |r.value| == |window|)
              && (r.Ok? ==> forall i :: 0 <= i < |window| ==>
                    r.value[i] == (var t := Split(window[i]); if |t| >= 2 then t[2..] else []))
  {
    match SelectWindow(lines, startLine, endLine, startOffset, endOffset)
    case Err(e) => Err(e)
    case Ok(window) => TableValues(window)
  }

  /** Lines 26-29 on the window: split every line into tokens and drop the two id columns.
      Rows of different lengths raise ValueError and an empty window IndexError; otherwise
      each line gives one row holding its tokens from the third onward. */
  function TableValues(window: seq<string>): (r: Result<seq<seq<string>>>)
    ensures var rows := Tokenize(window);
              && (r.Err? <==> !Rectangular(rows) || rows == [])
              && (r.Err? ==> r.error == if !Rectangular(rows) then ValueError else IndexError)
              && (r.Ok? ==> |r.value| == |window|)
              && (r.Ok? ==> forall i :: 0 <= i < |window| ==>
                    r.value[i] == (var t := Split(window[i]); if |t| >= 2 then t[2..] else []))
  {
    var rows := Tokenize(window);
    match ColumnSplit(rows, 2)
    case Err(e) => Err(e)
    case Ok(parts) =>
      assert forall i :: 0 <= i < |window| ==>
               parts.1[i] == (var t := Split(window[i]); if |t| >= 2 then t[2..] else []) by {
        forall i | 0 <= i < |window|
          ensures parts.1[i] == (var t := Split(window[i]); if |t| >= 2 then t[2..] else [])
        {
          var t := rows[i];
          assert |t| == |rows[0]|;
          var n := |parts.0[i]|;
          assert parts.0[i] + parts.1[i] == t;
          assert parts.1[i] == t[n..];
        }
      }
      Ok(parts.1)
  }

  /** The first index at which the curve exceeds hi. */
  function FirstAbove(x: seq<real>, hi: real): (r: Option<nat>)
    ensures r.None? <==> forall j :: 0 <= j < |x| ==> !(x[j] > hi)
    ensures r.Some? ==> r.value < |x| && x[r.value] > hi && forall j :: 0 <= j < r.value ==> !(x[j] > hi)
  {
    if x == [] then None
    else if x[0] > hi then Some(0)
    else
      var t := FirstAbove(x[1..], hi);
      if t.None? then None else Some(t.value + 1)
  }

  /** The last index below n at which the curve is under lo, or 0 when there is none. */
  function LastBelow(x: seq<real>, lo: real, n: int): (r: nat)
    requires n <= |x|
    ensures (forall j :: 0 <= j < n ==> !(x[j] < lo)) ==> r == 0
    ensures (exists j :: 0 <= j < n && x[j] < lo) ==>
              r < n && x[r] < lo && forall j :: r < j < n ==> !(x[j] < lo)
    decreases n
  {
    if n <= 0 then 0
    else if x[n - 1] < lo then n - 1
    else LastBelow(x, lo, n - 1)
  }

  /** `FuncRange(x, [lo, hi])` (lines 80-91). ib is the first index f with x[f] > hi, or
      len(x) + 1 when there is none; ia is the last index below f - 1 (below len(x) when
      nothing exceeds hi) with x[ia] < lo, or 0. Always 0 <= ia <= ib, and the range
      [ia, ib) is empty exactly when the curve starts above hi. */
  method FuncRange(x: seq<real>, lo: real, hi: real) returns (ia: int, ib: int)
    ensures ib == if FirstAbove(x, hi).Some? then FirstAbove(x, hi).value else |x| + 1
    ensures ia == LastBelow(x, lo, if FirstAbove(x, hi).Some? then FirstAbove(x, hi).value - 1 else |x|)
    ensures 0 <= ia <= ib
    ensures ia < ib <==> !(|x| > 0 && x[0] > hi)
  {
    ia := 0;
    ib := |x|;
    var i := 0;
    while i < |x|
      invariant 0 <= i <= |x|
      invariant ib == |x|
      invariant forall j :: 0 <= j < i ==> !(x[j] > hi)
    {
      if x[i] > hi {
        ib := i - 1;
        break;
      }
      i := i + 1;
    }
    var bound := if FirstAbove(x, hi).Some? then FirstAbove(x, hi).value - 1 else |x|;
    assert ib == bound;
    var j := 0;
    while j < ib
      invariant ib == bound <= |x|
      invariant 0 <= j
      invariant ib >= 0 ==> j <= ib
      invariant ib < 0 ==> j == 0
      invariant ia == LastBelow(x, lo, j)
    {
      if x[j] < lo {
        ia := j;
      }
      j := j + 1;
    }
    assert ia == LastBelow(x, lo, bound);
    ib := ib + 1;
  }
}
