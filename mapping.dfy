/** Mapping fibre orientations onto the integration points of the Abaqus model and writing
    them as Fortran DATA statements (code/S3_mapping.py): reading the integration-point
    table out of the solver's text output, replacing missing (NaN) angles by 0 on copies,
    and writing one `.f` file per angle column. */
module Mapping {
  import opened Python
  import opened PyStrings
  import opened SolverText

  /** The line that opens the integration-point table, and the line that closes the run. */
  const TableHeader: string := "THE FOLLOWING TABLE IS PRINTED AT THE INTEGRATION POINTS FOR ELEMENT TYPE"
  const Completed: string := "THE ANALYSIS HAS BEEN COMPLETED"

  /** The table starts six lines below its header and ends three lines above the end of the
      last line that announces completion. */
  const StartOffset: int := 6
  const EndOffset: int := 3

  /** Lines 23-35: the rows of the integration-point table, split into the two id columns
      (element id, integration-point id) and the coordinate columns. A missing marker
      raises StopIteration, rows of different lengths make `np.array` raise ValueError and
      an empty window makes `[:, :2]` raise IndexError. Otherwise every line of the window
      gives one row, in order, whose tokens are the id tokens (the first two, or all of
      them when the rows are shorter) followed by the coordinate tokens. */
  function ReadIntegrationPoints(lines: seq<string>): (r: Result<(seq<seq<string>>, seq<seq<string>>)>)
    ensures r == Err(StopIteration) <==>
              FirstContaining(lines, TableHeader).None? || LastContaining(lines, Completed).None?
    ensures SelectWindow(lines, TableHeader, Completed, StartOffset, EndOffset).Ok? ==>
              var window := SelectWindow(lines, TableHeader, Completed, StartOffset, EndOffset).value;
              var rows := Tokenize(window);
              && (r.Err? <==> !Rectangular(rows) || window == [])
              && (r.Err? ==> r.error == if !Rectangular(rows) then ValueError else IndexError)
              && (r.Ok? ==> |r.value.0| == |window| && |r.value.1| == |window|)
              && (r.Ok? ==> forall i :: 0 <= i < |window| ==>
                    && r.value.0[i] + r.value.1[i] == Split(window[i])
                    && |r.value.0[i]| == (if 2 <= |rows[0]| then 2 else |rows[0]|))
  {
    match SelectWindow(lines, TableHeader, Completed, StartOffset, EndOffset)
    case Err(e) => Err(e)
    case Ok(window) => ColumnSplit(Tokenize(window), 2)
  }

  /** Lines 66-70: `out = a.copy(); out[np.isnan(out)] = 0`. The result is a new array of
      the same length; missing entries become 0, every other entry keeps its value, and the
      source array is left as it was. */
  method ReplaceNaN(src: array<Option<real>>) returns (out: array<Option<real>>)
    ensures fresh(out) && out.Length == src.Length
    ensures forall i :: 0 <= i < src.Length ==> out[i] == if src[i].None? then Some(0.0) else src[i]
    ensures src[..] == old(src[..])
  {
    out := new Option<real>[src.Length](i requires 0 <= i < src.Length reads src => src[i]);
    var i := 0;
    while i < out.Length
      invariant 0 <= i <= out.Length
      invariant forall j :: 0 <= j < i ==> out[j] == if src[j].None? then Some(0.0) else src[j]
      invariant forall j :: i <= j < out.Length ==> out[j] == src[j]
    {
      if out[i].None? {
        out[i] := Some(0.0);
      }
      i := i + 1;
    }
  }

  /** One row of the data frame `df` restricted to one angle column: element id,
      integration-point id, and the angle as the text `f'{angle:.6f}'` gives. */
  datatype Row = Row(ele: int, ip: int, value: string)

  /** The column `df['ele_id']`. */
  function Eles(rows: seq<Row>): (r: seq<int>)
    ensures |r| == |rows| && forall i :: 0 <= i < |rows| ==> r[i] == rows[i].ele
  {
    if rows == [] then [] else [rows[0].ele] + Eles(rows[1..])
  }

  /** The column `df['ip_id']`, or `group['ip_id']` of one group. */
  function Ips(rows: seq<Row>): (r: seq<int>)
    ensures |r| == |rows| && forall i :: 0 <= i < |rows| ==> r[i] == rows[i].ip
  {
    if rows == [] then [] else [rows[0].ip] + Ips(rows[1..])
  }

  /** The largest entry of a non-empty sequence. */
  function MaxOf(xs: seq<int>): (m: int)
    requires xs != []
    ensures m in xs && forall i :: 0 <= i < |xs| ==> xs[i] <= m
  {
    if |xs| == 1 then xs[0]
    else
      var t := MaxOf(xs[1..]);
      if xs[0] < t then t else xs[0]
  }

  /** The smallest entry of a non-empty sequence. */
  function MinOf(xs: seq<int>): (m: int)
    requires xs != []
    ensures m in xs && forall i :: 0 <= i < |xs| ==> m <= xs[i]
    ensures forall x :: x in xs ==> m <= x
  {
    if |xs| == 1 then xs[0]
    else
      var t := MinOf(xs[1..]);
      if t < xs[0] then t else xs[0]
  }

  /** How an f-string prints the `max()` of an integer data-frame column: the largest id,
      or `nan` when the column is empty. */
  function MaxText(xs: seq<int>): (t: string)
    ensures xs == [] ==> t == "nan"
    ensures xs != [] ==> exists m :: m in xs && (forall i :: 0 <= i < |xs| ==> xs[i] <= m) && t == IntToString(m)
  {
    if xs == [] then "nan" else IntToString(MaxOf(xs))
  }

  /** How an f-string prints the `min()` of an integer column: the smallest id, or `nan`
      when the column is empty. */
  function MinText(xs: seq<int>): (t: string)
    ensures xs == [] ==> t == "nan"
    ensures xs != [] ==> exists m :: m in xs && (forall i :: 0 <= i < |xs| ==> m <= xs[i]) && t == IntToString(m)
  {
    if xs == [] then "nan" else IntToString(MinOf(xs))
  }

  /** Line 80: `      real*8 COL0(max ip id,max element id)`. A Fortran fixed-form
      declaration: it starts in column 7 and, for a column name without a line break, is a
      single physical line ended by the newline. */
  function Header(column: string, rows: seq<Row>): (r: string)
    ensures |r| > 13 && r[..13] == "      real*8 "
    ensures r[|r| - 1] == '\n'
    ensures '\n' !in column ==> '\n' !in r[..|r| - 1]
  {
    var ip := MaxText(Ips(rows));
    var ele := MaxText(Eles(rows));
    NumeralOneLine(Ips(rows));
    NumeralOneLine(Eles(rows));
    HeaderText(column, ip, ele);
    "      real*8 " + column + "0(" + ip + "," + ele + ")\n"
  }

  lemma HeaderText(column: string, ip: string, ele: string)
    requires '\n' !in ip && '\n' !in ele
    ensures var r := "      real*8 " + column + "0(" + ip + "," + ele + ")\n";
      && r[..13] == "      real*8 "
      && r[..|r| - 1] == "      real*8 " + column + "0(" + ip + "," + ele + ")"
      && ('\n' !in column ==> '\n' !in r[..|r| - 1])
  {
  }

  /** The printed bounds of an id column never break a line. */
  lemma NumeralOneLine(xs: seq<int>)
    ensures '\n' !in MaxText(xs) && '\n' !in MinText(xs)
  {
    if xs != [] {
      NumeralHasNoNewline(MaxOf(xs));
      NumeralHasNoNewline(MinOf(xs));
    }
  }

  lemma NumeralHasNoNewline(n: int)
    ensures '\n' !in IntToString(n)
  {
    var s := IntToString(n);
    if n < 0 {
      assert s == [s[0]] + s[1..];
    }
  }

  /** The rows whose element id is not e. */
  function Without(rows: seq<Row>, e: int): (r: seq<Row>)
    ensures forall x :: x in Eles(r) <==> x in Eles(rows) && x != e
    ensures e in Eles(rows) ==> |r| < |rows|
    ensures |r| <= |rows|
  {
    if rows == [] then []
    else
      var t := Without(rows[1..], e);
      if rows[0].ele == e then t
      else
        assert ([rows[0]] + t)[1..] == t;
        [rows[0]] + t
  }

  /** The keys `df.groupby('ele_id')` visits: every element id that occurs, once each, in
      ascending order. */
  function ElementIds(rows: seq<Row>): (ids: seq<int>)
    ensures forall i, j :: 0 <= i < j < |ids| ==> ids[i] < ids[j]
    ensures forall e :: e in ids <==> e in Eles(rows)
    decreases |rows|
  {
    if rows == [] then []
    else
      var m := MinOf(Eles(rows));
      var rest := Without(rows, m);
      var tail := ElementIds(rest);
      assert forall k :: 0 <= k < |tail| ==> m < tail[k] by {
        forall k | 0 <= k < |tail|
          ensures m < tail[k]
        {
          var x := tail[k];
          assert x in tail;
          assert x in Eles(rest);
          assert x in Eles(rows) && x != m;
        }
      }
      ConsAscending(m, tail);
      [m] + tail
  }

  /** A value below every entry of an ascending list can go in front of it. */
  lemma ConsAscending(m: int, tail: seq<int>)
    requires forall i, j :: 0 <= i < j < |tail| ==> tail[i] < tail[j]
    requires forall k :: 0 <= k < |tail| ==> m < tail[k]
    ensures forall i, j :: 0 <= i < j < |[m] + tail| ==> ([m] + tail)[i] < ([m] + tail)[j]
  {
  }

  /** The group of one element id: its rows, in the order of the data frame. */
  function Group(rows: seq<Row>, e: int): (g: seq<Row>)
    ensures forall x :: x in g <==> x in rows && x.ele == e
    ensures e in Eles(rows) <==> g != []
  {
    if rows == [] then []
    else (if rows[0].ele == e then [rows[0]] else []) + Group(rows[1..], e)
  }

  /** Grouping distributes over concatenation, so each group keeps its rows in the order
      of the data frame: with the one-row case of the definition this makes Group the
      order-preserving filter by element id. */
  lemma {:induction false} GroupAppend(a: seq<Row>, b: seq<Row>, e: int)
    ensures Group(a + b, e) == Group(a, e) + Group(b, e)
  {
    if a == [] {
      assert a + b == b;
    } else {
      assert (a + b)[1..] == a[1..] + b;
      GroupAppend(a[1..], b, e);
    }
  }

  /** A row appended to the frame is appended to its own group and to no other. */
  lemma GroupSnoc(rows: seq<Row>, x: Row, e: int)
    ensures Group(rows + [x], e) == Group(rows, e) + (if x.ele == e then [x] else [])
  {
    GroupAppend(rows, [x], e);
    assert [x][1..] == [];
    assert Group([x], e) == (if x.ele == e then [x] else []) + Group([], e);
  }

  /** The groups of the given element ids, one after the other. */
  function Regrouped(rows: seq<Row>, ids: seq<int>): seq<Row> {
    if ids == [] then [] else Group(rows, ids[0]) + Regrouped(rows, ids[1..])
  }

  /** The groups that `groupby` visits hold every row of the frame exactly once. */
  lemma {:induction false} GroupsPartition(rows: seq<Row>)
    ensures multiset(Regrouped(rows, ElementIds(rows))) == multiset(rows)
    decreases |rows|
  {
    if rows != [] {
      var m := MinOf(Eles(rows));
      var rest := Without(rows, m);
      var tail := ElementIds(rest);
      assert ElementIds(rows) == [m] + tail;
      assert ([m] + tail)[1..] == tail;
      assert m !in tail;
      SplitByElement(rows, m);
      RegroupedWithout(rows, m, tail);
      GroupsPartition(rest);
    }
  }

  /** Every row is either in the group of e or among the rows without e. */
  lemma {:induction false} SplitByElement(rows: seq<Row>, e: int)
    ensures multiset(rows) == multiset(Group(rows, e)) + multiset(Without(rows, e))
  {
    if rows != [] {
      var x, t := rows[0], rows[1..];
      SplitByElement(t, e);
      assert rows == [x] + t;
      PartitionStep(x, t, Group(rows, e), Without(rows, e), Group(t, e), Without(t, e));
    }
  }

  /** One row more on a split in two: it goes to one side or the other. */
  lemma PartitionStep(x: Row, t: seq<Row>, g: seq<Row>, w: seq<Row>, gt: seq<Row>, wt: seq<Row>)
    requires multiset(t) == multiset(gt) + multiset(wt)
    requires (g == [x] + gt && w == wt) || (g == gt && w == [x] + wt)
    ensures multiset([x] + t) == multiset(g) + multiset(w)
  {
  }

  lemma {:induction false} GroupOfWithout(rows: seq<Row>, m: int, e: int)
    requires e != m
    ensures Group(Without(rows, m), e) == Group(rows, e)
  {
    if rows != [] {
      GroupOfWithout(rows[1..], m, e);
      if rows[0].ele != m {
        assert ([rows[0]] + Without(rows[1..], m))[1..] == Without(rows[1..], m);
      }
    }
  }

  lemma {:induction false} RegroupedWithout(rows: seq<Row>, m: int, ids: seq<int>)
    requires m !in ids
    ensures Regrouped(Without(rows, m), ids) == Regrouped(rows, ids)
  {
    if ids != [] {
      GroupOfWithout(rows, m, ids[0]);
      RegroupedWithout(rows, m, ids[1..]);
    }
  }

  /** Line 86: `      DATA (COL0(I,ele), I=min ip,max ip)/ `. The statement starts in
      column 7, and this first part of it stays on one physical line for a column name
      without a line break. */
  function DataPrefix(column: string, e: int, group: seq<Row>): (r: string)
    ensures |r| > 12 && r[..12] == "      DATA ("
    ensures '\n' !in column ==> '\n' !in r
  {
    var lo := MinText(Ips(group));
    var hi := MaxText(Ips(group));
    NumeralOneLine(Ips(group));
    NumeralHasNoNewline(e);
    DataPrefixText(column, IntToString(e), lo, hi);
    "      DATA (" + column + "0(I," + IntToString(e) + "), I=" + lo + "," + hi + ")/ "
  }

  lemma DataPrefixText(column: string, ele: string, lo: string, hi: string)
    requires '\n' !in ele && '\n' !in lo && '\n' !in hi
    ensures var r := "      DATA (" + column + "0(I," + ele + "), I=" + lo + "," + hi + ")/ ";
      && r[..12] == "      DATA ("
      && ('\n' !in column ==> '\n' !in r)
  {
  }

  /** What ends a physical line and opens a Fortran continuation line. */
  const Continuation: string := "\n     &  "

  /** Lines 89-91: after the loop over `range(3, len(angles), 3)`, the value at index i
      carries the continuation prefix exactly when i >= 3 and i is a multiple of 3. */
  function Marked(vals: seq<string>): (r: seq<string>)
    ensures |r| == |vals|
  {
    seq(|vals|, i requires 0 <= i < |vals| => if i >= 3 && i % 3 == 0 then Continuation + vals[i] else vals[i])
  }

  /** The column `group[column]` of one group. */
  function Values(group: seq<Row>): (r: seq<string>)
    ensures |r| == |group| && forall i :: 0 <= i < |group| ==> r[i] == group[i].value
  {
    if group == [] then [] else [group[0].value] + Values(group[1..])
  }

  /** Lines 84-95: the DATA statement of one element. */
  function DataLine(column: string, e: int, group: seq<Row>): string {
    DataPrefix(column, e, group) + Join(Marked(Values(group)), ", ") + "/\n"
  }

  /** The DATA statements of the given element ids, in the order given. */
  function DataLines(column: string, rows: seq<Row>, ids: seq<int>): string {
    if ids == [] then ""
    else
      var e := ids[|ids| - 1];
      DataLines(column, rows, ids[..|ids| - 1]) + DataLine(column, e, Group(rows, e))
  }

  /** The whole `.f` file of one angle column: the header, then one DATA statement per
      element id in ascending order. */
  function ColumnFile(column: string, rows: seq<Row>): string {
    Header(column, rows) + DataLines(column, rows, ElementIds(rows))
  }

  /** Lines 88-91: the list of value texts, rewritten in place so that every third value
      from index 3 on opens a continuation line. */
  method MarkContinuations(vals: seq<string>) returns (angles: seq<string>)
    ensures angles == Marked(vals)
  {
    angles := vals;
    var i := 3;
    while i < |angles|
      invariant 3 <= i && i % 3 == 0
      invariant |angles| == |vals|
      invariant forall m :: 0 <= m < |angles| ==>
                  angles[m] == if 3 <= m < i && m % 3 == 0 then Continuation + vals[m] else vals[m]
    {
      angles := angles[i := Continuation + angles[i]];
      i := i + 3;
    }
  }

  /** Lines 78-95: the text the writer produces for one column. */
  method WriteColumnFile(column: string, rows: seq<Row>) returns (text: string)
    ensures text == ColumnFile(column, rows)
  {
    var header := Header(column, rows);
    text := header;
    var ids := ElementIds(rows);
    var n := 0;
    assert ids[..0] == [];
    while n < |ids|
      invariant 0 <= n <= |ids|
      invariant text == header + DataLines(column, rows, ids[..n])
    {
      var e := ids[n];
      var group := Group(rows, e);
      var line := DataPrefix(column, e, group);
      var angles := MarkContinuations(Values(group));
      line := line + Join(angles, ", ");
      ghost var statement := DataLine(column, e, group);
      assert line + "/\n" == statement;
      ghost var before := DataLines(column, rows, ids[..n]);
      DataLinesSnoc(column, rows, ids, n);
      assert DataLines(column, rows, ids[..n + 1]) == before + statement;
      AppendAssoc(header, before, statement);
      text := text + (line + "/\n");
      n := n + 1;
    }
    assert ids[..n] == ids;
  }

  /** Regrouping a concatenation, as one instance the loop proof above can use. */
  lemma AppendAssoc(a: string, b: string, c: string)
    ensures (a + b) + c == a + (b + c)
  {
  }

  lemma DataLinesSnoc(column: string, rows: seq<Row>, ids: seq<int>, n: nat)
    requires n < |ids|
    ensures DataLines(column, rows, ids[..n + 1])
            == DataLines(column, rows, ids[..n]) + DataLine(column, ids[n], Group(rows, ids[n]))
  {
    assert ids[..n + 1][..n] == ids[..n];
  }

  /** The values of one DATA statement cut into lines of three (the last one shorter). */
  function Chunks3(vals: seq<string>): (r: seq<seq<string>>)
    ensures r != []
    ensures forall k :: 0 <= k < |r| ==> |r[k]| <= 3
    decreases |vals|
  {
    if |vals| <= 3 then [vals] else [vals[..3]] + Chunks3(vals[3..])
  }

  function Flatten<T>(xss: seq<seq<T>>): seq<T> {
    if xss == [] then [] else xss[0] + Flatten(xss[1..])
  }

  function JoinEach(chunks: seq<seq<string>>, sep: string): (r: seq<string>)
    ensures |r| == |chunks|
  {
    seq(|chunks|, k requires 0 <= k < |chunks| => Join(chunks[k], sep))
  }

  /** The chunks are the values in order. */
  lemma {:induction false} ChunksCover(vals: seq<string>)
    ensures Flatten(Chunks3(vals)) == vals
    decreases |vals|
  {
    if |vals| <= 3 {
      assert Flatten(Chunks3(vals)) == vals + Flatten([]);
    } else {
      ChunksCover(vals[3..]);
      assert ([vals[..3]] + Chunks3(vals[3..]))[1..] == Chunks3(vals[3..]);
      assert vals == vals[..3] + vals[3..];
    }
  }

  /** Joining the marked values with ", " writes them three to a physical line: the lines
      are the chunks of three joined with ", ", separated by ", " and a continuation. */
  lemma {:induction false} MarkedLayout(vals: seq<string>)
    ensures Join(Marked(vals), ", ") == Join(JoinEach(Chunks3(vals), ", "), ", " + Continuation)
    decreases |vals|
  {
    if |vals| <= 3 {
      assert Marked(vals) == vals;
    } else {
      var a, t := vals[..3], vals[3..];
      var mt := Marked(t);
      var lead := [Continuation + mt[0]] + mt[1..];
      MarkedTail(vals);
      JoinAppend(a, lead, ", ");
      JoinPrefixFirst(Continuation, mt, ", ");
      MarkedLayout(t);
      var rest := JoinEach(Chunks3(t), ", ");
      assert JoinEach(Chunks3(vals), ", ") == [Join(a, ", ")] + rest;
      assert ([Join(a, ", ")] + rest)[1..] == rest;
    }
  }

  /** Past the first three values, the marks are those of the tail, with the tail's first
      value now marked as well. */
  lemma MarkedTail(vals: seq<string>)
    requires |vals| > 3
    ensures var mt := Marked(vals[3..]);
      Marked(vals) == vals[..3] + ([Continuation + mt[0]] + mt[1..])
  {
    var a, mt := vals[..3], Marked(vals[3..]);
    var lead := [Continuation + mt[0]] + mt[1..];
    forall i | 0 <= i < |vals|
      ensures Marked(vals)[i] == (a + lead)[i]
    {
      if i >= 4 {
        assert (a + lead)[i] == mt[i - 3];
      }
    }
  }

  /** Prefixing the first part prefixes the joined text. */
  lemma JoinPrefixFirst(p: string, xs: seq<string>, sep: string)
    requires xs != []
    ensures Join([p + xs[0]] + xs[1..], sep) == p + Join(xs, sep)
  {
  }
}
