/** Python's string operations used on the solver's text output: substring tests (`in`,
    `str.find`), whitespace splitting (`str.split()`), `str.join` and `str(int)`. */
module PyStrings {

  /** `w` occurs in `s` starting at position 0. */
  predicate StartsWith(s: string, w: string) {
    |w| <= |s| && s[..|w|] == w
  }

  /** Python's `w in s`; the empty string occurs in every string. */
  predicate Contains(s: string, w: string)
    decreases |s|
  {
    StartsWith(s, w) || (s != [] && Contains(s[1..], w))
  }

  /** `w` occurs in `s` at position i. */
  predicate OccursAt(s: string, w: string, i: int) {
    0 <= i && i + |w| <= |s| && s[i..i + |w|] == w
  }

  /** `in` agrees with the positional reading: w is in s exactly when it occurs at some
      position of s. */
  lemma {:induction false} ContainsOccurs(s: string, w: string)
    ensures Contains(s, w) <==> exists i :: OccursAt(s, w, i)
    decreases |s|
  {
    if StartsWith(s, w) {
      assert OccursAt(s, w, 0);
    } else if s == [] {
      assert forall i :: OccursAt(s, w, i) ==> i == 0 && w == [];
    } else {
      ContainsOccurs(s[1..], w);
      assert forall i :: 1 <= i ==> (OccursAt(s, w, i) <==> OccursAt(s[1..], w, i - 1));
      assert !OccursAt(s, w, 0);
      if Contains(s[1..], w) {
        var j :| OccursAt(s[1..], w, j);
        assert OccursAt(s, w, j + 1);
      }
    }
  }

  /** `s.find(w)`: the lowest position at which w occurs, or -1. */
  function Find(s: string, w: string): (r: int)
    ensures r == -1 <==> !Contains(s, w)
    ensures r != -1 ==> OccursAt(s, w, r) && forall i :: 0 <= i < r ==> !OccursAt(s, w, i)
    decreases |s|
  {
    if StartsWith(s, w) then 0
    else if s == [] then -1
    else
      var k := Find(s[1..], w);
      assert forall i :: 1 <= i ==> (OccursAt(s, w, i) <==> OccursAt(s[1..], w, i - 1));
      assert !OccursAt(s, w, 0);
      if k == -1 then -1 else k + 1
  }

  /** The characters Python's `str.isspace` accepts: what `str.split()` splits on. */
  predicate IsSpace(c: char) {
    var n := c as int;
    (9 <= n <= 13) || (28 <= n <= 32) || n == 0x85 || n == 0xA0 || n == 0x1680
    || (0x2000 <= n <= 0x200A) || n == 0x2028 || n == 0x2029 || n == 0x202F
    || n == 0x205F || n == 0x3000
  }

  predicate NoSpace(t: string) {
    forall i :: 0 <= i < |t| ==> !IsSpace(t[i])
  }

  /** The characters of s that are not whitespace, in order. */
  function NonSpace(s: string): string {
    if s == [] then [] else (if IsSpace(s[0]) then [] else [s[0]]) + NonSpace(s[1..])
  }

  function Concat(ts: seq<string>): string {
    if ts == [] then [] else ts[0] + Concat(ts[1..])
  }

  /** Length of the run of non-whitespace characters at the front of s. */
  function TokenEnd(s: string): (n: nat)
    ensures n <= |s|
    ensures forall i :: 0 <= i < n ==> !IsSpace(s[i])
    ensures n < |s| ==> IsSpace(s[n])
  {
    if s == [] || IsSpace(s[0]) then 0 else 1 + TokenEnd(s[1..])
  }

  lemma {:induction false} NonSpaceAppend(a: string, b: string)
    ensures NonSpace(a + b) == NonSpace(a) + NonSpace(b)
  {
    if a == [] {
      assert a + b == b;
    } else {
      assert (a + b)[0] == a[0];
      assert (a + b)[1..] == a[1..] + b;
      NonSpaceAppend(a[1..], b);
    }
  }

  lemma {:induction false} NonSpaceOfToken(t: string)
    requires NoSpace(t)
    ensures NonSpace(t) == t
  {
    if t != [] {
      NonSpaceOfToken(t[1..]);
    }
  }

  /** `s.split()`: the maximal runs of non-whitespace characters. No token is empty or holds
      whitespace, and together the tokens are exactly the non-whitespace characters of s. */
  function Split(s: string): (r: seq<string>)
    ensures forall k :: 0 <= k < |r| ==> r[k] != [] && NoSpace(r[k])
    ensures Concat(r) == NonSpace(s)
    decreases |s|
  {
    if s == [] then []
    else if IsSpace(s[0]) then Split(s[1..])
    else
      var n := TokenEnd(s);
      var rest := Split(s[n..]);
      assert s == s[..n] + s[n..];
      NonSpaceAppend(s[..n], s[n..]);
      NonSpaceOfToken(s[..n]);
      [s[..n]] + rest
  }

  predicate AllSpace(w: string) {
    forall i :: 0 <= i < |w| ==> IsSpace(w[i])
  }

  /** Tokens laid out between whitespace gaps: gap 0, token 0, gap 1, ..., token n-1,
      gap n. */
  function Interleave(gaps: seq<string>, tokens: seq<string>): string
    requires |gaps| == |tokens| + 1
  {
    if tokens == [] then gaps[0] else gaps[0] + tokens[0] + Interleave(gaps[1..], tokens[1..])
  }

  /** A layout of a string as `split()` sees it: the gaps are whitespace, the gaps between
      two tokens are not empty, and the tokens are non-empty and free of whitespace. The
      gaps at the two ends may be empty. */
  predicate Layout(gaps: seq<string>, tokens: seq<string>) {
    && |gaps| == |tokens| + 1
    && (forall g :: 0 <= g < |gaps| ==> AllSpace(gaps[g]))
    && (forall g :: 0 < g < |tokens| ==> gaps[g] != [])
    && (forall k :: 0 <= k < |tokens| ==> tokens[k] != [] && NoSpace(tokens[k]))
  }

  /** Splitting any layout gives back exactly its tokens: every token of the result runs
      from whitespace (or the start) to whitespace (or the end). */
  lemma {:induction false} SplitLayout(gaps: seq<string>, tokens: seq<string>)
    requires Layout(gaps, tokens)
    ensures Split(Interleave(gaps, tokens)) == tokens
  {
    if tokens == [] {
      SplitSpaces(gaps[0], []);
      assert gaps[0] + [] == gaps[0];
    } else {
      var t := tokens[0];
      var rest := Interleave(gaps[1..], tokens[1..]);
      assert Interleave(gaps, tokens) == gaps[0] + (t + rest);
      SplitSpaces(gaps[0], t + rest);
      var g1 := gaps[1];
      assert AllSpace(g1);
      if |tokens| > 1 {
        assert g1 != [];
        assert rest[0] == g1[0];
      } else {
        assert rest == g1;
      }
      SplitToken(t, rest);
      assert Layout(gaps[1..], tokens[1..]);
      SplitLayout(gaps[1..], tokens[1..]);
      assert tokens == [t] + tokens[1..];
    }
  }

  /** Every string has a layout whose tokens are its `split()`. */
  lemma {:induction false} SplitHasLayout(s: string)
    ensures exists gaps :: Layout(gaps, Split(s)) && Interleave(gaps, Split(s)) == s
    decreases |s|
  {
    if s == [] {
      var gaps: seq<string> := [[]];
      assert Layout(gaps, Split(s)) && Interleave(gaps, Split(s)) == s;
    } else if IsSpace(s[0]) {
      SplitHasLayout(s[1..]);
      var r := Split(s[1..]);
      var g :| Layout(g, r) && Interleave(g, r) == s[1..];
      LayoutConsSpace(s[0], g, r);
      assert s == [s[0]] + s[1..];
      var gaps := [[s[0]] + g[0]] + g[1..];
      assert Layout(gaps, Split(s)) && Interleave(gaps, Split(s)) == s;
    } else {
      var n := TokenEnd(s);
      var t, rest := s[..n], s[n..];
      SplitHasLayout(rest);
      var r := Split(rest);
      var g :| Layout(g, r) && Interleave(g, r) == rest;
      LayoutConsToken(t, g, r);
      assert s == t + rest;
      var gaps := [[]] + g;
      assert Layout(gaps, Split(s)) && Interleave(gaps, Split(s)) == s;
    }
  }

  /** A whitespace character in front of a layout joins its first gap. */
  lemma LayoutConsSpace(c: char, gaps: seq<string>, tokens: seq<string>)
    requires IsSpace(c) && Layout(gaps, tokens)
    ensures Layout([[c] + gaps[0]] + gaps[1..], tokens)
    ensures Interleave([[c] + gaps[0]] + gaps[1..], tokens) == [c] + Interleave(gaps, tokens)
  {
    var h := [[c] + gaps[0]] + gaps[1..];
    assert h[1..] == gaps[1..];
    assert forall g :: 0 < g < |h| ==> h[g] == gaps[g];
  }

  /** A token in front of a layout that starts with whitespace (or is empty) becomes its
      first token, behind an empty gap. */
  lemma LayoutConsToken(t: string, gaps: seq<string>, tokens: seq<string>)
    requires t != [] && NoSpace(t) && Layout(gaps, tokens)
    requires var s := Interleave(gaps, tokens); s == [] || IsSpace(s[0])
    ensures Layout([[]] + gaps, [t] + tokens)
    ensures Interleave([[]] + gaps, [t] + tokens) == t + Interleave(gaps, tokens)
  {
    var h := [[]] + gaps;
    assert h[1..] == gaps;
    assert ([t] + tokens)[1..] == tokens;
    if tokens != [] {
      LayoutStart(gaps, tokens);
    }
  }

  /** A layout whose first gap is empty starts with its first token. */
  lemma LayoutStart(gaps: seq<string>, tokens: seq<string>)
    requires Layout(gaps, tokens) && tokens != []
    ensures gaps[0] == [] ==> Interleave(gaps, tokens) != [] && !IsSpace(Interleave(gaps, tokens)[0])
  {
    if gaps[0] == [] {
      var t := tokens[0];
      var s := Interleave(gaps, tokens);
      assert s == gaps[0] + t + Interleave(gaps[1..], tokens[1..]);
      assert t != [] && NoSpace(t);
      assert s[0] == t[0];
    }
  }

  /** Leading whitespace does not change the split. */
  lemma {:induction false} SplitSpaces(w: string, rest: string)
    requires AllSpace(w)
    ensures Split(w + rest) == Split(rest)
  {
    if w == [] {
      assert w + rest == rest;
    } else {
      assert (w + rest)[0] == w[0];
      assert (w + rest)[1..] == w[1..] + rest;
      SplitSpaces(w[1..], rest);
    }
  }

  /** A token followed by whitespace or by nothing is split off whole. */
  lemma SplitToken(t: string, rest: string)
    requires t != [] && NoSpace(t)
    requires rest == [] || IsSpace(rest[0])
    ensures Split(t + rest) == [t] + Split(rest)
  {
    TokenEndOfJoin(t, rest);
    var s := t + rest;
    assert s[..|t|] == t;
    assert s[|t|..] == rest;
  }

  /** `sep.join(parts)`. */
  function Join(parts: seq<string>, sep: string): string {
    if parts == [] then ""
    else if |parts| == 1 then parts[0]
    else parts[0] + sep + Join(parts[1..], sep)
  }

  /** Joining lays the parts out with the separator in every inner gap and nothing at
      the two ends. */
  lemma JoinIsInterleave(parts: seq<string>, sep: string)
    requires parts != []
    ensures Join(parts, sep) == Interleave([[]] + seq(|parts| - 1, _ => sep) + [[]], parts)
  {
    InterleaveSeparated([], parts, sep);
  }

  lemma {:induction false} InterleaveSeparated(first: string, parts: seq<string>, sep: string)
    requires parts != []
    ensures Interleave([first] + seq(|parts| - 1, _ => sep) + [[]], parts) == first + Join(parts, sep)
    decreases |parts|
  {
    var gaps := [first] + seq(|parts| - 1, _ => sep) + [[]];
    if |parts| == 1 {
      assert gaps[1..] == [[]];
      assert parts[1..] == [];
    } else {
      assert gaps[1..] == [sep] + seq(|parts| - 2, _ => sep) + [[]];
      InterleaveSeparated(sep, parts[1..], sep);
    }
  }

  lemma {:induction false} JoinAppend(a: seq<string>, b: seq<string>, sep: string)
    requires a != [] && b != []
    ensures Join(a + b, sep) == Join(a, sep) + sep + Join(b, sep)
  {
    if |a| == 1 {
      assert (a + b)[1..] == b;
    } else {
      assert (a + b)[1..] == a[1..] + b;
      JoinAppend(a[1..], b, sep);
    }
  }

  lemma {:induction false} TokenEndOfJoin(t: string, rest: string)
    requires t != [] && NoSpace(t)
    requires rest == [] || IsSpace(rest[0])
    ensures TokenEnd(t + rest) == |t|
  {
    if |t| > 1 {
      assert (t + rest)[1..] == t[1..] + rest;
      TokenEndOfJoin(t[1..], rest);
    } else {
      assert (t + rest)[1..] == rest;
    }
  }

  /** Splitting undoes joining with a single space, as long as no token is empty or holds
      whitespace: the two operations are inverse on such token lists. */
  lemma {:induction false} SplitJoin(tokens: seq<string>)
    requires forall k :: 0 <= k < |tokens| ==> tokens[k] != [] && NoSpace(tokens[k])
    ensures Split(Join(tokens, " ")) == tokens
  {
    if |tokens| == 1 {
      var t := tokens[0];
      TokenEndOfJoin(t, []);
      assert t + [] == t;
      assert t[|t|..] == [];
    } else if |tokens| > 1 {
      var t := tokens[0];
      var rest := " " + Join(tokens[1..], " ");
      var s := t + rest;
      assert Join(tokens, " ") == s;
      TokenEndOfJoin(t, rest);
      assert s[..|t|] == t;
      assert s[|t|..] == rest;
      assert rest[1..] == Join(tokens[1..], " ");
      SplitJoin(tokens[1..]);
      assert Split(s) == [t] + Split(rest);
      assert tokens == [t] + tokens[1..];
    }
  }

  predicate IsDigit(c: char) {
    '0' <= c <= '9'
  }

  function DigitValue(c: char): nat
    requires IsDigit(c)
  {
    c as int - '0' as int
  }

  /** The value of a string of decimal digits, most significant first. */
  function ReadDecimal(s: string): nat
    requires forall i :: 0 <= i < |s| ==> IsDigit(s[i])
  {
    if s == [] then 0 else 10 * ReadDecimal(s[..|s| - 1]) + DigitValue(s[|s| - 1])
  }

  /** A non-empty string of decimal digits with no leading zero. */
  predicate Decimal(s: string) {
    && s != []
    && (forall i :: 0 <= i < |s| ==> IsDigit(s[i]))
    && (|s| > 1 ==> s[0] != '0')
  }

  function DigitChar(d: nat): (c: char)
    requires d < 10
    ensures IsDigit(c) && DigitValue(c) == d
  {
    ('0' as int + d) as char
  }

  /** The decimal numeral of n: canonical digits that read back to n. */
  function NatToString(n: nat): (s: string)
    ensures Decimal(s) && ReadDecimal(s) == n
  {
    if n < 10 then
      var s := [DigitChar(n)];
      assert s[..0] == [];
      s
    else
      var p := NatToString(n / 10);
      var s := p + [DigitChar(n % 10)];
      assert s[..|s| - 1] == p;
      assert s[0] == p[0];
      assert |p| == 1 ==> ReadDecimal(p) == DigitValue(p[0]) by {
        if |p| == 1 {
          assert p[..0] == [];
        }
      }
      s
  }

  /** `str(n)` (also what an f-string prints for an integer): a minus sign for a negative
      n, then the canonical decimal digits of its magnitude. */
  function IntToString(n: int): (s: string)
    ensures n >= 0 ==> Decimal(s) && ReadDecimal(s) == n
    ensures n < 0 ==> |s| > 1 && s[0] == '-' && Decimal(s[1..]) && ReadDecimal(s[1..]) == -n
  {
    if n < 0 then
      var s := "-" + NatToString(-n);
      assert s[1..] == NatToString(-n);
      s
    else NatToString(n)
  }
}
