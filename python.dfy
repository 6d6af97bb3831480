/** The pieces of Python's built-in semantics that the pipeline's scripts rely on:
    exceptions as values, slicing with Python's index rules, reversal (`xs[::-1]`,
    `np.flip`) and `list.index`. */
module Python {

  datatype Option<+T> = None | Some(value: T)

  /** The exceptions the modelled scripts can raise; `SystemExit` is what `sys.exit()` raises. */
  datatype Error =
    | StopIteration      // `next` on a generator that yields nothing
    | IndexError         // an index past an axis, or too many indices for an array
    | ValueError         // `np.array` of rows of different lengths
    | TypeError          // `None + 1`
    | ZeroDivisionError
    | UnboundLocalError  // a local read before any assignment
    | SystemExit

  datatype Result<+T> = Ok(value: T) | Err(error: Error)

  /** A slice object with step 1, `slice(start, stop)`; `None` stands for an omitted bound. */
  datatype Slice = Slice(start: Option<int>, stop: Option<int>)

  /** `slice(None)`, written `:` in an index expression. */
  const Full: Slice := Slice(None, None)

  /** How Python normalises one slice bound against a length n: a negative bound counts
      from the end, and the result is clamped into [0, n]. */
  function ClampIndex(i: int, n: nat): (r: nat)
    ensures r <= n
  {
    if i < 0 then (if i + n < 0 then 0 else i + n)
    else if i > n then n
    else i
  }

  /** The half-open index range [lo, hi) that `s` selects from a sequence of length n;
      a stop at or before the start selects nothing. */
  function Bounds(s: Slice, n: nat): (r: (nat, nat))
    ensures r.0 <= r.1 <= n
  {
    var lo := if s.start.Some? then ClampIndex(s.start.value, n) else 0;
    var hi := if s.stop.Some? then ClampIndex(s.stop.value, n) else n;
    (lo, if hi < lo then lo else hi)
  }

  /** The first index that `s` selects on an axis of length n. */
  function Start(s: Slice, n: nat): nat { Bounds(s, n).0 }

  /** How many entries `s` selects on an axis of length n. */
  function Extent(s: Slice, n: nat): nat { Bounds(s, n).1 - Bounds(s, n).0 }

  /** `xs[s]` for a list. */
  function Take<T>(xs: seq<T>, s: Slice): (r: seq<T>)
    ensures |r| == Extent(s, |xs|)
    ensures forall i :: 0 <= i < |r| ==> r[i] == xs[Start(s, |xs|) + i]
  {
    xs[Bounds(s, |xs|).0 .. Bounds(s, |xs|).1]
  }

  /** `xs[a:b]` with bounds already inside the list is the plain slice, and it is empty when
      the stop does not come after the start. */
  lemma TakeWithin<T>(xs: seq<T>, a: int, b: int)
    ensures 0 <= a <= b <= |xs| ==> Take(xs, Slice(Some(a), Some(b))) == xs[a..b]
    ensures 0 <= a && 0 <= b <= a ==> Take(xs, Slice(Some(a), Some(b))) == []
  {
  }

  /** The symmetric trim `[c:-c]` on an axis of length n. For c >= 0 it keeps the middle
      n - 2c entries when 0 < 2c <= n, and nothing otherwise: with c == 0 the stop `-0` is 0,
      so `[0:-0]` is empty rather than the whole axis. */
  function TrimExtent(n: nat, c: int): (m: nat)
    ensures c >= 0 ==> m == if c > 0 && 2 * c <= n then n - 2 * c else 0
    ensures c >= 0 && m > 0 ==> Start(Slice(Some(c), Some(-c)), n) == c
  {
    Extent(Slice(Some(c), Some(-c)), n)
  }

  /** `xs[::-1]`, and `np.flip` along the first axis. */
  function Reverse<T>(xs: seq<T>): (r: seq<T>)
    ensures |r| == |xs|
    ensures forall i :: 0 <= i < |xs| ==> r[i] == xs[|xs| - 1 - i]
  {
    if xs == [] then [] else [xs[|xs| - 1]] + Reverse(xs[..|xs| - 1])
  }

  /** Reversing twice gives back the original sequence. */
  lemma ReverseReverse<T>(xs: seq<T>)
    ensures Reverse(Reverse(xs)) == xs
  {
    assert forall i :: 0 <= i < |xs| ==> Reverse(Reverse(xs))[i] == xs[i];
  }

  /** `xs.index(x)`: the position of the first element equal to x. Python raises ValueError
      when x is absent; every call in the model passes an element of xs. */
  function IndexOf<T(==)>(xs: seq<T>, x: T): (r: nat)
    requires x in xs
    ensures r < |xs| && xs[r] == x
    ensures forall j :: 0 <= j < r ==> xs[j] != x
  {
    if xs[0] == x then 0 else 1 + IndexOf(xs[1..], x)
  }
}
