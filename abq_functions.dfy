/** `VfCir` from the Abaqus helper functions (code/M3_AbqFunctions.py:98-104): the fibre
    volume fraction of circular fibres of radii cr in the rectangle [x0, x1] x [y0, y1]. */
module AbqFunctions {
  import opened Python

  /** The value of pi written in the source. */
  const Pi: real := 3.14159265359

  /** The sum of the squared radii, `sum(pow(r, 2) for r in rs)`. */
  function SumSquares(rs: seq<real>): (t: real)
    ensures t >= 0.0
  {
    if rs == [] then 0.0
    else
      var last := rs[|rs| - 1];
      SumSquares(rs[..|rs| - 1]) + last * last
  }

  /** `VfCir(x0, x1, y0, y1, cx, cy, cr)`. The loop adds up the circle areas and reassigns
      the result after each circle; with no circles the result is read unassigned
      (UnboundLocalError), and with circles but a zero rectangle area the first division
      raises ZeroDivisionError. Otherwise the result is the total circle area, pi times the
      sum of the squared radii, over the rectangle area, and it is never negative when the
      area is positive. The centres cx and cy are not read. */
  method VfCir(x0: real, x1: real, y0: real, y1: real, cx: seq<real>, cy: seq<real>, cr: seq<real>)
    returns (r: Result<real>)
    ensures cr == [] ==> r == Err(UnboundLocalError)
    ensures cr != [] && (x1 - x0) * (y1 - y0) == 0.0 ==> r == Err(ZeroDivisionError)
    ensures cr != [] && (x1 - x0) * (y1 - y0) != 0.0 ==>
              r == Ok(Pi * SumSquares(cr) / ((x1 - x0) * (y1 - y0)))
    ensures (x1 - x0) * (y1 - y0) > 0.0 && r.Ok? ==> r.value >= 0.0
  {
    var aModel := (x1 - x0) * (y1 - y0);
    var aFibers := 0.0;
    var vf: Option<real> := None;
    var i := 0;
    while i < |cr|
      invariant 0 <= i <= |cr|
      invariant aFibers == Pi * SumSquares(cr[..i])
      invariant aModel == 0.0 ==> i == 0
      invariant vf == if i == 0 then None else Some(aFibers / aModel)
    {
      assert cr[..i + 1][..i] == cr[..i];
      aFibers := aFibers + Pi * (cr[i] * cr[i]);
      if aModel == 0.0 {
        return Err(ZeroDivisionError);
      }
      vf := Some(aFibers / aModel);
      i := i + 1;
    }
    assert cr[..i] == cr;
    if vf.None? {
      return Err(UnboundLocalError);
    }
    r := Ok(vf.value);
  }
}
