/** Three-dimensional numpy arrays: a shape and the entries, indexed `[x][y][z]`, together
    with basic slicing `a[sx, sy, sz]`. An array keeps its shape even when an axis is
    empty, as numpy's does. */
module NdArray {
  import opened Python

  datatype Shape = Shape(nx: nat, ny: nat, nz: nat)

  datatype Volume<T> = Volume(shape: Shape, cells: seq<seq<seq<T>>>) {

    /** The nested sequences have exactly the lengths the shape gives. */
    predicate Valid() {
      && |cells| == shape.nx
      && (forall i :: 0 <= i < |cells| ==> |cells[i]| == shape.ny)
      && (forall i, j :: 0 <= i < |cells| && 0 <= j < |cells[i]| ==> |cells[i][j]| == shape.nz)
    }

    predicate InBounds(i: int, j: int, k: int) {
      0 <= i < shape.nx && 0 <= j < shape.ny && 0 <= k < shape.nz
    }
  }

  /** `v[sx, sy, sz]` with one basic slice per axis. Each axis keeps the entries that its
      slice selects under Python's index rules, independently of the other axes, and entry
      (i, j, k) of the result is the entry of v shifted by the three slice starts. */
  function SliceVolume<T>(v: Volume<T>, sx: Slice, sy: Slice, sz: Slice): (r: Volume<T>)
    requires v.Valid()
    ensures r.Valid()
    ensures r.shape == Shape(Extent(sx, v.shape.nx), Extent(sy, v.shape.ny), Extent(sz, v.shape.nz))
    ensures forall i, j, k :: r.InBounds(i, j, k) ==>
              r.cells[i][j][k]
              == v.cells[Start(sx, v.shape.nx) + i][Start(sy, v.shape.ny) + j][Start(sz, v.shape.nz) + k]
  {
    var x0, y0, z0 := Start(sx, v.shape.nx), Start(sy, v.shape.ny), Start(sz, v.shape.nz);
    var ex, ey, ez := Extent(sx, v.shape.nx), Extent(sy, v.shape.ny), Extent(sz, v.shape.nz);
    var cells := seq(ex, i requires 0 <= i < ex =>
                   seq(ey, j requires 0 <= j < ey =>
                     seq(ez, k requires 0 <= k < ez => v.cells[x0 + i][y0 + j][z0 + k])));
    Volume(Shape(ex, ey, ez), cells)
  }

  /** Two well-formed arrays of one shape with the same entries are the same array. */
  lemma Extensionality<T>(a: Volume<T>, b: Volume<T>)
    requires a.Valid() && b.Valid() && a.shape == b.shape
    requires forall i, j, k :: a.InBounds(i, j, k) ==> a.cells[i][j][k] == b.cells[i][j][k]
    ensures a == b
  {
    forall i | 0 <= i < a.shape.nx
      ensures a.cells[i] == b.cells[i]
    {
      forall j | 0 <= j < a.shape.ny
        ensures a.cells[i][j] == b.cells[i][j]
      {
        assert forall k :: 0 <= k < a.shape.nz ==> a.cells[i][j][k] == b.cells[i][j][k];
      }
    }
  }
}
