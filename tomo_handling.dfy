/** Cropping a tomography volume (code/M1_TomoHandling.py, `tomo_crop`). */
module TomoHandling {
  import opened Python
  import opened NdArray

  /** The slice tomo_crop picks for one axis: `slice(cut, -cut)` for a nonzero cut, and
      `slice(None)` (the whole axis) for a zero cut. */
  function AxisSlice(cut: int): Slice {
    if cut != 0 then Slice(Some(cut), Some(-cut)) else Full
  }

  /** `tomo_crop(data, xcut, ycut, zcut)`. It exits (SystemExit) when twice a cut exceeds
      that axis's extent; twice a cut equal to the extent passes and leaves that axis empty.
      With no positive cut the input itself comes back. Otherwise each axis with cut c >= 0
      keeps its middle n - 2c entries, and entry (i, j, k) of the result is entry
      (i + xcut, j + ycut, k + zcut) of the input. */
  function TomoCrop<T>(data: Volume<T>, xcut: int, ycut: int, zcut: int): (r: Result<Volume<T>>)
    requires data.Valid()
    ensures r.Err? <==> 2 * xcut > data.shape.nx || 2 * ycut > data.shape.ny || 2 * zcut > data.shape.nz
    ensures r.Err? ==> r.error == SystemExit
    ensures xcut <= 0 && ycut <= 0 && zcut <= 0 ==> r == Ok(data)
    ensures r.Ok? ==> r.value.Valid()
    ensures r.Ok? && xcut >= 0 && ycut >= 0 && zcut >= 0 ==>
              && r.value.shape.nx == data.shape.nx - 2 * xcut
              && r.value.shape.ny == data.shape.ny - 2 * ycut
              && r.value.shape.nz == data.shape.nz - 2 * zcut
              && forall i, j, k :: r.value.InBounds(i, j, k) ==>
                   r.value.cells[i][j][k] == data.cells[i + xcut][j + ycut][k + zcut]
  {
    var cutX, cutY, cutZ := 2 * xcut, 2 * ycut, 2 * zcut;
    if cutX > data.shape.nx || cutY > data.shape.ny || cutZ > data.shape.nz then
      Err(SystemExit)
    else if cutX > 0 || cutY > 0 || cutZ > 0 then
      CroppedEntries(data, xcut, ycut, zcut);
      Ok(SliceVolume(data, AxisSlice(xcut), AxisSlice(ycut), AxisSlice(zcut)))
    else
      Ok(data)
  }

  /** What the slicing expression of tomo_crop yields once the bounds check has passed. */
  lemma CroppedEntries<T>(data: Volume<T>, xcut: int, ycut: int, zcut: int)
    requires data.Valid()
    requires 2 * xcut <= data.shape.nx && 2 * ycut <= data.shape.ny && 2 * zcut <= data.shape.nz
    ensures var c := SliceVolume(data, AxisSlice(xcut), AxisSlice(ycut), AxisSlice(zcut));
            xcut >= 0 && ycut >= 0 && zcut >= 0 ==>
              && c.shape.nx == data.shape.nx - 2 * xcut
              && c.shape.ny == data.shape.ny - 2 * ycut
              && c.shape.nz == data.shape.nz - 2 * zcut
              && forall i, j, k :: c.InBounds(i, j, k) ==>
                   c.cells[i][j][k] == data.cells[i + xcut][j + ycut][k + zcut]
  {
    CropAxis(data.shape.nx, xcut);
    CropAxis(data.shape.ny, ycut);
    CropAxis(data.shape.nz, zcut);
  }

  /** On an axis of length n with 2 * cut <= n and cut >= 0, the slice tomo_crop picks starts at
      the cut and keeps n - 2 * cut entries; for a zero cut that is the whole axis. */
  lemma CropAxis(n: nat, cut: int)
    requires 2 * cut <= n
    ensures cut >= 0 ==> Start(AxisSlice(cut), n) == cut
    ensures cut >= 0 ==> Extent(AxisSlice(cut), n) == n - 2 * cut
  {
    if cut > 0 {
      assert TrimExtent(n, cut) == n - 2 * cut;
    }
  }
}
