/** The index and shape logic of the structure-tensor script (code/S1_STanalysis.py): the
    kernel radius, the border trim of the tensor field and of the intensity volume, the
    reordering and sign resolution of the eigenvectors, and the FE model dimensions.
    Vector and tensor fields are component-major, like the numpy arrays: `vec[c]` is the
    volume of component c. */
module StAnalysis {
  import opened Python
  import opened NdArray
  import TomoHandling

  /** `truncate = 4`: Gaussian windows are cut off at four standard deviations. */
  const Truncate: int := 4

  /** Half of the padding added to the model length, `PADDING = 2*70`. */
  const Padding: real := 140.0

  /** Python's `int(x)` on a float: truncation toward zero. */
  function TruncToInt(x: real): (r: int)
    ensures 0.0 <= x ==> r as real <= x < r as real + 1.0
    ensures x < 0.0 ==> r as real - 1.0 < x <= r as real
  {
    if x >= 0.0 then x.Floor else -((-x).Floor)
  }

  /** Python's `max(a, b)`. */
  function Max(a: real, b: real): real {
    if b > a then b else a
  }

  /** `kernel_radius = int(max(sigma, rho) * truncate + 0.5)`. For non-negative scales it is
      the floor of max(sigma, rho) * 4 + 0.5, that is 4 * max(sigma, rho) rounded half up,
      and never negative. */
  function KernelRadius(sigma: real, rho: real): (k: int)
    ensures sigma >= 0.0 && rho >= 0.0 ==> k >= 0 && k == (Max(sigma, rho) * 4.0 + 0.5).Floor
    ensures sigma >= 0.0 && rho >= 0.0 ==>
              k as real - 0.5 <= 4.0 * Max(sigma, rho) < k as real + 0.5
  {
    TruncToInt(Max(sigma, rho) * (Truncate as real) + 0.5)
  }

  /** The spatial shape left by the trim `[k:-k]` on every axis. */
  function TrimmedShape(s: Shape, k: int): (r: Shape)
    ensures k >= 0 ==> r.nx == (if k > 0 && 2 * k <= s.nx then s.nx - 2 * k else 0)
    ensures k >= 0 ==> r.ny == (if k > 0 && 2 * k <= s.ny then s.ny - 2 * k else 0)
    ensures k >= 0 ==> r.nz == (if k > 0 && 2 * k <= s.nz then s.nz - 2 * k else 0)
  {
    Shape(TrimExtent(s.nx, k), TrimExtent(s.ny, k), TrimExtent(s.nz, k))
  }

  /** `v[k:-k, k:-k, k:-k]`: each extent shrinks by 2k (to nothing when 2k reaches it, and to
      nothing when k == 0); its entries are those of TrimSpatialEntries. */
  function TrimSpatial<T>(v: Volume<T>, k: int): (r: Volume<T>)
    requires v.Valid()
    ensures r.Valid()
    ensures r.shape == TrimmedShape(v.shape, k)
  {
    var t := Slice(Some(k), Some(-k));
    var r := SliceVolume(v, t, t, t);
    assert r.shape == TrimmedShape(v.shape, k);
    r
  }

  /** Entry (i, j, l) of `v[k:-k, k:-k, k:-k]` is entry (i + k, j + k, l + k) of v. */
  lemma TrimSpatialEntries<T>(v: Volume<T>, k: int)
    requires v.Valid()
    requires k >= 0
    ensures forall i, j, l :: TrimSpatial(v, k).InBounds(i, j, l) ==>
              TrimSpatial(v, k).cells[i][j][l] == v.cells[i + k][j + k][l + k]
  {
    var t := Slice(Some(k), Some(-k));
    var r := SliceVolume(v, t, t, t);
    assert r == TrimSpatial(v, k);
    assert r.shape.nx > 0 ==> Start(t, v.shape.nx) == k;
    assert r.shape.ny > 0 ==> Start(t, v.shape.ny) == k;
    assert r.shape.nz > 0 ==> Start(t, v.shape.nz) == k;
  }

  /** Lines 73-80: `S[:, k:-k, k:-k, k:-k]` and `data_f[k:-k, k:-k, k:-k]`: the component
      axis of S is kept whole, and every component is trimmed as data_f is. */
  function TrimFields<T>(S: seq<Volume<real>>, dataF: Volume<T>, k: int): (r: (seq<Volume<real>>, Volume<T>))
    requires dataF.Valid()
    requires forall c :: 0 <= c < |S| ==> S[c].Valid()
    ensures |r.0| == |S|
    ensures forall c :: 0 <= c < |S| ==> r.0[c] == TrimSpatial(S[c], k)
    ensures r.1 == TrimSpatial(dataF, k)
  {
    (seq(|S|, c requires 0 <= c < |S| => TrimSpatial(S[c], k)), TrimSpatial(dataF, k))
  }

  /** When S has the spatial shape of data_f, the trimmed tensor field and the trimmed
      intensity volume have one shape again, each extent shrunk by 2k on both sides; with
      k == 0 both come out empty. */
  lemma TrimFieldsAgree<T>(S: seq<Volume<real>>, dataF: Volume<T>, k: int)
    requires dataF.Valid()
    requires forall c :: 0 <= c < |S| ==> S[c].Valid() && S[c].shape == dataF.shape
    requires k >= 0
    ensures var r := TrimFields(S, dataF, k);
            var n := dataF.shape;
            && (forall c :: 0 <= c < |S| ==> r.0[c].shape == r.1.shape)
            && (k > 0 && 2 * k <= n.nx && 2 * k <= n.ny && 2 * k <= n.nz ==>
                  r.1.shape == Shape(n.nx - 2 * k, n.ny - 2 * k, n.nz - 2 * k))
            && (k == 0 ==> r.1.shape == Shape(0, 0, 0))
  {
  }

  /** `np.flip(vec, axis=[0])`: the eigen solver returns the components as [z, y, x]; the
      flip puts them back as [x, y, z], component c becoming component 2 - c. */
  function FlipComponents<T>(vec: seq<T>): (r: seq<T>)
    requires |vec| == 3
    ensures r == [vec[2], vec[1], vec[0]]
  {
    Reverse(vec)
  }

  /** `np.sign`: 1, -1, and 0 for 0. */
  function Sign(x: real): real {
    if x > 0.0 then 1.0 else if x < 0.0 then -1.0 else 0.0
  }

  /** `a * np.sign(x)`, written case by case so that the solver stays in linear arithmetic. */
  function TimesSign(a: real, x: real): (r: real)
    ensures r == a * Sign(x)
  {
    if x > 0.0 then a else if x < 0.0 then -a else 0.0
  }

  /** Three volumes of one shape: the components of a field of 3D vectors. */
  predicate IsVectorField(vec: seq<Volume<real>>) {
    |vec| == 3 && forall c :: 0 <= c < 3 ==> vec[c].Valid() && vec[c].shape == vec[0].shape
  }

  /** The vector stored at voxel (i, j, k). */
  function VectorAt(vec: seq<Volume<real>>, i: int, j: int, k: int): seq<real>
    requires IsVectorField(vec) && vec[0].InBounds(i, j, k)
  {
    [vec[0].cells[i][j][k], vec[1].cells[i][j][k], vec[2].cells[i][j][k]]
  }

  function Negated(v: seq<real>): seq<real> {
    seq(|v|, c requires 0 <= c < |v| => -v[c])
  }

  /** Numpy's broadcast product `a * np.sign(s)` of two arrays of one shape. */
  function ScaleBySign(a: Volume<real>, s: Volume<real>): (r: Volume<real>)
    requires a.Valid() && s.Valid() && a.shape == s.shape
    ensures r.Valid() && r.shape == a.shape
    ensures forall i, j, k :: r.InBounds(i, j, k) ==>
              r.cells[i][j][k] == TimesSign(a.cells[i][j][k], s.cells[i][j][k])
  {
    var cells := seq(a.shape.nx, i requires 0 <= i < a.shape.nx =>
                   seq(a.shape.ny, j requires 0 <= j < a.shape.ny =>
                     seq(a.shape.nz, k requires 0 <= k < a.shape.nz =>
                       TimesSign(a.cells[i][j][k], s.cells[i][j][k]))));
    Volume(a.shape, cells)
  }

  /** `vec * np.sign(vec[0])`: numpy broadcasts the sign of the x-component over the
      component axis, so every component of a vector is multiplied by the same sign. */
  function ResolveSigns(vec: seq<Volume<real>>): (r: seq<Volume<real>>)
    requires IsVectorField(vec)
    ensures IsVectorField(r) && r[0].shape == vec[0].shape
    ensures forall c, i, j, k :: 0 <= c < 3 && vec[0].InBounds(i, j, k) ==>
              r[c].cells[i][j][k] == TimesSign(vec[c].cells[i][j][k], vec[0].cells[i][j][k])
  {
    [ScaleBySign(vec[0], vec[0]), ScaleBySign(vec[1], vec[0]), ScaleBySign(vec[2], vec[0])]
  }

  /** After the sign resolution every x-component is non-negative; a vector with positive x
      is kept, one with negative x is negated, and one with x == 0 becomes the zero vector. */
  lemma ResolvedVectors(vec: seq<Volume<real>>)
    requires IsVectorField(vec)
    ensures var r := ResolveSigns(vec);
            forall i, j, k :: vec[0].InBounds(i, j, k) ==>
              && r[0].cells[i][j][k] >= 0.0
              && VectorAt(r, i, j, k)
                 == (var x := vec[0].cells[i][j][k];
                     if x > 0.0 then VectorAt(vec, i, j, k)
                     else if x < 0.0 then Negated(VectorAt(vec, i, j, k))
                     else [0.0, 0.0, 0.0])
  {
    var r := ResolveSigns(vec);
    forall i, j, k | vec[0].InBounds(i, j, k)
      ensures r[0].cells[i][j][k] >= 0.0
      ensures VectorAt(r, i, j, k)
              == (var x := vec[0].cells[i][j][k];
                  if x > 0.0 then VectorAt(vec, i, j, k)
                  else if x < 0.0 then Negated(VectorAt(vec, i, j, k))
                  else [0.0, 0.0, 0.0])
    {
      var x := vec[0].cells[i][j][k];
      var v := VectorAt(vec, i, j, k);
      var w := VectorAt(r, i, j, k);
      assert w == [TimesSign(v[0], x), TimesSign(v[1], x), TimesSign(v[2], x)];
      if x < 0.0 {
        assert Negated(v) == [-v[0], -v[1], -v[2]];
      }
    }
  }

  /** Resolving the signs a second time changes nothing. */
  lemma ResolveSignsIdempotent(vec: seq<Volume<real>>)
    requires IsVectorField(vec)
    ensures ResolveSigns(ResolveSigns(vec)) == ResolveSigns(vec)
  {
    var r := ResolveSigns(vec);
    var rr := ResolveSigns(r);
    forall c | 0 <= c < 3
      ensures rr[c] == r[c]
    {
      forall i, j, k | rr[c].InBounds(i, j, k)
        ensures rr[c].cells[i][j][k] == r[c].cells[i][j][k]
      {
        assert r[0].cells[i][j][k] == TimesSign(vec[0].cells[i][j][k], vec[0].cells[i][j][k]);
      }
      Extensionality(rr[c], r[c]);
    }
  }

  /** The orientation vectors handed to the misalignment analysis: the eigen solver's
      [z, y, x] vectors flipped to [x, y, z] and then sign-resolved. Component c of the
      result is the solver's component 2 - c times the sign of its last component, so the
      x-component kept is the absolute value of that last component. */
  function OrientedVectors(eig: seq<Volume<real>>): (r: seq<Volume<real>>)
    requires IsVectorField(eig)
    ensures IsVectorField(r) && r[0].shape == eig[0].shape
    ensures forall c, i, j, k :: 0 <= c < 3 && eig[0].InBounds(i, j, k) ==>
              r[c].cells[i][j][k] == TimesSign(eig[2 - c].cells[i][j][k], eig[2].cells[i][j][k])
    ensures forall i, j, k :: eig[0].InBounds(i, j, k) ==>
              r[0].cells[i][j][k] == (var z := eig[2].cells[i][j][k]; if z < 0.0 then -z else z)
  {
    var flipped := FlipComponents(eig);
    var r := ResolveSigns(flipped);
    r
  }

  /** The FE model's length, thickness and width. */
  datatype ModelDim = ModelDim(length: real, thickness: real, width: real)

  /** n voxels of size voxelSize laid end to end: n times voxelSize (MultipleIsProduct),
      written as repeated addition so that the measurements stay linear. */
  function Multiple(n: nat, voxelSize: real): real {
    if n == 0 then 0.0 else Multiple(n - 1, voxelSize) + voxelSize
  }

  lemma {:induction false} MultipleIsProduct(n: nat, voxelSize: real)
    ensures Multiple(n, voxelSize) == n as real * voxelSize
  {
    if n > 0 {
      MultipleIsProduct(n - 1, voxelSize);
      assert (n - 1) as real * voxelSize + voxelSize == n as real * voxelSize;
    }
  }

  /** Lines 132-137. `len(data_s[:,0,0])`, `len(data_s[0,:,0])` and `len(data_s[0,0,:])`
      index 0 on two axes each, so they raise IndexError when any axis is empty. Otherwise
      the dimensions are the voxel counts times the voxel size, with twice the padding added
      to the length. */
  function ModelDimensions<T>(dataS: Volume<T>, voxelSize: real): (r: Result<ModelDim>)
    ensures r.Err? <==> dataS.shape.nx == 0 || dataS.shape.ny == 0 || dataS.shape.nz == 0
    ensures r.Err? ==> r.error == IndexError
    ensures r.Ok? ==> r.value == ModelDim(Multiple(dataS.shape.nx, voxelSize) + 280.0,
                                          Multiple(dataS.shape.ny, voxelSize),
                                          Multiple(dataS.shape.nz, voxelSize))
  {
    var s := dataS.shape;
    if s.ny == 0 || s.nz == 0 then Err(IndexError)           // data_s[:, 0, 0]
    else
      var length := Multiple(s.nx, voxelSize) + 2.0 * Padding;
      if s.nx == 0 || s.nz == 0 then Err(IndexError)         // data_s[0, :, 0]
      else
        var thickness := Multiple(s.ny, voxelSize);
        if s.nx == 0 || s.ny == 0 then Err(IndexError)       // data_s[0, 0, :]
        else Ok(ModelDim(length, thickness, Multiple(s.nz, voxelSize)))
  }

  /** Lines 36 and 69-80 and 132-137: the script from the loaded volume to MODEL_DIM, that
      is, crop by `crop_edge` on every axis, trim the kernel radius, measure. With a
      non-negative crop and non-negative scales it exits when twice the crop exceeds an
      extent. It fails with IndexError on an empty trimmed axis, which happens exactly when
      the kernel radius is 0 or twice it reaches a cropped extent. Otherwise every dimension
      is the extent less twice the crop and twice the kernel radius, times the voxel size,
      with the padding added to the length. */
  function ScanDimensions<T>(dataFull: Volume<T>, cropEdge: int, sigma: real, rho: real,
                             voxelSize: real): (r: Result<ModelDim>)
    requires dataFull.Valid()
    ensures cropEdge >= 0 && sigma >= 0.0 && rho >= 0.0 ==>
              var s := dataFull.shape;
              var k := KernelRadius(sigma, rho);
              var c := cropEdge;
              && (r == Err(SystemExit) <==> 2 * c > s.nx || 2 * c > s.ny || 2 * c > s.nz)
              && (r.Ok? <==> k > 0 && 2 * (c + k) < s.nx && 2 * (c + k) < s.ny && 2 * (c + k) < s.nz)
              && (r.Ok? ==> r.value == ModelDim(Multiple(s.nx - 2 * c - 2 * k, voxelSize) + 280.0,
                                                Multiple(s.ny - 2 * c - 2 * k, voxelSize),
                                                Multiple(s.nz - 2 * c - 2 * k, voxelSize)))
  {
    match TomoHandling.TomoCrop(dataFull, cropEdge, cropEdge, cropEdge)
    case Err(e) => Err(e)
    case Ok(data) =>
      var k := KernelRadius(sigma, rho);
      if cropEdge >= 0 && sigma >= 0.0 && rho >= 0.0 then
        TrimmedAxis(dataFull.shape.nx, cropEdge, k);
        TrimmedAxis(dataFull.shape.ny, cropEdge, k);
        TrimmedAxis(dataFull.shape.nz, cropEdge, k);
        ModelDimensions(TrimSpatial(data, k), voxelSize)
      else
        ModelDimensions(TrimSpatial(data, k), voxelSize)
  }

  /** One axis of length n, cropped by c and then trimmed by k: something is left exactly
      when k > 0 and 2 (c + k) < n, and then n - 2c - 2k entries are. */
  lemma TrimmedAxis(n: nat, c: int, k: int)
    requires 0 <= c && 2 * c <= n && 0 <= k
    ensures TrimExtent(n - 2 * c, k) > 0 <==> k > 0 && 2 * (c + k) < n
    ensures TrimExtent(n - 2 * c, k) > 0 ==> TrimExtent(n - 2 * c, k) == n - 2 * c - 2 * k
  {
  }
}
