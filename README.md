# XRCT_3DFE: index, shape and text logic

XRCT_3DFE turns an X-ray tomography scan of a fibre composite into an Abaqus
finite-element model whose integration points carry the local fibre orientation. This
project models the parts of that pipeline that are about indexes, array shapes and text,
not floating-point numerics:

- cropping the scan (`tomo_crop`);
- the structure-tensor script's border trim by the kernel radius, the reordering and
  sign resolution of the eigenvectors, and the FE model dimensions;
- cutting the integration-point table out of the solver's text output, splitting the id
  columns from the rest, and replacing missing angles;
- writing the Fortran `DATA` statements that carry the angles into the user subroutine;
- the input-deck surgery that cuts out the part block and appends a solid section;
- the post-processing index search `FuncRange`, and the fibre volume fraction `VfCir`.

Python exceptions become `Err` values of `Python.Result`. NaN becomes `None` of
`Python.Option`. A numpy volume is a `NdArray.Volume`: a shape plus nested sequences
indexed `[x][y][z]`. A vector or tensor field is a sequence of volumes, component-major as
in numpy. Files are sequences of lines, and the writer's output is a string. Slicing follows
Python's rules (`Python.Bounds`): a negative bound counts from the end, and bounds are
clamped to the axis.

Modules, one file each:

| module | file | models |
|---|---|---|
| Python | python.dfy | exceptions, `Option`, slices, `[::-1]`, `list.index` |
| PyStrings | py_strings.dfy | `in`, `str.find`, `str.split()`, `str.join`, `str(int)` |
| NdArray | ndarray.dfy | 3D arrays and basic slicing |
| TomoHandling | tomo_handling.dfy | code/M1_TomoHandling.py |
| StAnalysis | st_analysis.dfy | code/S1_STanalysis.py |
| SolverText | solver_text.dfy | the window and column logic shared by S3 and S5 |
| Mapping | mapping.dfy | code/S3_mapping.py |
| PostProcessing | post_processing.dfy | code/S5_PostProcessing.py |
| Cube | cube.dfy | code/S2_Cube.py, lines 121-142 |
| AbqFunctions | abq_functions.dfy | code/M3_AbqFunctions.py, `VfCir` |

Where the documentation and the code differ, the model follows the code:

- **Sign of zero.** The comments on the sign step say every vector ends up pointing into
  +x. `np.sign(0)` is 0, so a vector whose x-component is 0 becomes the zero vector
  (`StAnalysis.ResolvedVectors`).
- **Zero kernel radius.** A kernel radius of 0 trims everything: `[0:-0]` is empty, so the
  model dimensions then raise IndexError (`StAnalysis.ScanDimensions`).

## Model

| member | source | states |
|---|---|---|
| TomoHandling.TomoCrop | code/M1_TomoHandling.py:24-55 | SystemExit exactly when twice some cut exceeds that axis's extent, so twice a cut equal to the extent passes. With no positive cut the input itself comes back. For non-negative cuts each axis keeps n - 2c entries and entry (i, j, k) is input entry (i + xcut, j + ycut, k + zcut) |
| TomoHandling.CropAxis | code/M1_TomoHandling.py:38-49 | the slice chosen for one axis starts at the cut and keeps n - 2 cut entries; a zero cut (`slice(None)`) keeps the whole axis |
| TomoHandling.CroppedEntries | code/M1_TomoHandling.py:51 | the slicing expression crops each axis independently of the others and shifts every entry by the cuts |
| NdArray.SliceVolume | code/M1_TomoHandling.py:51 | `v[sx, sy, sz]` has one extent per slice under Python's index rules, and each entry is the input entry shifted by the three slice starts |
| Python.TrimExtent | code/S1_STanalysis.py:73-80 | `[c:-c]` on an axis of length n keeps n - 2c entries when 0 < 2c <= n, and nothing when c == 0 or 2c > n; when something is kept it starts at c |
| Python.Take | code/S2_Cube.py:134 | a list slice has the slice's extent, and entry i is the input entry at the slice start plus i |
| Python.TakeWithin | code/S5_PostProcessing.py:24 | with bounds 0 <= a <= b <= len, `xs[a:b]` is the plain subsequence; with 0 <= b <= a it is empty |
| Python.Reverse | code/S5_PostProcessing.py:20 | `xs[::-1]` has the same length and entry i is entry len - 1 - i |
| Python.ReverseReverse | code/S5_PostProcessing.py:20 | reversing twice gives the input back |
| Python.IndexOf | code/S2_Cube.py:127 | `list.index` gives the first position holding an equal element |
| StAnalysis.TruncToInt | code/S1_STanalysis.py:70 | `int(x)` truncates toward zero: the result is within 1 of x, on x's side of 0 |
| StAnalysis.KernelRadius | code/S1_STanalysis.py:69-70 | for non-negative scales the radius is never negative, is the floor of max(sigma, rho) * 4 + 0.5, and lies within 0.5 of 4 max(sigma, rho) |
| StAnalysis.TrimmedShape | code/S1_STanalysis.py:73-80 | for k >= 0 every extent becomes n - 2k when 0 < 2k <= n, and 0 otherwise |
| StAnalysis.TrimSpatial | code/S1_STanalysis.py:78-80 | `data_f[k:-k, k:-k, k:-k]` is a well-formed array of the trimmed shape |
| StAnalysis.TrimSpatialEntries | code/S1_STanalysis.py:78-80 | for k >= 0, `data_s[i][j][l] == data_f[i+k][j+k][l+k]` for every index of the trimmed array |
| StAnalysis.TrimFields | code/S1_STanalysis.py:73-80 | the component axis of S is kept whole (same number of components); every component is trimmed exactly as data_f is |
| StAnalysis.TrimFieldsAgree | code/S1_STanalysis.py:73-80 | when S has data_f's spatial shape, every trimmed component has the shape of the trimmed `data_s`; that shape is n - 2k per axis when 0 < 2k <= n, and empty on all axes when k == 0 |
| StAnalysis.FlipComponents | code/S1_STanalysis.py:93 | `np.flip(vec, axis=[0])` turns the components [z, y, x] into [x, y, z] |
| StAnalysis.TimesSign | code/S1_STanalysis.py:100 | the case form equals a * np.sign(x), with sign 1, -1 or 0 |
| StAnalysis.ScaleBySign | code/S1_STanalysis.py:100 | the broadcast product keeps the shape and multiplies every entry by the sign of the matching entry |
| StAnalysis.ResolveSigns | code/S1_STanalysis.py:100 | `vec * np.sign(vec[0])` is a vector field of the same shape; every component at a voxel is multiplied by the sign of that voxel's x-component |
| StAnalysis.ResolvedVectors | code/S1_STanalysis.py:95-100 | after the step every x-component is >= 0; a vector with x > 0 is unchanged, one with x < 0 is negated, and one with x == 0 becomes the zero vector |
| StAnalysis.ResolveSignsIdempotent | code/S1_STanalysis.py:95-100 | resolving the signs twice gives the same field as resolving them once |
| StAnalysis.OrientedVectors | code/S1_STanalysis.py:93-100 | flip then sign resolution keeps the shape. At every voxel, component c of the result is solver component 2 - c times the sign of the solver's last component (the x-component), so the kept x-component is that component's absolute value |
| StAnalysis.MultipleIsProduct | code/S1_STanalysis.py:133-135 | the voxel count laid end to end (`Multiple`) equals count times voxel size |
| StAnalysis.ModelDimensions | code/S1_STanalysis.py:132-137 | IndexError exactly when an axis of `data_s` is empty. Otherwise MODEL_DIM is [nx * VOXEL_SIZE + 2 * 140, ny * VOXEL_SIZE, nz * VOXEL_SIZE] as length, thickness, width |
| StAnalysis.ScanDimensions | code/S1_STanalysis.py:36-137 | the crop (line 36), the trim (lines 69-80) and the measurement (lines 132-137) chained, without the plots in between. From the full scan, for non-negative crop and scales: SystemExit exactly when twice the crop exceeds an extent. A result exactly when the kernel radius k is positive and 2(crop + k) is below every extent, and then each dimension is (n - 2 crop - 2k) * VOXEL_SIZE, with the padding added to the length |
| SolverText.FirstContaining | code/S5_PostProcessing.py:16 | None exactly when no line holds the marker; otherwise the index of the first line that holds it |
| SolverText.LastContaining | code/S5_PostProcessing.py:20 | None exactly when no line holds the marker; otherwise the index of the last line that holds it |
| SolverText.EndAfterLast | code/S5_PostProcessing.py:20 | `len(lines) - next(...)` over the reversed lines raises StopIteration exactly when no line holds the marker, and is otherwise one past the last line that holds it |
| SolverText.ReversedSearch | code/S5_PostProcessing.py:20 | the first match in the reversed lines exists exactly when a last match exists, and sits at position len - 1 - (last match) |
| SolverText.SelectWindow | code/S5_PostProcessing.py:16-24 | StopIteration exactly when a marker is missing. Otherwise the window is `lines[s:e]` with s = first start line + start offset and e = last end line + 1 - end offset, and it is empty when 0 <= e <= s. In every case the window is what Python's `lines[s:e]` gives, a negative e counting from the end |
| SolverText.Tokenize | code/S5_PostProcessing.py:26 | one token row per line, in order, each the line's `split()` |
| SolverText.ColumnSplit | code/S3_mapping.py:33-35 | ValueError for ragged rows and IndexError for no rows, exactly. Otherwise the id part and the rest put every row back together in order, and the id part has min(m, row length) tokens |
| PyStrings.ContainsOccurs | code/S5_PostProcessing.py:16 | `w in s` holds exactly when w occurs at some position of s |
| PyStrings.Find | code/S2_Cube.py:126 | `s.find(w)` is -1 exactly when w does not occur, and otherwise the lowest position of w |
| PyStrings.Split | code/S5_PostProcessing.py:26 | `str.split()` gives non-empty tokens with no whitespace; together they are exactly the non-whitespace characters, in order |
| PyStrings.SplitLayout | code/S5_PostProcessing.py:26 | for any string made of whitespace gaps and non-empty whitespace-free tokens, with only the two end gaps allowed empty, `split()` gives exactly those tokens |
| PyStrings.SplitHasLayout | code/S3_mapping.py:33 | every string is such a layout of its own `split()`: the tokens are maximal runs of non-whitespace, with only whitespace between and around them |
| PyStrings.SplitJoin | code/S5_PostProcessing.py:26 | splitting a space-joined list of such tokens gives the list back |
| PyStrings.JoinIsInterleave | code/S3_mapping.py:93 | `sep.join(parts)` of a non-empty list is the parts in order with the separator in each inner gap and nothing at either end |
| PyStrings.NatToString | code/S3_mapping.py:80 | the printed digits of a natural number are decimal digits with no leading zero, and read back to the number |
| PyStrings.IntToString | code/S3_mapping.py:86 | `str(n)` is the canonical decimal digits of n, preceded by '-' exactly when n is negative, and the digits read back to abs(n) |
| PyStrings.JoinAppend | code/S3_mapping.py:93 | joining a concatenation is joining each part, with the separator between them |
| Mapping.ReadIntegrationPoints | code/S3_mapping.py:23-35 | StopIteration exactly when the table header or the completion line is missing. Then ValueError for ragged rows and IndexError for an empty window, exactly. Otherwise one row per window line, in order: the id part followed by the coordinate part is the line's `split()`, and the id part has min(2, row length) tokens |
| Mapping.ReplaceNaN | code/S3_mapping.py:66-70 | returns a fresh copy of the same length; NaN entries become 0, all others keep their value, and the source array is unchanged |
| Mapping.MaxText | code/S3_mapping.py:62-63 | the printed `max()` of an id column is an element no smaller than any other, or `nan` for an empty column |
| Mapping.MinText | code/S3_mapping.py:86 | the printed `min()` of a group's ip ids is an element no larger than any other, or `nan` when empty |
| Mapping.ElementIds | code/S3_mapping.py:83 | the groupby keys are strictly ascending and are exactly the element ids that occur |
| Mapping.Group | code/S3_mapping.py:83-84 | a group holds exactly the rows of its element id, and it is non-empty exactly when that id occurs |
| Mapping.GroupAppend | code/S3_mapping.py:83-84 | grouping is an order-preserving filter: the group of a concatenation is the group of each part, concatenated |
| Mapping.GroupSnoc | code/S3_mapping.py:83-84 | appending a row appends it to its own element's group and leaves every other group as it was |
| Mapping.GroupsPartition | code/S3_mapping.py:83-84 | the groups over the ascending element ids, taken together, hold every row exactly once (the same multiset of rows) |
| Mapping.Header | code/S3_mapping.py:80 | the declaration starts in column 7 with `real*8 ` and ends with the newline; for a column name with no line break it is one physical line |
| Mapping.DataPrefix | code/S3_mapping.py:86 | the DATA statement starts in column 7 with `DATA (`; for a column name with no line break this part has no line break |
| Mapping.MarkContinuations | code/S3_mapping.py:88-91 | the in-place loop prefixes a value with the continuation marker exactly when its index is >= 3 and a multiple of 3 (`Marked`) |
| Mapping.MarkedLayout | code/S3_mapping.py:89-93 | the joined marked values are the groups of three joined with ", ", separated by ", " plus a line continuation, so no physical line holds more than three values |
| Mapping.ChunksCover | code/S3_mapping.py:89-91 | the groups of three hold all values, in order |
| Mapping.WriteColumnFile | code/S3_mapping.py:76-95 | the text written for one column is the header `real*8 COL0(max ip, max ele)`, then exactly one DATA statement per element id in ascending order. Each statement covers `I = min..max` of that element's ip ids, lists its values joined with ", " and continuation-marked, and ends with "/\n" |
| PostProcessing.LoadAbqData | code/S5_PostProcessing.py:10-29 | StopIteration exactly when a marker is missing. Then ValueError for ragged rows and IndexError for an empty window, exactly. Otherwise one row per window line, in order, holding the line's tokens from the third on |
| PostProcessing.TableValues | code/S5_PostProcessing.py:26-28 | on the window alone: ValueError for ragged rows and IndexError for no rows, exactly; otherwise one row per line holding the line's `split()` tokens from the third on |
| PostProcessing.FirstAbove | code/S5_PostProcessing.py:83-86 | None exactly when no value exceeds hi; otherwise the first index whose value exceeds hi |
| PostProcessing.LastBelow | code/S5_PostProcessing.py:87-89 | 0 when no value below n is under lo; otherwise the last index below n whose value is under lo |
| PostProcessing.FuncRange | code/S5_PostProcessing.py:80-91 | ib is the first index f with x[f] > hi, or len(x) + 1 when there is none. ia is LastBelow(x, lo, f - 1), or LastBelow(x, lo, len(x)) when there is none. 0 <= ia <= ib always, and ia < ib exactly when x[0] is not above hi |
| Cube.FindLine | code/S2_Cube.py:124-127 | the loop with `lines.index(line)` gives the index of the first line containing the word, because an equal line earlier would contain it too; None when no line does |
| Cube.ExtractPartBlock | code/S2_Cube.py:129-137 | TypeError exactly when the part header is missing. Otherwise the lines strictly between the header and the orientation line (to the end when there is no orientation line, none when it does not come later), followed by the three section lines in order |
| AbqFunctions.SumSquares | code/M3_AbqFunctions.py:101-102 | the sum of squared radii is never negative |
| AbqFunctions.VfCir | code/M3_AbqFunctions.py:98-104 | no circles: UnboundLocalError. Circles but zero area: ZeroDivisionError. Otherwise `3.14159265359 * sum(cr[i]^2) / ((x1 - x0)(y1 - y0))`, which depends on neither cx nor cy and is non-negative when the area is positive |

## Left out

- `st_misalign`, `rot_mat` and `orient_average` (code/M2_Alignment.py): floating-point trigonometry and vector normalisation. The plotting helpers are left out too.
- `structure_tensor_3d` and `eig_special_3d`: external library code. The model takes S and the eigenvectors as inputs.
- The computation of `rho` and `sigma` from the fibre diameter (code/S1_STanalysis.py:57-59): float rounding. The scales are inputs.
- File I/O: nibabel loading, `np.savetxt`, `np.savez`, `np.load`, `np.loadtxt`, `readlines` and the file writes. Inputs are line lists and arrays; outputs are strings.
- The `cp1257` decoding of the input files: lines are given as strings.
- `shell_crop`, the value of `crop_edge` (code/S1_STanalysis.py:35): it comes from another script, so it is a parameter.
- The float scaling, the centring offsets and `ndimage.map_coordinates` (code/S3_mapping.py:38-49): scipy's rounding and boundary rules are not visible. The angles at the integration points are inputs.
- `np.radians` (code/S3_mapping.py:73-74), and the `.6f` formatting of the angles (code/S3_mapping.py:88): floating-point formatting. Each row carries its value already formatted.
- The pandas DataFrame itself: grouping and column extraction are modelled directly on a sequence of rows.
- The loop over the two angle columns (code/S3_mapping.py:76): WriteColumnFile writes one column and is called once for PHI and once for THETA.
- Mapping.ReadIntegrationPoints, PostProcessing.LoadAbqData: tokens stay strings, because `dtype=float` parsing is floating point; the ValueError raised for a non-numeric token and the `astype(int)` of the ids are not modelled.
- The stress and strain arithmetic, `np.polyfit` and the plots of code/S5_PostProcessing.py (lines 98-125): floating point and plotting.
- PostProcessing.FuncRange: takes the two range ends as two arguments rather than a two-element list. NaN comparisons are not modelled; values are exact reals.
- AbqFunctions.VfCir: computes in exact reals, so float rounding is not modelled, and the unread `cx` and `cy` are accepted as sequences of any length.
- StAnalysis.ModelDimensions: computes in exact reals; float rounding in `len(...) * VOXEL_SIZE` is not modelled.
- StAnalysis.ResolveSigns: the `float32` casts of the eigen solver's output are not modelled.
- code/M4_IntegrationPoints.py and `tomo_plot_3`: plotting.
- StAnalysis.ScanDimensions: the plot calls of the script (code/S1_STanalysis.py:47-53 and 115-129) are not modelled, nor their failures: `tomo_plot_3` divides by the cropped y-extent, a ZeroDivisionError when twice the crop equals it, and `data_s[:, :, 50]` raises IndexError when the trimmed z-extent is between 1 and 50. So the script can fail where the model returns dimensions.
- code/S4_Cube_modified.py, and everything in code/S2_Cube.py and code/M3_AbqFunctions.py except `find_line`, the block extraction and `VfCir`: the Abaqus/CAE object model, job submission and ODB history output (`BCout`).
