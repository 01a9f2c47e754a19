# ludwig: containers, the Thomas solver and the boundary-layer march, in Dafny

This project models the computational core of ludwig. ludwig is a small C++ prototype of a
laminar flat-plate boundary-layer solver. The model covers:

- **The dense containers** and their column-major index arithmetic:
  - `Matrix` (`src/ludwig/types/matrix.h`), with its constructors, element access, equality,
    compound and binary operators, `SubMatrix` and `Determinant`;
  - `Mat1` and `Mat2` (`src/ludwig/core/types.h`);
  - `Vec2` and `Vector` (`src/ludwig/types/vector.h`);
  - `Tensor` (`src/ludwig/types/tensor.h`).
- **The uniform grid**: `linspace` (`src/ludwig/core/linspace.h`) and `inflation_layer`
  (`src/ludwig/mesh/uniform-grid.h`).
- **The Thomas algorithm** for tridiagonal systems, in both templates:
  - `SolveTDMA` over `Mat2` and `std::vector`;
  - `SolveTDMA` over `Matrix` (`src/ludwig/solver/tdma.h`).

  The exact-solve theorem is proved: for a tridiagonal matrix with no zero pivot, the result x
  satisfies A x = b row by row.
- **Both `run()` functions.** `src/ludwig/temp.cpp` sets up the external flow and the initial
  profile, then marches station by station. At each station it assembles a tridiagonal system
  for the next station's interior u, solves it, and updates v. `src/main.cpp` performs only the
  set-up, on a 10 x 10 grid.

All arithmetic is over exact `real`. The unsigned widths of the source are made explicit where
they matter: the 32-bit `size` products and the 64-bit tensor size wrap. The `int` loop counters
of the solvers appear as bounds in the preconditions. `pow(r, 0.5)` is a function parameter
`sqrt`. Properties that need it to be a square root say so with `BoundaryLayer.IsSqrt`.

Modules follow the source files:

| module | file | source |
|---|---|---|
| `Primitive` | `primitive.dfy` | fixed-width types and wrap-around |
| `ColumnMajor` | `column_major.dfy` | the shared column-major layout |
| `Matrices` | `matrix.dfy` | `src/ludwig/types/matrix.h` |
| `CoreTypes` | `core_types.dfy` | `src/ludwig/core/types.h` |
| `Vectors` | `vector.dfy` | `src/ludwig/types/vector.h` |
| `Tensors` | `tensor.dfy` | `src/ludwig/types/tensor.h` |
| `Spacing` | `linspace.dfy` | `src/ludwig/core/linspace.h` |
| `Thomas` | `thomas.dfy` | the algorithm shared by both `SolveTDMA` templates |
| `Inflation` | `inflation.dfy` | `inflation_layer` of `src/ludwig/mesh/uniform-grid.h` |
| `UniformGrid` | `uniform_grid.dfy` | `SolveTDMA` of `src/ludwig/mesh/uniform-grid.h` |
| `Tdma` | `tdma.dfy` | `src/ludwig/solver/tdma.h` |
| `BoundaryLayer` | `boundary_layer.dfy` | the set-up shared by both `run()` functions |
| `Station` | `station.dfy` | definitions of the march in `src/ludwig/temp.cpp` |
| `Temp` | `temp.dfy` | one station of the march |
| `Marching` | `march.dfy` | field-level lemmas of the march |
| `TempRun` | `temp_run.dfy` | `run()` of `src/ludwig/temp.cpp` |
| `MainSetup` | `main_setup.dfy` | `run()` of `src/main.cpp` |

Where a division could meet zero, the source carries on with infinities or NaN. The model
stops instead: the march reports the station it could not solve (`Station.Outcome`). A zero
divisor can be a zero u(i, j) or a zero pivot. For a station whose interior u is positive,
with positive viscosity and density, neither happens (`Temp.PositiveAlphas`,
`Temp.DominantPivots`). With temp.cpp's own constants the initial profile is such a station,
so the march never stops at station 0 (`TempRun.FirstStationSolvable`). That later stations
keep u positive is not proved.

## Model

| member | source | states |
|---|---|---|
| ColumnMajor.SlotIsAffine | src/ludwig/types/matrix.h:11-18 | The column-by-column slot of cell (i, j) is `i + j * ld`, the layout drawn in the header comment. |
| ColumnMajor.SlotInjective | src/ludwig/types/matrix.h:86-95 | Two cells with row below the leading dimension that share a slot are the same cell. |
| ColumnMajor.SlotBelowArea | src/ludwig/types/matrix.h:38-42 | Every in-range cell of an ld x cols buffer has its slot below the area ld * cols. |
| ColumnMajor.AreaIsProduct | src/ludwig/types/matrix.h:38 | The column-by-column area is the product ld * cols that `size` holds. |
| ColumnMajor.CellOfSlot | src/ludwig/types/matrix.h:11-18 | The quotient/remainder cell of a slot inverts the slot of an in-range cell. |
| ColumnMajor.CellInRange | src/ludwig/types/matrix.h:11-18 | Every slot below the area is the slot of an in-range cell. |
| ColumnMajor.SetLeavesOthers | src/ludwig/types/matrix.h:86-89 | Writing cell (i, j) of a buffer leaves every other in-range cell unchanged. |
| ColumnMajor.CellwiseEqual | src/ludwig/types/matrix.h:110-118 | Two buffers of the same area that agree on every cell are equal. |
| Matrices.Default | src/ludwig/types/matrix.h:32-36 | `Matrix()` is a valid 1 x 1 matrix of size 1 whose only cell holds 0. |
| Matrices.Zeros | src/ludwig/types/matrix.h:38-42 | `Matrix(d1, d2)` has the 32-bit product d1 * d2 as size, is valid when that does not wrap, and every element is 0. |
| Matrices.Filled | src/ludwig/types/matrix.h:44-49 | `Matrix(d1, d2, init)` has size d1 * d2 (wrapped) and every element equal to init. |
| Matrices.FromBuffer | src/ludwig/types/matrix.h:51-55 | The pointer constructor copies the first `size` values of the source, in order. |
| Matrices.Set | src/ludwig/types/matrix.h:86-89 | Writing through `(i, j)` keeps the shape and size, keeps validity, and the cell then reads the written value. |
| Matrices.FlatAndCellAgree | src/ludwig/types/matrix.h:74-95 | Flat slot k is cell (k % dim1, k / dim1) and cell (i, j) is one slot below size: `[]` and `()` name the same storage. |
| Matrices.CellsHaveDistinctSlots | src/ludwig/types/matrix.h:86-95 | Distinct in-range cells of a valid matrix address distinct slots below size. |
| Matrices.SetLeavesOtherCells | src/ludwig/types/matrix.h:86-89 | After writing (i, j), cell (i2, j2) reads the new value if it is (i, j) and its old value otherwise. |
| Matrices.CellwiseEqual | src/ludwig/types/matrix.h:110-118 | Valid matrices of one shape that agree on every cell are equal. |
| Matrices.Equals | src/ludwig/types/matrix.h:110-118 | `==` is true if and only if size, dim1, dim2 and every element agree (both directions). |
| Matrices.EqualityExamples | src/tests/test-matrix.h:100-109 | Equal 2 x 3 fills compare equal; 2 x 3 and 3 x 2 all-ones matrices do not, nor do 2 x 3 and 2 x 2, in either order. |
| Matrices.Combine | src/ludwig/types/matrix.h:120-153 | The element loop of a compound operator gives element k as `data[k] op operand[k]` for every k below size. |
| Matrices.AddAssign | src/ludwig/types/matrix.h:120-125 | Matrix `+=` keeps the shape and adds the rhs element at the same index to every element. |
| Matrices.SubAssign | src/ludwig/types/matrix.h:134-139 | Matrix `-=` keeps the shape and subtracts the rhs element at the same index. |
| Matrices.AddAssignScalar | src/ludwig/types/matrix.h:127-132 | Scalar `+=` adds s to every element and keeps the shape. |
| Matrices.SubAssignScalar | src/ludwig/types/matrix.h:141-146 | Scalar `-=` subtracts s from every element. |
| Matrices.MulAssignScalar | src/ludwig/types/matrix.h:148-153 | Scalar `*=` multiplies every element by s. |
| Matrices.Add | src/ludwig/types/matrix.h:189-195 | `lhs + rhs` is a new matrix of lhs's shape holding the element-wise sums. The operands are values, so they are unchanged. |
| Matrices.Sub | src/ludwig/types/matrix.h:213-219 | `lhs - rhs` is a new matrix holding the element-wise differences. |
| Matrices.AddScalar | src/ludwig/types/matrix.h:197-203 | `M + s` holds every element plus s; `F = A + 5.0` leaves A as it was. |
| Matrices.ScalarAdd | src/ludwig/types/matrix.h:205-211 | `s + M` is the same matrix as `M + s`. |
| Matrices.SubScalar | src/ludwig/types/matrix.h:221-227 | `M - s` holds every element minus s. |
| Matrices.ScalarSub | src/ludwig/types/matrix.h:229-235 | As written, `s - M` is the same matrix as `M - s`. |
| Matrices.ScalarSubCorrected | src/ludwig/types/matrix.h:229-235 | The intended `s - M` holds s minus every element, with M's shape. |
| Matrices.MulScalar | src/ludwig/types/matrix.h:249-255 | `M * s` holds every element times s. |
| Matrices.ScalarMul | src/ludwig/types/matrix.h:257-263 | `s * M` is the same matrix as `M * s`. |
| Matrices.ScalarRoundTrip | src/ludwig/types/matrix.h:127-146 | Adding and then subtracting a scalar restores the matrix, for both the compound and the binary operators. |
| Matrices.MatrixRoundTrip | src/ludwig/types/matrix.h:120-139 | Subtracting a matrix and adding it back restores the matrix, for both the compound and the binary operators. |
| Matrices.AddCommutes | src/ludwig/types/matrix.h:189-263 | Matrix addition of same-shaped matrices commutes, and `M * s == s * M`. |
| Matrices.ScalarSubIsMatrixMinusScalar | src/ludwig/types/matrix.h:229-235 | The literal `s - M` equals `M - s`: `5 - [1]` yields [-4], where the intended result is [4]. |
| Matrices.ScalarSubCorrectedComplements | src/ludwig/types/matrix.h:229-235 | The corrected `s - M` plus M is the matrix filled with s, and applying it twice gives M back. |
| Matrices.SubMatrix | src/ludwig/types/matrix.h:157-173 | `SubMatrix(d1, d2)` is a valid (dim1-1) x (dim2-1) matrix whose cell (i, j) is the source cell at the i-th surviving row and j-th surviving column (row d1 and column d2 skipped), in column-major order. |
| Matrices.Determinant | src/ludwig/types/matrix.h:265-285 | `InvalidArgument` if and only if the matrix is not square; 0 for the 0 x 0 matrix; the 2 x 2 closed form for size 2. |
| Matrices.DeterminantCorrected | src/ludwig/types/matrix.h:265-285 | The same results as `Determinant` everywhere except 1 x 1, where it returns the single element. |
| Matrices.DeterminantOfOneByOneIsZero | src/ludwig/types/matrix.h:274-284 | As written, the expansion gives every 1 x 1 matrix determinant 0; the corrected version gives its element. |
| Matrices.IdentityMinor | src/ludwig/types/matrix.h:157-173 | Removing row 0 and column 0 of the n x n identity gives the (n-1) x (n-1) identity. |
| Matrices.IdentityExpansion | src/ludwig/types/matrix.h:277-282 | Along row 0 of the identity, the cofactor expansion reduces to its first term. |
| Matrices.IdentityDeterminant | src/ludwig/types/matrix.h:265-285 | The determinant of the n x n identity is 1 for n >= 2, and 0 as written (1 corrected) for n = 1. |
| CoreTypes.Mat1Alloc | src/ludwig/core/types.h:22-25 | `Mat1(s)` has s slots with unspecified contents (any given contents function). |
| CoreTypes.Mat1Fill | src/ludwig/core/types.h:27-33 | `Mat1(s, init)` fills all s slots with init, for a size below 2^31 that the `int` counter can reach. |
| CoreTypes.Mat1Put | src/ludwig/core/types.h:39-46 | Writing `(i)` with i < size sets slot i and leaves every other slot. |
| CoreTypes.Mat2Of | src/ludwig/core/types.h:57-61 | A buffer of the 32-bit product r * c is a valid `Mat2` when that product does not wrap. |
| CoreTypes.Mat2Alloc | src/ludwig/core/types.h:57-61 | `Mat2(r, c)` has size r * c (wrapped), is valid when it fits, and holds arbitrary contents. |
| CoreTypes.Mat2Fill | src/ludwig/core/types.h:63-70 | `Mat2(r, c, init)` has size r * c and every element equal to init, for a size below 2^31 that the `int` counter can reach. |
| CoreTypes.Mat2Put | src/ludwig/core/types.h:77-84 | Writing `(i, j)` keeps the shape and validity; the cell then reads the written value. |
| CoreTypes.Mat2PutLeavesOthers | src/ludwig/core/types.h:59-84 | For in-range cells: the slot `i + j * rows` is below size and unique to (i, j), and a write changes no other cell. |
| CoreTypes.Mat2FillReads | src/ludwig/core/types.h:63-84 | Every in-range cell of `Mat2(r, c, init)` reads init. |
| CoreTypes.LayoutsAgree | src/ludwig/core/types.h:77-84 | A `Mat2` and a `Matrix` over the same buffer and shape read the same value at every in-range cell. |
| Vectors.AddVec2Laws | src/ludwig/types/vector.h:33-38 | `Vec2 + Vec2` is component-wise: commutative, associative, with identity 0. The example of the vector tests, {1.2, 2.3} + {4.2, 5.3} = {5.4, 7.6}, holds. |
| Vectors.Default | src/ludwig/types/vector.h:93-98 | `Vector()` has size 1 holding zero. |
| Vectors.Zeros | src/ludwig/types/vector.h:100-105 | `Vector(s)` is s zeros. |
| Vectors.Filled | src/ludwig/types/vector.h:107-113 | `Vector(s, init)` is s copies of init. |
| Vectors.FromBuffer | src/ludwig/types/vector.h:115-120 | The pointer constructor copies the first s elements in order. |
| Vectors.FromList | src/ludwig/types/vector.h:122-128 | The initializer-list constructor has the list's length and elements, in order. |
| Vectors.Copy | src/ludwig/types/vector.h:130-135 | The copy constructor gives the same size and equal elements. |
| Vectors.Put | src/ludwig/types/vector.h:152-164 | Writing element i < size sets it and leaves every other element. |
| Vectors.CopyAssign | src/ludwig/types/vector.h:180-193 | Self-assignment changes nothing; otherwise the target has rhs's size and elements. |
| Vectors.MoveAssign | src/ludwig/types/vector.h:195-209 | The target takes rhs's contents; a distinct rhs is left with size 0, and a self-move is a no-op. |
| Vectors.MoveConstruct | src/ludwig/types/vector.h:137-141 | The move constructor starts empty and takes rhs's contents, leaving rhs with size 0. |
| Vectors.ConstructorsAgree | src/ludwig/types/vector.h:93-128 | `Vector()` equals `Vector(1)`; a buffer and a list of the same elements build the same vector. |
| Vectors.CopyIsIdentity | src/ludwig/types/vector.h:130-193 | A copy equals its original, and copy-assigning it back changes nothing. |
| Vectors.MoveThereAndBack | src/ludwig/types/vector.h:195-209 | Moving a into b and back restores a and leaves b empty. |
| Tensors.Default | src/ludwig/types/tensor.h:27-34 | `Tensor()` has size 1, dimensions [1] and data [0]. |
| Tensors.FromDims | src/ludwig/types/tensor.h:37-46 | `Tensor(dims)` copies dims and has the 64-bit-wrapped product of the dimensions as size (the exact product when it fits). Its `size` elements are all 0. |
| Tensors.MulMod | src/ludwig/types/tensor.h:40-42 | Reducing the running product modulo 2^64 before each multiplication gives the same residue as reducing at the end. |
| Tensors.ShapeExamples | src/ludwig/types/tensor.h:27-42 | An empty shape has size 1, and the default tensor matches `Tensor([1])` in size and shape. |
| Tensors.ProductLaws | src/ludwig/types/tensor.h:40-42 | The size product is unchanged by a trailing dimension of 1 and is 0 when any dimension is 0. |
| Spacing.Linspace | src/ludwig/core/linspace.h:10-23 | Exactly n points; none for n = 0; for n >= 2 the first is start, the last is end, and point i is start + i (end - start) / (n - 1). |
| Spacing.ConstantSpacing | src/ludwig/core/linspace.h:17-20 | Neighbouring points are exactly (end - start) / (n - 1) apart. |
| Spacing.StrictlyIncreasing | src/ludwig/core/linspace.h:17-20 | For start < end the points strictly increase. |
| Spacing.WithinEndpoints | src/ludwig/core/linspace.h:17-20 | For start <= end every point lies in [start, end]. |
| Thomas.BandOf | src/ludwig/mesh/uniform-grid.h:50-65 | The band the sweep reads: diagonal A(i, i), sub-diagonal A(i, i-1), super-diagonal A(i, i+1) and the right-hand side b. |
| Thomas.Pivots | src/ludwig/mesh/uniform-grid.h:50-62 | One pivot per row: A(0, 0), then each sweep's `d`, then the last row's denominator. |
| Thomas.CPrimes | src/ludwig/mesh/uniform-grid.h:50-57 | The normalised super-diagonal c' that the sweep stores back into A(i, i+1). |
| Thomas.BPrimes | src/ludwig/mesh/uniform-grid.h:51-62 | The normalised right-hand side b' that the sweep stores back into b[i]. |
| Thomas.BackSubstitution | src/ludwig/mesh/uniform-grid.h:62-65 | The last unknown is b'[m-1], and every unknown above it is x[i] = b'[i] - c'[i] x[i+1]. |
| Thomas.MiddleRow | src/ludwig/mesh/uniform-grid.h:54-59 | The algebra of one interior row: with the sweep's c', b' and the back substitution, l x[i-1] + d x[i] + u x[i+1] = b[i]. |
| Thomas.EliminatedSolves | src/ludwig/mesh/uniform-grid.h:50-65 | Back substitution over what the forward sweep computes solves every row of the band. |
| Thomas.SweepEliminates | src/ludwig/mesh/uniform-grid.h:50-59 | The reference pivots, c' and b' satisfy the forward-sweep recurrences on every row. |
| Thomas.SolveBandSolves | src/ludwig/mesh/uniform-grid.h:50-65 | The reference solution of a band with no zero pivot solves every band row. |
| Thomas.RowDotIsBand | src/ludwig/mesh/uniform-grid.h:50-65 | For a tridiagonal A, row i of A x is its at most three band terms. |
| Thomas.SolutionSolves | src/ludwig/mesh/uniform-grid.h:43-66 | Exact solve: for a tridiagonal A with no zero pivot, the sum over j of A(i, j) x[j] equals b[i] for every row i. |
| Thomas.BandOnly | src/ludwig/mesh/uniform-grid.h:50-65 | Only A(i, i-1), A(i, i), A(i, i+1) and b are read: changing any off-band coefficient leaves the solution unchanged. |
| Thomas.StoreUpper | src/ludwig/mesh/uniform-grid.h:50-57 | Overwriting A(i, i+1) replaces only the super-diagonal entry i of the band held in the buffer. |
| Thomas.ForwardSweep | src/ludwig/mesh/uniform-grid.h:49-59 | The forward sweep on the private copies leaves c' in the super-diagonal, keeps the diagonals, and leaves b' in b[0 .. m-2]. |
| Thomas.LastUnknown | src/ludwig/mesh/uniform-grid.h:61-62 | The last-row formula gives b'[m-1]. |
| Thomas.BackSubstitute | src/ludwig/mesh/uniform-grid.h:64-65 | The descending loop writes exactly x[0 .. m) with the back substitution and keeps the rest of x. |
| Thomas.Solve | src/ludwig/solver/tdma.h:15-30 | The shared body: x[0 .. m) receives the reference solution and x from m on is untouched. |
| Inflation.InflationLayer | src/ludwig/mesh/uniform-grid.h:27-38 | N values with y[0] = 0, y[1] (1 - g^(N+1)) = H (1 - g), and y[i] = y[1] g^(i-1) for 1 <= i < N. |
| Inflation.GeometricSumClosed | src/ludwig/mesh/uniform-grid.h:32 | (1 - g)(1 + g + ... + g^(n-1)) = 1 - g^n, the closed form behind y[1]'s denominator. |
| Inflation.InflationSum | src/ludwig/mesh/uniform-grid.h:30-35 | The layer's values add up to y[1] (1 + g + ... + g^(N-2)). |
| Inflation.InflationShortfall | src/ludwig/mesh/uniform-grid.h:27-38 | A layer with y[0] = 0, y[1] (1 - g^(N+1)) = H (1 - g) and y[i] = y[1] g^(i-1) has sum(y) (1 - g^(N+1)) = H (1 - g^(N-1)): where g^(N+1) != 1 it sums to H (1 - g^(N-1)) / (1 - g^(N+1)), which is H only where g^(N-1) = g^(N+1). The sum and the two powers are passed as named reals. |
| Inflation.InflationFallsShort | src/ludwig/mesh/uniform-grid.h:27-38 | For H > 0 and a ratio 0 < g != 1, such a layer sums to strictly less than H. |
| Inflation.InflationRatio | src/ludwig/mesh/uniform-grid.h:34-35 | Consecutive values after y[0] grow by the factor g. |
| UniformGrid.Resize | src/ludwig/mesh/uniform-grid.h:47 | `x.resize(m)` has m elements, keeps the first ones and zero-fills the new ones. |
| UniformGrid.SystemOf | src/ludwig/mesh/uniform-grid.h:43-45 | A valid `Mat2` holding the m x m block and b of length m >= 2 form a well-formed system of m = b.size() equations. |
| UniformGrid.SolveTdma | src/ludwig/mesh/uniform-grid.h:43-66 | x is resized to m and holds the Thomas solution; for a tridiagonal A it satisfies A x = b row by row. b is a by-value copy; A is a shallow copy (see Left out). |
| Tdma.SystemOf | src/ludwig/solver/tdma.h:7-9 | A valid `Matrix` and b of size m >= 2 form a well-formed system of m = b.size equations whose right-hand side is b's buffer. |
| Tdma.SolveTdma | src/ludwig/solver/tdma.h:7-31 | x keeps its shape and size; x(0 .. m) receives the solution and the rest of x is unchanged. For a tridiagonal A it satisfies A x = b row by row. |
| Tdma.SameAsMat2 | src/ludwig/solver/tdma.h:15-30 | On equal inputs the `Matrix` template yields the same m unknowns as the `Mat2`/`std::vector` template. |
| BoundaryLayer.TempConfig | src/ludwig/temp.cpp:26-46 | temp.cpp's constants form a well-formed 10 x 100 run. |
| BoundaryLayer.MainConfig | src/main.cpp:14-28 | main.cpp's constants are temp.cpp's with jmax = 10. |
| BoundaryLayer.DeltaX | src/ludwig/temp.cpp:45 | The station step is non-zero. |
| BoundaryLayer.DeltaY | src/ludwig/temp.cpp:46 | The wall-normal step is non-zero. |
| BoundaryLayer.GridOf | src/ludwig/temp.cpp:45-53 | x and y are the linspaces with their endpoints; every dx and dy entry equals both the uniform delta and the distance between neighbouring grid points. |
| BoundaryLayer.Zeros | src/ludwig/temp.cpp:56-57 | The zero-filled imax x jmax field. |
| BoundaryLayer.Put | src/ludwig/temp.cpp:68 | Writing cell (i, j) of a field changes that cell only. |
| BoundaryLayer.AsMatrix | src/ludwig/temp.cpp:56-57 | A field is the `Matrix` storing it: `Get(m, i, j)` is u[i][j] for every in-range cell. |
| BoundaryLayer.FieldsAreMatrices | src/ludwig/temp.cpp:56-57 | The zero field is `Matrix(imax, jmax, 0.0)`, whose buffer is that of `Mat2(imax, jmax, 0.0)`; writing a field cell is writing that matrix cell. |
| BoundaryLayer.EdgeLoop | src/ludwig/temp.cpp:63-69 | Ue, Re and del1 of every station as the formulas give them, and u(i, jmax-1) = Ue[i] with every other cell 0. |
| BoundaryLayer.ProfileLoop | src/ludwig/temp.cpp:72-78 | For 1 <= j <= jmax-2, u(0, j) is Ue[0] when y[j] >= del1[0] and Ue[0] sqrt(y[j] / del1[0]) otherwise; every other cell is kept. |
| BoundaryLayer.VLoop | src/ludwig/temp.cpp:80-81 | v(0, j) follows the recurrence from v(0, j-1) for 1 <= j <= vLast; every other cell stays 0. |
| BoundaryLayer.SetUp | src/ludwig/temp.cpp:45-81 | The set-up yields the grid, the external flow, the initial u (edge column, zero wall column, profile at station 0, zeros elsewhere) and the initial v. |
| BoundaryLayer.VariantsAgree | src/main.cpp:66-67 | main.cpp's v (to jmax-2) and temp.cpp's (to jmax-1) agree up to jmax-2; main.cpp leaves v(0, jmax-1) at 0. |
| BoundaryLayer.ProfileBounded | src/ludwig/temp.cpp:72-78 | For Ue >= 0 and y >= 0 the initial profile lies in [0, Ue], and it equals Ue from y = del1 on. |
| BoundaryLayer.ProfilePositive | src/ludwig/temp.cpp:72-78 | For Ue > 0 and y > 0 the initial profile is positive. |
| BoundaryLayer.FirstProfilePositive | src/ludwig/temp.cpp:55-78 | With physical constants, ymin >= 0 and a true square root, u(0, j) > 0 at every interior wall point of station 0. |
| BoundaryLayer.PhysicalDefined | src/ludwig/temp.cpp:63-81 | With physical constants and a true square root, every `pow(Re, 0.5)` is non-zero, and so are Ue[0] and del1[0]. |
| BoundaryLayer.StationPositive | src/ludwig/temp.cpp:65-67 | Between the leading and trailing edges, Ue, Re and pow(Re, 0.5) are positive. |
| BoundaryLayer.EdgeVelocityFalls | src/ludwig/temp.cpp:65 | The edge velocity decreases strictly along the plate and vanishes at the trailing edge. |
| Station.Alphas | src/ludwig/temp.cpp:100 | One alpha per interior row k = j - 1, computed from u(i, j) and deltay. |
| Station.StationMatrix | src/ludwig/temp.cpp:93-117 | A valid (jmax-2) x (jmax-2) matrix with 1 + 2 alpha_k on the diagonal, -alpha_k beside it, and 0 elsewhere. |
| Station.StationSystem | src/ludwig/temp.cpp:93-120 | The station matrix and its right-hand side form a well-formed system of jmax-2 equations. |
| Temp.StationBand | src/ludwig/temp.cpp:103-117 | The station matrix is tridiagonal, with diagonal 1 + 2 alpha_k, sub-diagonal -alpha_k except on the first row, and super-diagonal -alpha_k except on the last row. |
| Temp.DominantSweep | src/ludwig/temp.cpp:103-117 | With non-negative alphas each sweep pivot is at least 1 + alpha_k and each c' lies in (-1, 0]. |
| Temp.DominantPivots | src/ludwig/temp.cpp:103-120 | A station whose alphas are all non-negative never meets a zero pivot. |
| Temp.PositiveAlphas | src/ludwig/temp.cpp:100 | With positive viscosity and density, xmin < xmax and positive interior u, every alpha is positive and every interior u(i, j) is non-zero. |
| Temp.WriteNext | src/ludwig/temp.cpp:105-115 | Writing a station entry extends the assembled part of the matrix by one cell. |
| Temp.WriteRow | src/ludwig/temp.cpp:103-117 | The writes of one row: -alpha left of the diagonal except on the first row, 1 + 2 alpha on it, -alpha right of it except on the last row. Rows 0 .. k are then assembled. |
| Temp.Assemble | src/ludwig/temp.cpp:93-119 | The assembly loop builds exactly the station matrix and the right-hand side b, including alpha u(i+1, 0) on the first row and alpha u(i+1, jmax-1) on the last. |
| Temp.Cancels | src/ludwig/temp.cpp:126 | In the literal v update the two u(i+1, j+1) terms cancel. |
| Temp.UpdateStation | src/ludwig/temp.cpp:123-127 | u(i+1, j+1) = c(j) for 0 <= j <= jmax-3; columns 0 and jmax-1 are not written; v follows the update rule. |
| Temp.ContinuityResidual | src/ludwig/temp.cpp:126 | Under the rule as written, the discrete continuity equation is left with the residual (u(i+1, j) - u(i, j)) / (2 deltax). |
| Temp.MarchedSolves | src/ludwig/temp.cpp:120-125 | A marched station's interior u solves the station system row by row. |
| Temp.BoundaryOnly | src/ludwig/temp.cpp:107-111 | The station system reads only the two boundary values of the next station. |
| Temp.SolveStation | src/ludwig/temp.cpp:93-120 | Assembly plus `SolveTDMA` succeeds exactly when the sweep meets no zero pivot, and then gives the solution of the station system. |
| Temp.StepDone | src/ludwig/temp.cpp:120-127 | A next station with the solution in its interior, its old boundary values, and v by the rule has been marched. |
| Temp.Step | src/ludwig/temp.cpp:91-128 | One station: ok exactly when it is solvable; then the next station is marched, otherwise nothing is written; the boundary columns are kept either way. |
| Marching.MarchedFrame | src/ludwig/temp.cpp:91-128 | Replacing station n + 1 keeps stations 1 .. n marched. |
| Marching.PlaceStation | src/ludwig/temp.cpp:123-127 | A station marched from station n, written in as station n + 1, makes station n + 1 marched in the fields. |
| Marching.EndsFrame | src/ludwig/temp.cpp:123-125 | Replacing a station by a row with the same boundary columns keeps the boundary columns of the field. |
| Marching.BoundaryKept | src/ludwig/temp.cpp:56-68 | A field that keeps the initial boundary columns has 0 at the wall and Ue[i] at the edge of every station. |
| TempRun.March | src/ludwig/temp.cpp:91-129 | Stations are marched in turn and station 0 is never written. On `Undefined(i)`, stations 1 .. i are marched, station i cannot be solved and the later stations are untouched. |
| TempRun.Advance | src/ludwig/temp.cpp:91-128 | One pass of the station loop: it succeeds exactly when the station is solvable; only station i + 1 changes, its boundary columns are kept, and on success the march reaches it. |
| TempRun.Written | src/ludwig/temp.cpp:123-127 | Writing a marched station i + 1 into fields marched to i gives fields marched to i + 1. |
| TempRun.Run | src/ludwig/temp.cpp:23-129 | `run()`: grid, flow and initial fields, then the march. u(i, 0) = 0 and u(i, jmax-1) = Ue[i] at every station, and the fields are marched up to the last station or to the one that stopped. |
| TempRun.TempConfigRuns | src/ludwig/temp.cpp:26-46 | temp.cpp's constants meet the march's precondition when `pow(r, 0.5)` is a square root. |
| TempRun.FirstStationSolvable | src/ludwig/temp.cpp:91-120 | With temp.cpp's constants and a true square root, the first station system has no zero divisor and no zero pivot, whatever station 1 holds, so the march does not stop at station 0. |
| MainSetup.AsMat2 | src/main.cpp:42-43 | A field is the `Mat2` storing it: `operator()(i, j)` reads u[i][j] for every in-range cell. |
| MainSetup.MainRun | src/main.cpp:11-67 | main.cpp's set-up, as `Mat2` matrices: Ue, Re, del1 per station; u(i, jmax-1) = Ue[i], u(i, 0) = 0, u(i, j) = 0 for i >= 1 and j < jmax-1; station 0 has the profile; v by the recurrence to jmax-2, with v(0, jmax-1) = 0. |

## Left out

- Console output, CGNS output, timing and the `dep_main`/`timeit` harness (`src/ludwig/temp.cpp:83-88`, `139-176`; `src/ludwig/solver/tdma.h:11-12`; `src/main.cpp:34-40`, `69-93`). They are I/O and measurement only.
- The demonstration matrix at the end of main.cpp (`src/main.cpp:76-93`). It fills and prints an unrelated 10 x 10 `Mat2`.
- Floating-point rounding, infinities and NaN. The model works over exact reals. Where the source would divide by zero, the march stops with `Undefined(i)` rather than carrying on with infinities.
- `pow(r, 0.5)` is a parameter `sqrt`. `IsSqrt` states that it is a square root where a lemma needs that.
- Raw memory: `new`/`delete`, `memset`/`memcpy`, aliasing and the double free of `Mat2` (which has no copy constructor). Buffers are immutable values, so "independent storage" is value semantics.
- `operator=` of `Matrix` (`src/ludwig/types/matrix.h:97-108`): it is a plain value copy, the same as `Matrices.FromBuffer` of the whole buffer.
- Matrix-times-matrix `operator*` (`src/ludwig/types/matrix.h:237-247`). It reads the non-existent member `rhs.di1`, so it cannot be instantiated.
- `Vector` operators that are declared but never defined (`src/ludwig/types/vector.h:69-86`), and the undefined `Tensor` constructors (`src/ludwig/types/tensor.h:19-22`).
- `Vec3` and `Vec4` (`src/ludwig/types/vector.h`), which have no operations.
- `src/ludwig/types/array.h`, `src/ludwig/flow/flowfield.h` and `src/ludwig/mesh/geometry.h` are not part of this model. Their sizes are always 0, or they declare only structs over types that are not shown.
- `Spacing.Linspace`: requires n != 1. For n = 1 the source divides by zero: (end - start) / 0.
- `Thomas.Solve`: also requires the `int` loop counters to reach m - 2, and m >= 2 (the sweep reads A(0, 1) and row m - 2).
- `Tdma.SolveTdma`: requires x.size >= m (x is not resized). Its b is a column matrix. `solve::TDMA` at `src/ludwig/temp.cpp:120` is not defined in the files modelled; it is bound to this solver, with b as a length jmax-2 column and c starting as zeros.
- `Station.Alphas`: uses deltay for dy[j-1] and dy[j]. `BoundaryLayer.GridOf` proves every dy entry is deltay, so this is the same value.
- `Temp.Step`: the `int`/`u32` counters of the station loops are not modelled separately. `Station.Marchable` bounds jmax so that they do not wrap.
- `BoundaryLayer.SetUp`: takes the last row of the v loop, vLast, as a parameter. temp.cpp uses jmax-1 and main.cpp jmax-2.
- `MainSetup.MainRun`: requires `IsSqrt(sqrt)`, through which `BoundaryLayer.PhysicalDefined` shows that main.cpp's divisions are defined. The source itself checks nothing.
- `CoreTypes.Mat1Fill`: requires s < 2^31. The fill loop counts with an `int` (`src/ludwig/core/types.h:31`), which overflows, undefined behaviour, before it reaches a larger size.
- `CoreTypes.Mat2Fill`: requires the wrapped r * c below 2^31, for the same `int` counter (`src/ludwig/core/types.h:68`).
- `BoundaryLayer.GridOf`: `vk::linspace` at `src/ludwig/temp.cpp:49-50` is not defined in the files modelled; it is bound to `ludwig::linspace` (`Spacing.Linspace`), whose `std::vector` result is read as the `Vector` that temp.cpp declares.
- `Matrices.Determinant`: the template as written cannot be instantiated. It takes a `const Matrix<T>` (`src/ludwig/types/matrix.h:266`) and calls the non-const `SubMatrix` on it (line 279, declared at line 157), and its only test is commented out. It is modelled as if the call compiled.
- `CoreTypes.Mat1Alloc` and `CoreTypes.Mat2Alloc`: the unspecified contents of `new T[size]` are a `contents` parameter. Any contents are allowed.

## Findings

| source | as written | input that shows it | evidently intended | confidence | as-written member | corrected member |
|---|---|---|---|---|---|---|
| src/ludwig/types/matrix.h:229-235 | `s - M` copies M and applies `-= s`, giving M - s | s = 5, M = [1]: result [-4] | s minus each element: [4] | not executed | Matrices.ScalarSub, Matrices.ScalarSubIsMatrixMinusScalar | Matrices.ScalarSubCorrected, Matrices.ScalarSubCorrectedComplements |
| src/ludwig/types/matrix.h:265-285 | a 1 x 1 matrix falls through to the expansion, whose one term multiplies by the determinant of the 0 x 0 minor, which is 0 | M = [5]: result 0 | the element itself, 5 | not executed | Matrices.Determinant, Matrices.DeterminantOfOneByOneIsZero | Matrices.DeterminantCorrected, Matrices.IdentityDeterminant |
