# Numeraire, modelled in Dafny

Numeraire is a pricing and risk engine for an equity book: it calibrates correlated price dynamics, bootstraps a
discount curve, prices options on a lattice, simulates exposures along paths, and keeps a ledger of trades with daily
marks and profit and loss. This project states what that code computes, in Dafny, and proves the properties it
relies on. Code that overwrites arrays, objects or tables is written as methods over `array2`, `array3`, classes and
table-valued fields; every such method is proved against a specification about which the theorems are then proved.

The modules follow the program:

- `Reals`, `Sums`, `Matrices`, `Sorting`, `Options`, `Dates`: exact arithmetic, finite sums, matrices, the library sort.
- `Rotations`, `Jacobi`, `Spectral`, `Frobenius`, `Nearness`, `NearestCorrelation`: the eigen-rotations, the spectral
  projection and the correlation repair; `RepairTheory`, `PairRepair`, `IndefiniteRepair`: what the repair promises, and
  what it cannot mend.
- `Cholesky`, `DefiniteFactor`, `Correlation`, `PriceHistory`, `Calibrator`, `CalibrationStore`: factorisation, sample
  correlations, the calibration that chains them, and its stored rows; `CalibrationTheory`: when it cannot fail.
- `Lattice`, `OptionTheory`, `OptionPrices`, `Greeks`: the Cox-Ross-Rubinstein buffer against the full tree, and the
  option theory that holds on it.
- `ZeroCurve`, `FixedIncome`, `SwapSolver`, `CurveBootstrap`: interpolation, cash-flow values, bisection and bootstrap.
- `NormalRandom`, `GbmEvolution`, `TimeGrid`, `OrderStatistics`, `Comonotone`, `Exposure`: random numbers, paths, the date
  grid, and exposure metrics.
- `LegPv`, `MarkSeries`, `MtmRepository`, `TradeLedger`, `MirroredLedger`: the ledger and its marks.
- `ImpliedVol`, `VolSurface`, `VolSurfaceTheory`, `VolSurfaceLines`: volatility inversion and lookup.

Doubles are exact reals and the program's tolerances are named constants. `exp`, `log` and `sqrt` are parameters known
only by laws true of the exact functions (`Reals.Elementary.Lawful`): the sum law and the tangent bound for `exp`, `log` as its
inverse, `sqrt` as the non-negative root. `cos` and `sin` are known by the identity of their squares, their
addition laws, and their values at zero and at a right angle. Dates are day
numbers with Act/365 fractions. Exceptions and NaN results are failure values.

Where the code and its documentation differ, the model follows the code:

- The repaired correlation matrix is documented as positive semidefinite; the code resets the diagonal after the last
  projection and only checks that no eigenvalue estimate is below -1e-8, so it can answer `Ok` with a matrix that is not
  (`PairRepair.OkNotPsd`). It alternates plain projections, without the correction term of Higham's method, and those never
  reach a correlation matrix from outside: the answer is positive semidefinite exactly when the input was, its diagonal
  reset (`PairRepair.PairRepaired` for two factors, `IndefiniteRepair.ExactRepair` where decompositions are exact).
- The Jacobi limit of 200 counts single rotations, so a large matrix may be left with a residue; every bound here
  carries the residue that limit allows (`RepairTheory.ResidueLeft`), which is negligible up to three factors.
- Inputs count as symmetric to 1e-10. Similarity and factor reproduction are stated for exactly symmetric matrices,
  which is what the calibrator builds.
- `iterations` is one more than the passes made when the repair runs out of them.
- `LookupPriorOfficialMark` looks up the prior mark of the same engine, official or not.
- The implied-volatility solver rejects prices below the undiscounted intrinsic value, although the European model
  can itself produce them (`ImpliedVol.RoundTrip`, `ImpliedVol.DeepPutRefused`).
- The minimum horizon of the exposure grid never adds or removes a date (`TimeGrid.HorizonKeeps`).

## Model

| member | source | states |
|---|---|---|
| Rotations.AngleAnnihilates | src/quant/nearest_correlation.cpp:92-98 | The tangent, cosine and sine the code computes lie on the unit circle and solve the equation that makes entry (p, q) vanish. |
| Rotations.SmallestAngle | src/quant/nearest_correlation.cpp:92-98 | Of the angles that annihilate the pivot the code computes the one that turns by at most an eighth of the circle, and forwards where the diagonal entries are equal. |
| Rotations.RotatedSymmetric | src/quant/nearest_correlation.cpp:100-115 | A rotated symmetric matrix is symmetric. |
| Rotations.TurnKeepsRows | src/quant/nearest_correlation.cpp:117-122 | Turning two columns of V keeps its rows orthonormal. |
| Rotations.TurnKeepsCols | src/quant/nearest_correlation.cpp:117-122 | Turning two columns of V keeps its columns orthonormal. |
| Rotations.RotationKeepsForm | src/quant/nearest_correlation.cpp:92-115 | The rotated matrix on turned vectors has the bilinear form of the matrix before. |
| Rotations.RotationKeepsConjugation | src/quant/nearest_correlation.cpp:92-122 | If A = V M V^T before a rotation, then A = V' M' V'^T after it. |
| Rotations.RotationShrinksOff | src/quant/nearest_correlation.cpp:92-115 | Each rotation lowers the off-diagonal sum of squares by exactly 2 apq^2. |
| Rotations.LargestPivotContracts | src/quant/nearest_correlation.cpp:75-115 | On the largest pivot the sum shrinks at least by the factor 1 - 2/(n(n-1)). |
| Jacobi.LargestOffDiagonal | src/quant/nearest_correlation.cpp:75-87 | Finds the first largest absolute entry above the diagonal, and zero when there is none. |
| Jacobi.RotateInPlace | src/quant/nearest_correlation.cpp:100-115 | Overwriting m entry by entry leaves exactly the rotation of the matrix it held. |
| Jacobi.TurnInPlace | src/quant/nearest_correlation.cpp:117-122 | Overwriting two columns of v leaves exactly the turned matrix. |
| Jacobi.AnnihilatingAngle | src/quant/nearest_correlation.cpp:92-98 | The computed angle annihilates the pivot for every nonzero pivot. |
| Jacobi.RotationKeepsSimilar | src/quant/nearest_correlation.cpp:74-123 | One step keeps V orthogonal, M symmetric and A = V M V^T, and contracts the residue once more. |
| Jacobi.PivotUnique | src/quant/nearest_correlation.cpp:75-87 | There is one first largest entry above the tolerance, so the rotations are determined by the matrix. |
| Jacobi.RotationSound | src/quant/nearest_correlation.cpp:74-123 | One rotation keeps V orthogonal and, for a symmetric input, similarity and the contraction of the residue. |
| Jacobi.Sweep | src/quant/nearest_correlation.cpp:74-123 | One pass of the loop rotates on the pivot exactly when some off-diagonal entry exceeds 1e-12, and otherwise changes nothing. |
| Jacobi.SymmetricEigenJacobi | src/quant/nearest_correlation.cpp:65-128 | The rotations in place compute the decomposition that rotating on successive pivots, at most 200 times, defines. |
| Jacobi.EigenSound | src/quant/nearest_correlation.cpp:65-128 | Of that decomposition: V is orthogonal for every input; for a symmetric input A = V D V^T and the residue is contracted once per rotation; fewer than 200 rotations are made only if D is diagonal to 1e-12. |
| Spectral.SpectralForm | src/quant/nearest_correlation.cpp:136-147 | A sum of weighted eigenvector products has, in V's coordinates, the form of its weights. |
| Spectral.SpectralPsd | src/quant/nearest_correlation.cpp:136-147 | Non-negative weights make the sum positive semidefinite. |
| Nearness.ClippedIsNearest | src/quant/nearest_correlation.cpp:130-148 | Clipping a spectrum at zero gives the closest positive semidefinite matrix in the Frobenius norm. |
| Nearness.ResidueDistance | src/quant/nearest_correlation.cpp:130-148 | The distance between a matrix and its spectral reconstruction is exactly the residue the rotations left. |
| Nearness.ClippingContracts | src/quant/nearest_correlation.cpp:130-148 | Clipping a spectrum moves a matrix no farther from any positive semidefinite matrix. |
| Frobenius.FrobeniusCauchySchwarz | src/quant/nearest_correlation.cpp:46-56 | The Cauchy-Schwarz inequality of the Frobenius inner product. |
| Frobenius.DistancesAdd | src/quant/nearest_correlation.cpp:46-56 | The triangle inequality of the distance the iteration measures its steps with. |
| Frobenius.FormNearby | src/quant/nearest_correlation.cpp:198-208 | Matrices within t of each other have quadratic forms within t times the squared length. |
| Nearness.RayleighBound | src/quant/nearest_correlation.cpp:162-167 | Eigenvalue estimates of at least -t bound the whole quadratic form below by -t less the length of the residue. |
| NearestCorrelation.SymmetricFinite | src/quant/nearest_correlation.cpp:24-44 | Accepts exactly the non-empty square matrices symmetric to 1e-10. |
| NearestCorrelation.FrobeniusDiff | src/quant/nearest_correlation.cpp:46-56 | The root of the sum of squared differences. |
| NearestCorrelation.SumEigenvectors | src/quant/nearest_correlation.cpp:136-147 | The accumulation loops compute the spectral matrix of the clipped eigenvalues, skipped terms included. |
| NearestCorrelation.ProjectPsdSpectral | src/quant/nearest_correlation.cpp:130-148 | Computes the projection: the spectral sum of the decomposition with negative estimates set to zero. |
| RepairTheory.ProjectionIsPsd | src/quant/nearest_correlation.cpp:130-148 | The projection of every input, symmetric or not, is symmetric and positive semidefinite. |
| RepairTheory.ProjectionApproaches | src/quant/nearest_correlation.cpp:130-148 | Projecting a symmetric matrix takes it no farther from any positive semidefinite one than the residue its rotations left. |
| NearestCorrelation.IsCorrelationMatrix | src/quant/nearest_correlation.cpp:150-169 | Accepts exactly near symmetry, a near-unit diagonal and no eigenvalue estimate below -1e-8. |
| RepairTheory.AcceptedForm | src/quant/nearest_correlation.cpp:150-169 | An accepted symmetric matrix has a form of at least -1e-8 less the residue of its decomposition. |
| RepairTheory.EigenvaluesAbove | src/quant/nearest_correlation.cpp:162-167 | No eigenvalue estimate lies below the least value of the form on unit vectors. |
| RepairTheory.ResidueLeft | src/quant/nearest_correlation.cpp:74-123 | After the rotations the residue is at most n 1e-12 plus the off-diagonal length times (1 - 2/(n(n-1)))^100, whatever the matrix. |
| PairRepair.PairPass | src/quant/nearest_correlation.cpp:188-192 | One pass on a two-factor matrix, in closed form: correlations are kept, and entries beyond one pulled halfway back. |
| PairRepair.PairRepaired | include/numeraire/quant/nearest_correlation.hpp:18-29 | For two factors the documented result, positive semidefinite, is returned exactly when the entry above the input diagonal lies in [-1, 1]. |
| PairRepair.OkNotPsd | include/numeraire/quant/nearest_correlation.hpp:18-32 | With the default settings a pair correlated at 1 + 1e-8 is answered Ok with a matrix that is not positive semidefinite. |
| RepairTheory.RepairEnds | src/quant/nearest_correlation.cpp:187-202 | Every answer is the last iterate, which is positive semidefinite, with its diagonal reset, and is itself positive semidefinite if no diagonal entry of that iterate exceeded one. |
| RepairTheory.DefiniteStaysPsd | include/numeraire/quant/nearest_correlation.hpp:18-29 | For any number of factors a correlation matrix definite by at least the residue the limits allow is answered with a positive semidefinite matrix. |
| IndefiniteRepair.PassKeepsIndefinite | src/quant/nearest_correlation.cpp:188-192 | A pass lifts a negative direction to zero only by raising the diagonal above one, so resetting the diagonal sinks it again: indefinite stays indefinite, but for the residue. |
| IndefiniteRepair.ExactRepair | include/numeraire/quant/nearest_correlation.hpp:18-29 | For any number of factors, where the rotations leave no residue the answer is positive semidefinite exactly when the input is, its diagonal reset. |
| IndefiniteRepair.IndefiniteStays | include/numeraire/quant/nearest_correlation.hpp:18-29 | With residues, an input indefinite by more than they can hide over the passes made is answered with a matrix that is not positive semidefinite. |
| RepairTheory.ResetKeepsPsd | src/quant/nearest_correlation.cpp:198 | Raising a diagonal to one keeps a matrix positive semidefinite. |
| RepairTheory.ResetCloser | src/quant/nearest_correlation.cpp:188-191 | Resetting the diagonal moves a matrix closer to every unit-diagonal matrix. |
| RepairTheory.PassApproaches | src/quant/nearest_correlation.cpp:188-192 | No pass moves an iterate away from any correlation matrix by more than the residue its rotations left. |
| RepairTheory.RepairStaysNear | src/quant/nearest_correlation.cpp:173-210 | The result is as near every correlation matrix as the input was, but for the residues of the passes made, which are within what the rotation limit allows. |
| RepairTheory.CorrelationUnmoved | src/quant/nearest_correlation.cpp:173-210 | When the residue the rotations can leave is within the tolerance and 1e-8, a genuine correlation matrix is Ok after one pass and moves by at most that residue. |
| RepairTheory.ThreeFactorsSettle | src/quant/nearest_correlation.cpp:74-89 | Up to three factors that residue is at most 1e-10. |
| NearestCorrelation.Alternate | src/quant/nearest_correlation.cpp:188-192 | One pass: the projection of the iterate with its diagonal reset, and the length of the step. |
| RepairTheory.RepairShape | src/quant/nearest_correlation.cpp:173-210 | The status partition, exact symmetry and unit diagonal of every accepted input, the iteration count (one more than the passes on exhaustion), and what Ok stands for. |
| RepairTheory.OkForm | src/quant/nearest_correlation.cpp:198-208 | Ok bounds the form of the result from below by -1e-8 less the residue of the last decomposition. |
| NearestCorrelation.NearestCorrelationHigham | src/quant/nearest_correlation.cpp:173-210 | Status, matrix, iteration count and last step are those of the alternating projections from the input, on every input. |
| Cholesky.IsMatrixValid | src/quant/cholesky.cpp:19-45 | Accepts exactly the non-empty square matrices with near-unit diagonal, near symmetry and entries near [-1, 1]. |
| Cholesky.PartialCompletes | src/quant/cholesky.cpp:59-80 | A completed fill is a factor, and no other lower factor exists. |
| Cholesky.FillEntry | src/quant/cholesky.cpp:60-78 | Each entry either extends the unique partial factor or shows that the matrix has none. |
| Cholesky.CholeskyDecompose | src/quant/cholesky.cpp:49-85 | Ok exactly for the valid matrices that have a lower factor with squared pivots above 1e-12, and then it returns that unique factor. |
| Cholesky.PivotPositive | src/quant/cholesky.cpp:72-76 | The off-diagonal zero-pivot exit is unreachable: every earlier pivot exceeds the tolerance. |
| Cholesky.FactorReproduces | src/quant/cholesky.cpp:49-85 | For an exactly symmetric matrix L L^T equals the matrix everywhere. |
| Cholesky.FactorIsPsd | src/quant/cholesky.cpp:49-85 | A factored symmetric matrix is positive semidefinite. |
| DefiniteFactor.PivotIsForm | src/quant/cholesky.cpp:60-74 | What is left of a pivot is the value of the form on a vector of length at least one. |
| DefiniteFactor.DefiniteHasFactor | src/quant/cholesky.cpp:49-85 | Every symmetric matrix whose form is at least t times the squared length, for some t above 1e-12, has a factor with pivots above the tolerance, and so is factored when valid. |
| Cholesky.ApplyLowerTriangular | src/quant/cholesky.cpp:87-99 | out = L in, row by row; mismatched sizes leave out as it was. |
| Cholesky.LowerImageIsWhole | src/quant/cholesky.cpp:94-96 | Stopping each row at the diagonal loses nothing: the truncated sums are the full product with L. |
| Cholesky.ReconstructFromLower | src/quant/cholesky.cpp:101-117 | Entry (i, j) is the sum of products up to min(i, j). |
| Cholesky.RoundTrip | src/quant/cholesky.cpp:49-117 | Reconstructing from the factor of a symmetric matrix returns the matrix. |
| Correlation.PearsonCorrelation | src/simulation/historical_calibrator.cpp:84-104 | The coefficient of the centred sums, and zero for short, mismatched or unmoving series. |
| Correlation.PearsonBounded | src/simulation/historical_calibrator.cpp:84-104 | The coefficient lies in [-1, 1] for every pair of series. |
| Correlation.PearsonSymmetric | src/simulation/historical_calibrator.cpp:84-104 | Swapping the series does not change it. |
| Correlation.PearsonIsDot | src/simulation/historical_calibrator.cpp:84-104 | It is the inner product of the standardised series. |
| Correlation.DeviationsCancel | src/simulation/historical_calibrator.cpp:61-70 | The differences of a series from its mean cancel. |
| Correlation.PearsonOfScaled | src/simulation/historical_calibrator.cpp:84-104 | Scaling and shifting a moving series leaves its coefficient with every other series, up to the sign of the scale. |
| Correlation.PearsonOfLine | src/simulation/historical_calibrator.cpp:84-104 | A moving series correlates with itself at one, and with a rising or falling line of itself at one or minus one. |
| Correlation.SampleCorrelation | src/simulation/historical_calibrator.cpp:212-220 | The filled matrix holds one on the diagonal and the pairwise coefficient off it, mirrored. |
| Correlation.SampleIsCorrelation | src/simulation/historical_calibrator.cpp:212-220 | The sample matrix is symmetric, has unit diagonal and entries in [-1, 1], and is positive semidefinite even with constant series. |
| PriceHistory.CloseOnDate | src/simulation/historical_calibrator.cpp:24-32 | The first bar on the date. |
| PriceHistory.CommonDates | src/simulation/historical_calibrator.cpp:34-59 | Exactly the dates every factor has a bar for, ascending; missing exactly when a factor has no history. |
| PriceHistory.AlignReturns | src/simulation/historical_calibrator.cpp:161-195 | Succeeds exactly when every factor has a positive close on every common date, and then gives every log return. |
| PriceHistory.ReturnsCompound | src/simulation/historical_calibrator.cpp:178-194 | A factor's returns compound to its close on any common date over its first. |
| Calibrator.SampleStdev | src/simulation/historical_calibrator.cpp:72-82 | The root of the scatter about the given mean over one less than the count; zero below two values. |
| Calibrator.Volatilities | src/simulation/historical_calibrator.cpp:205-210 | The squared volatility times one less than the number of returns is the number of annualisation days times the sum of squared distances from the mean; zero below two returns. |
| Calibrator.VolatilityScales | src/simulation/historical_calibrator.cpp:205-210 | A series has one volatility for a number of annualisation days, and for two numbers its squares are in their ratio. |
| Calibrator.SpotsOn | src/simulation/historical_calibrator.cpp:143-154 | The closes on the valuation date, or the reason the first factor without a positive one gives. |
| Calibrator.ShrinkOffDiagonal | src/simulation/historical_calibrator.cpp:236-242 | Every off-diagonal entry is scaled by 1 - 1e-8 and the diagonal kept. |
| Calibrator.RepairAndFactor | src/simulation/historical_calibrator.cpp:222-252 | Ends as the shrink-and-repair attempts from the sample end; after any number of them the returned pair satisfies L L^T = correlation with exact unit diagonal. |
| CalibrationTheory.CalibrationNearSample | src/simulation/historical_calibrator.cpp:222-252 | Whatever the number of shrinks, the correlation returned is as near the sample matrix as the residues of the repairs made and the shrinks between them leave it; an a-priori bound from the limits alone goes with it, which says something only for few factors. |
| CalibrationTheory.SettledCalibration | src/simulation/historical_calibrator.cpp:222-252 | When the residue of the rotations is at most 1e-9, repair and factorisation of a genuine correlation matrix always succeed, after at most one shrink, near the sample. |
| CalibrationTheory.SmallBooksCalibrate | src/simulation/historical_calibrator.cpp:222-252 | Up to three factors neither repair nor factorisation can fail, and the result is within 4e-8 of the sample correlations. |
| Calibrator.CommonAreQuoted | src/simulation/historical_calibrator.cpp:156-181 | A close missing on a common date is one that is not positive, and where every factor has its spot the valuation date is a common date. |
| Calibrator.CalibrateFromPriceHistory | src/simulation/historical_calibrator.cpp:131-254 | End to end: the exact condition of every failure, and on success the closes of the valuation date, the volatilities of the aligned returns, and the repaired and factored sample correlations. |
| CalibrationStore.ToCorrelationWrites | src/simulation/historical_calibration_eod_builder.cpp:71-86 | One row per upper-triangle cell, in order. |
| CalibrationStore.ToCholeskyWrites | src/simulation/historical_calibration_eod_builder.cpp:88-103 | One row per lower-triangle cell, in order. |
| CalibrationStore.ReconstructCorrelationMatrix | src/database/historical_calibration_eod_read.cpp:13-24 | Each cell is the last value a row wrote to it or to its mirror, and zero if none did. |
| CalibrationStore.ReconstructCholeskyFactor | src/database/historical_calibration_eod_read.cpp:26-37 | Each cell is the last value a row wrote to it, and zero if none did. |
| CalibrationStore.CorrelationRoundTrip | src/database/historical_calibration_eod_read.cpp:13-24 | Written rows read back in any order restore a symmetric matrix. |
| CalibrationStore.FactorRoundTrip | src/database/historical_calibration_eod_read.cpp:26-37 | Written rows read back in any order restore a lower-triangular factor. |
| CalibrationStore.LoadCalibration | src/database/historical_calibration_eod_read.cpp:13-37 | Storing and loading a coherent pair gives the same pair. |
| Lattice.StepOf | src/quant/cox_ross_rubinstein.cpp:59-67 | For positive time and volatility u > 1, u d = 1, and the clamped probability lies in [0, 1]. |
| Lattice.LogVariance | src/quant/cox_ross_rubinstein.cpp:58-60 | The squared logarithm of the up-move times the number of steps is the squared volatility times the expiry, and the up-move exceeds one. |
| Lattice.SpotUp | src/quant/cox_ross_rubinstein.cpp:73-80 | Multiplying by u/d moves the running spot from one tree node to the next. |
| Lattice.FillPayoffs | src/quant/cox_ross_rubinstein.cpp:75-81 | The first pass fills the buffer with the payoffs of the tree's last row. |
| Lattice.RollBack | src/quant/cox_ross_rubinstein.cpp:83-98 | Overwriting the live prefix in place turns one row of node values into the row before it. |
| Lattice.CoxRossRubinsteinVanillaPrice | src/quant/cox_ross_rubinstein.cpp:28-101 | The in-place buffer with its running spot returns the root of the two-dimensional tree, in every branch. |
| Lattice.CoxRossRubinsteinVanillaTree | src/quant/cox_ross_rubinstein.cpp:103-212 | The tree's root value is the scalar price for all inputs; where a lattice is built every node is listed once, by step and up-moves, with its spot, intrinsic value, continuation, value and exercise flag. |
| Lattice.FillRow | src/quant/cox_ross_rubinstein.cpp:166-191 | Each row of values, continuations and intrinsics is the tree's row. |
| Lattice.NodeCount | include/numeraire/quant/cox_ross_rubinstein.hpp:24-25 | The list has (n+1)(n+2)/2 nodes. |
| Lattice.ListExplains | src/quant/cox_ross_rubinstein.cpp:164-210 | In the listed tree each spot is followed by its two moves, each continuation is the discounted mean of the two values that follow, each value is the better of it and an allowed exercise, and the last row holds payoffs. |
| Lattice.ListStarts | src/quant/cox_ross_rubinstein.cpp:193-210 | The first node listed has the spot asked for and the root's value. |
| OptionTheory.NodeIsValueToGo | src/quant/cox_ross_rubinstein.cpp:177-191 | A node's value depends on its place only through its spot and the steps to go. |
| OptionTheory.ValueConvex | src/quant/cox_ross_rubinstein.cpp:83-98 | Every node value is midpoint convex in the spot, with or without early exercise. |
| OptionTheory.ValueMonotone | src/quant/cox_ross_rubinstein.cpp:83-98 | Every call value rises and every put value falls with the spot. |
| OptionTheory.ValueLipschitz | src/quant/cox_ross_rubinstein.cpp:83-98 | When a discounted step does not grow the spot, no value moves faster than the spot. |
| OptionTheory.ValueParity | src/quant/cox_ross_rubinstein.cpp:92-97 | Call less put at every node is the carried spot less the discounted strike. |
| OptionTheory.MeanIsGrowth | src/quant/cox_ross_rubinstein.cpp:62-66 | The clamped probability reproduces the growth factor exactly when d <= growth <= u. |
| OptionTheory.AmericanBoundsStopping | src/quant/cox_ross_rubinstein.cpp:84-91 | No exercise policy, whatever it remembers of the path, is worth more than the American value. |
| OptionTheory.GreedyAttains | src/quant/cox_ross_rubinstein.cpp:84-91 | Exercising when intrinsic is at least continuation attains it. |
| OptionTheory.CallWaits | src/quant/cox_ross_rubinstein.cpp:84-91 | When waiting does not lose carried spot, a call's continuation is at least its intrinsic value at every node. |
| OptionPrices.PutCallParity | src/quant/cox_ross_rubinstein.cpp:46-100 | European put-call parity holds for every number of steps exactly when the probability was not clamped, or volatility is not positive. |
| OptionPrices.PriceIsTreeOf | src/quant/cox_ross_rubinstein.cpp:58-100 | The price is the root of the tree over the one step with the volatility's log-variance, a down-move undoing the up-move, the growth and discount of the rates over the whole life, and the probability clamped to its ratio. |
| OptionPrices.CertainPrice | src/quant/cox_ross_rubinstein.cpp:46-56 | Without volatility a call is worth the carried spot less the discounted strike where positive, a put the opposite, and an American option no less than intrinsic. |
| OptionPrices.EuropeanBounds | src/quant/cox_ross_rubinstein.cpp:58-100 | With an unclamped probability a European call lies between its forward value or nothing and the carried spot, a put between the opposite and the discounted strike. |
| OptionPrices.ParityAtExpiry | src/quant/cox_ross_rubinstein.cpp:40-45 | Without time or steps call less put is spot less strike. |
| OptionPrices.PayoffsSplit | src/quant/cox_ross_rubinstein.cpp:10-15 | A call and a put pay the whole distance from the strike between them, a call exactly above it and a put exactly below. |
| OptionPrices.AmericanDominates | src/quant/cox_ross_rubinstein.cpp:37-100 | In every branch the American price is at least the European price and the intrinsic value. |
| OptionPrices.AmericanIsBestStopping | src/quant/cox_ross_rubinstein.cpp:83-100 | The American price is the greatest value over all exercise policies, and is attained. |
| OptionPrices.NoEarlyExercise | src/quant/cox_ross_rubinstein.cpp:195-208 | With a non-negative rate no American call tree ever flags early exercise exactly when the discounted step does not lose spot; without dividends, exactly when growth <= u. |
| OptionPrices.AmericanCallIsEuropean | src/quant/cox_ross_rubinstein.cpp:37-100 | Without dividends and with a non-negative rate the American call price is the European one in every branch, where a lattice is built if growth <= u. |
| OptionPrices.EuropeanPutBelowBond | src/quant/cox_ross_rubinstein.cpp:37-100 | A European put costs at most its discounted strike, whatever the volatility. |
| OptionPrices.DeepPutPositive | src/quant/cox_ross_rubinstein.cpp:72-98 | A European put struck above the highest spot of the lattice has a positive price. |
| Greeks.PriceConvex | src/quant/cox_ross_rubinstein.cpp:28-101 | The price is midpoint convex in the spot in every branch. |
| Greeks.PriceMonotone | src/quant/cox_ross_rubinstein.cpp:28-101 | The price is monotone in the spot in every branch. |
| Greeks.PriceLipschitz | src/quant/cox_ross_rubinstein.cpp:28-101 | Without negative dividends and with the probability not clamped at zero, the price moves no faster than the spot in every branch. |
| Greeks.GreeksAreQuotients | src/pricers/binomial_black_scholes_equity_pricer.cpp:100-128 | The two bumped prices are the price plus or minus h delta plus half h squared gamma; vega, rho and theta carry the price across their bumps, and vega and theta are zero where nothing is bumped. |
| Greeks.BumpOf | src/pricers/binomial_black_scholes_equity_pricer.cpp:100-100 | The bump is a ten-thousandth of every spot from a ten-thousandth up, and the same least amount below it. |
| Greeks.DeltaAndGammaSigns | src/pricers/binomial_black_scholes_equity_pricer.cpp:98-104 | Bumped call deltas and gammas are never negative; for puts delta <= 0 and gamma >= 0 hold exactly when the spot exceeds 1e-8 or the option is worthless. |
| Greeks.DeltaBounded | src/pricers/binomial_black_scholes_equity_pricer.cpp:100-103 | The bumped delta is at most one in size under the same carry condition. |
| Greeks.TinySpotPut | src/pricers/binomial_black_scholes_equity_pricer.cpp:100-104 | Below the bump floor an American put struck above the bumped spot reports a positive delta and a negative gamma. |
| ZeroCurve.SearchCurve | src/quant/discount_curve_bootstrap.cpp:45-65 | The tolerance-laden search loop computes the first matching segment's line, flat outside. |
| ZeroCurve.InterpolateZeroRateLinear | src/quant/discount_curve_bootstrap.cpp:35-66 | The solver's lookup on the solved pillars and the candidate. |
| ZeroCurve.InterpolateZeroRateAtTime | src/quant/discount_curve_bootstrap.cpp:204-240 | The finished curve's lookup; zero on an empty curve. |
| ZeroCurve.ZeroAtNode | src/quant/discount_curve_bootstrap.cpp:219-239 | On pillars further apart than the tolerance the lookup is exact at every pillar. |
| ZeroCurve.SegmentIsLine | src/quant/discount_curve_bootstrap.cpp:45-65 | Strictly inside a segment the rate lies on the straight line through the segment's two nodes. |
| ZeroCurve.MiddleIsMean | src/quant/discount_curve_bootstrap.cpp:45-65 | The rate at the middle of two dates of one segment is the mean of their rates. |
| ZeroCurve.FlatAtEnds | src/quant/discount_curve_bootstrap.cpp:45-50 | Before the first node and from the last on the curve is flat. |
| ZeroCurve.LaterPillarsKeepRates | src/quant/discount_curve_bootstrap.cpp:35-66 | Appending later pillars never changes a rate before the last pillar's tolerance. |
| ZeroCurve.ZeroMoves | src/quant/discount_curve_bootstrap.cpp:45-63 | Raising the last pillar's rate raises every earlier interpolated rate, and by no more. |
| FixedIncome.FixedCouponBondPv | src/quant/fixed_income_pricing.cpp:51-69 | The loop computes the sum of amounts times discount factors, undefined exactly when the sum is. |
| FixedIncome.FactorCompounds | src/quant/discount_curve_bootstrap.cpp:154-163 | The logarithm of a discount factor is the zero rate times the time, negated. |
| FixedIncome.OneFlow | src/quant/fixed_income_pricing.cpp:58-67 | A single flow is worth its amount times the factor of its date. |
| FixedIncome.FlowsAdd | src/quant/fixed_income_pricing.cpp:58-67 | The values of two lists of flows add. |
| FixedIncome.FraReplicates | src/quant/fixed_income_pricing.cpp:83-102 | Paid at its end, a forward-rate agreement is worth a unit at the end with fixed interest less a unit at the start. |
| FixedIncome.FraPaidElsewhere | src/quant/fixed_income_pricing.cpp:88-102 | Paid on another date, the value changes in the ratio of that date's factor to the end's. |
| FixedIncome.FraIsFair | src/quant/fixed_income_pricing.cpp:28-105 | A forward-rate agreement is worth zero exactly at the rate carrying one discount factor to the other, or on no notional, whatever the payment date. |
| SwapSolver.SemiAnnualCouponTimes | src/quant/discount_curve_bootstrap.cpp:77-88 | Half-year dates up to the rounded number of periods; none when it is not positive. |
| SwapSolver.PeriodsNearest | src/quant/discount_curve_bootstrap.cpp:79-79 | The number of periods is the maturity in half years to the nearest whole number. |
| SwapSolver.CouponsBeforeMaturity | src/quant/discount_curve_bootstrap.cpp:77-103 | Every coupon before the last falls at least a quarter year before maturity. |
| SwapSolver.SwapParPricingError | src/quant/discount_curve_bootstrap.cpp:90-108 | The accumulated value less par; undefined exactly without coupon dates. |
| SwapSolver.ParErrorMoves | src/quant/discount_curve_bootstrap.cpp:90-108 | The par error falls strictly in the candidate rate, although interpolated coupons move with it, and at a bounded speed. |
| SwapSolver.ParRateUnique | src/quant/discount_curve_bootstrap.cpp:90-108 | At most one candidate gives a swap any particular value. |
| SwapSolver.ParErrorAtZero | src/quant/discount_curve_bootstrap.cpp:114-122 | At a zero rate a swap is above par by at least its coupon, and exactly at par when it pays none. |
| SwapSolver.SolveSwapZeroRate | src/quant/discount_curve_bootstrap.cpp:110-152 | InvalidInputs exactly without coupon dates; a solved rate lies in [0, 1] and prices the swap within 1e-8; failure exactly when the largest rate still leaves a positive quote at or above par, for every quote tame enough for 120 halvings. |
| SwapSolver.TameInPractice | src/quant/discount_curve_bootstrap.cpp:129-151 | Every maturity up to 1000 years and quote up to 1000 is tame. |
| CurveBootstrap.QuotesSortedByTenor | src/quant/discount_curve_bootstrap.cpp:26-33 | Accepts exactly the strictly ascending tenors. |
| CurveBootstrap.DepositIsFair | src/quant/discount_curve_bootstrap.cpp:167-176 | The zero rate of a deposit is not negative and makes its simple interest fair. |
| CurveBootstrap.FutureIsFair | src/quant/discount_curve_bootstrap.cpp:185-202 | The zero rate of a future is not negative and carries the previous factor by the quoted forward. |
| CurveBootstrap.FactorsInUnit | src/quant/discount_curve_bootstrap.cpp:154-163 | Every pillar's discount factor lies in (0, 1]. |
| CurveBootstrap.CouponOffPillar | src/quant/discount_curve_bootstrap.cpp:45-65 | A coupon date coincides with or precedes a pillar date or clears it by more than the tolerance. |
| CurveBootstrap.CouponKeepsFactor | src/quant/discount_curve_bootstrap.cpp:100-103 | On the finished curve a swap's earlier coupons have the discount factors they had when it was solved. |
| CurveBootstrap.SolvedIsRepriced | src/quant/discount_curve_bootstrap.cpp:260-299 | What was solved on a prefix is repriced by the whole curve. |
| CurveBootstrap.SolvePillar | src/quant/discount_curve_bootstrap.cpp:266-290 | Each kind of quote yields a rate satisfying its equation, or the reason it could not. |
| CurveBootstrap.BootstrapDiscountCurve | src/quant/discount_curve_bootstrap.cpp:242-303 | Ok returns one pillar per quote and the finished curve reprices them all: deposits and futures exactly, swaps within 1e-8. Otherwise the pillars returned reprice their quotes and the next quote is the one that failed, with its reason; invalid or unsorted quotes return nothing. |
| CurveBootstrap.BootstrapIsLinear | src/quant/discount_curve_bootstrap.cpp:219-236 | Between neighbouring pillars the rates of a finished bootstrap lie on the straight line through the two pillars. |
| CurveBootstrap.SwapIsPar | src/quant/discount_curve_bootstrap.cpp:100-107 | On a finished curve a swap's half coupons at the factors of its coupon dates and a unit at maturity are within 1e-8 of par. |
| NormalRandom.PairsDisjoint | src/simulation/normal_random.cpp:18-25 | Successive accepted pairs never share a uniform. |
| NormalRandom.BoxMullerInverts | src/simulation/normal_random.cpp:27-30 | The squared length of a pair gives its first uniform back. |
| NormalRandom.BoxMullerStarts | src/simulation/normal_random.cpp:27-30 | At no second uniform the pair lies on the first axis, its square minus twice the logarithm of the first uniform. |
| NormalRandom.BoxMullerTurns | src/simulation/normal_random.cpp:27-30 | Adding a share to the second uniform turns the pair by that share of the circle. |
| NormalRandom.QuarterTurn | src/simulation/normal_random.cpp:27-30 | A quarter added to the second uniform turns the pair by a right angle. |
| NormalRandom.WholeTurn | src/simulation/normal_random.cpp:27-30 | A whole turn of the second uniform brings the pair back. |
| NormalRandom.StandardNormalGenerator.DrawUniforms | src/simulation/normal_random.cpp:18-25 | Pairs whose first uniform is too small are skipped, and exactly those. |
| NormalRandom.StandardNormalGenerator.DrawPair | src/simulation/normal_random.cpp:18-31 | Draws the next accepted pair and turns it into the next two normals of the stream. |
| NormalRandom.StandardNormalGenerator.Next | src/simulation/normal_random.cpp:33-44 | Returns the next element of one fixed normal stream. |
| NormalRandom.StandardNormalGenerator.Fill | src/simulation/normal_random.cpp:46-64 | Fills the buffer with the next consecutive elements of the same stream, spare included. |
| GbmEvolution.TimesIncrease | src/simulation/gbm_evolution.cpp:27-32 | Accepts exactly grids whose steps exceed 1e-12. |
| GbmEvolution.OneFactorAgrees | src/simulation/gbm_evolution.cpp:67-138 | One factor with the unit factor follows the single-factor paths. |
| GbmEvolution.OneFactorBuffersAgree | src/simulation/gbm_evolution.cpp:67-138 | The two simulations write the same one-factor buffer. |
| GbmEvolution.PathsPositive | src/simulation/gbm_evolution.cpp:132-134 | Every simulated spot is positive whatever the normals. |
| GbmEvolution.StepVariance | src/simulation/gbm_evolution.cpp:81-84 | A step's squared noise is the squared volatility times the time, and the drift plus half of it is the carry times the time. |
| GbmEvolution.PathStepIsLogNormal | src/simulation/gbm_evolution.cpp:112-135 | Along every path of the multi-factor simulation the logarithm of the spot moves by the carry less half the step's variance plus the noise times the correlated shock. |
| GbmEvolution.StepsCompose | src/simulation/gbm_evolution.cpp:86-91 | Stepping is exact: the spot is the initial spot carried over the whole elapsed time with the summed noise. |
| GbmEvolution.SilentPathIsForward | src/simulation/gbm_evolution.cpp:78-91 | Without volatility every path is the forward. |
| GbmEvolution.EvolveSingleFactorGbm | src/simulation/gbm_evolution.cpp:67-93 | Accepts exactly the valid inputs, leaves the buffer alone otherwise, and fills each cell with its path's spot, one normal of the stream per step and path. |
| GbmEvolution.EvolveMultiFactorGbm | src/simulation/gbm_evolution.cpp:95-138 | Likewise with each factor's shock the factor's row applied to its path's own normals. |
| LegPv.TotalOfUnit | src/database/leg_pv.cpp:7-16 | One unit held long is worth its unit value, and the other side of any leg the negative. |
| LegPv.TotalIsLinear | src/database/leg_pv.cpp:11-16 | The total is linear in the quantity, in the contract size and in the unit value. |
| MarkSeries.WriteKeepsChain | app/dev_main.cpp:481-487 | Writing a mark keeps every daily figure equal to the move from the prior mark exactly when each mark that now follows it was measured against its value. |
| MarkSeries.WriteInOrder | app/dev_main.cpp:481-487 | Writing at or after every stored date, reruns of a day included, keeps the chain. |
| MarkSeries.BackDatedBreaks | app/dev_main.cpp:481-487 | A back-dated mark breaks the chain exactly when it changes the value the next mark was measured against, because later marks are not rewritten. |
| MarkSeries.DailyTelescopes | src/database/leg_mtm_pnl.cpp:21-27 | The stored daily figures add up to the last mark less the booked mark, whatever days are missing. |
| MtmRepository.ReplaceKeepsIndexes | src/database/sqlite_schema.cpp:74-76 | Replacing keeps rows under their own key and at most one official mark per leg and day. |
| MtmRepository.FoldIsLastWrite | src/database/sqlite_trade_leg_mtm_repository.cpp:50-64 | The live row of a key is the archived one no later write displaced, and a key without such a row is not live. |
| MtmRepository.ReplaceWritesSeries | src/database/sqlite_trade_leg_mtm_repository.cpp:177-216 | A write extends its own leg and engine's series at its date. |
| MtmRepository.ReplaceKeepsSeries | src/database/sqlite_trade_leg_mtm_repository.cpp:177-216 | Other series keep their marks, but for one displaced by a new official mark of the same leg and day. |
| MtmRepository.Repository.InsertArchive | src/database/sqlite_trade_leg_mtm_repository.cpp:148-175 | Appends exactly the rows with a batch id. |
| MtmRepository.Repository.Upsert | src/database/sqlite_trade_leg_mtm_repository.cpp:177-216 | Rejects incomplete rows unchanged, otherwise archives and replaces; the live table stays the fold of the archive. |
| MtmRepository.Repository.LookupPriorOfficialMark | src/database/sqlite_trade_leg_mtm_repository.cpp:218-248 | The latest mark of the same leg and engine strictly before the date. |
| TradeLedger.CanonicalComparison | src/database/trade_booking_rules.cpp:22-24 | On the statuses the ledger writes, case-insensitive and exact comparison agree. |
| TradeLedger.BookedTrade | app/dev_main.cpp:1015-1030 | A booked trade was pending, keeps its legs but for prices, and is live exactly when all prices are positive. |
| TradeLedger.BookedAtQuotes | app/dev_main.cpp:970-1030 | A trade is booked exactly when it is pending and dated, has legs, and each is named, sized and quoted no negative value; every leg is then booked at its quote. |
| TradeLedger.ExpireTwice | src/database/trade_lifecycle.cpp:19-48 | Expiring at a then b is expiring at the later date. |
| TradeLedger.ExpiresAfterLast | src/database/trade_lifecycle.cpp:19-48 | A live trade stays live through the last day one of its legs is known to expire on, and expires the day after. |
| TradeLedger.LooselyLive | src/database/trade_lifecycle.cpp:19-48 | A trade the rules take for live, whose legs have all expired, expires exactly when its status is written in capitals. |
| TradeLedger.MarkKeepsChains | app/dev_main.cpp:481-489 | A mark dated no earlier than every other keeps every leg's and engine's chain. |
| TradeLedger.Ledger.Import | scripts/import_trade_bundle.py:188-221 | A new trade enters pending whatever it asked for; trades without legs are rejected, known trades and taken leg ids skipped; the ledger stays sound. |
| TradeLedger.Ledger.UpdateExecutionPriceForTrade | src/database/sqlite_trade_leg_booking_repository.cpp:100-126 | One leg of the trade changes, or nothing does. |
| TradeLedger.Ledger.ApplyTradeBooking | src/database/sqlite_trade_leg_booking_repository.cpp:192-215 | All updates and the timestamp take effect, or the tables are as before. |
| TradeLedger.Ledger.PriceBundleForBooking | app/dev_main.cpp:939-968 | One update per leg priced on the trade date, or rejection. |
| TradeLedger.Ledger.BookTrade | app/dev_main.cpp:983-1030 | A trade is booked as one step, or left exactly as it was. |
| TradeLedger.Ledger.RunBookingWithTradeIds | app/dev_main.cpp:970-1035 | Books in order up to the first rejection; the ledger stays sound and in chain. |
| TradeLedger.Ledger.ApplyTradeLifecycleAsOf | src/database/trade_lifecycle.cpp:19-76 | Expires exactly the live trades whose latest known leg expiry precedes the date; legs without an expiry do not count, and a trade with none never expires. |
| TradeLedger.Ledger.PersistMark | app/dev_main.cpp:481-489 | A mark measured against the engine's prior mark or the booked mark keeps the ledger sound, and in chain when dated in order. |
| TradeLedger.Ledger.BookNpvAndPersistMtmForBundle | app/dev_main.cpp:358-505 | Succeeds exactly when every leg is sized and priced, or skipped by a comparison engine; totals the signed leg values, marks every priced leg, and disturbs no other leg or day. |
| TradeLedger.Ledger.RunWithTradeIds | app/dev_main.cpp:804-937 | Expiry first; succeeds exactly when the trades asked for may be marked and every live one can be under every engine; the archive grows by exactly the rows the run defines, in order, and marks of other days and trades are kept. |
| TradeLedger.RunKeepsRest | app/dev_main.cpp:804-937 | The rows a run writes are of its day and of legs of trades asked for, and displace no other mark. |
| TradeLedger.LedgerTelescopes | src/database/leg_mtm_pnl.cpp:6-31 | For every leg, engine and day the daily figures before it add up to the last mark less the booked mark, which is the last since-inception figure plus commission. |
| TradeLedger.InceptionIsMove | src/database/leg_mtm_pnl.cpp:6-31 | A since-inception figure is the leg's total at the move of its unit value from the booked price, less commission. |
| TradeLedger.TotalIsOfRows | app/dev_main.cpp:358-505 | A trade's total under an engine is the sum of the marks written for it. |
| TradeLedger.BookingAdvances | app/dev_main.cpp:970-1035 | Booking only advances statuses and leaves trades past booking as they were. |
| TradeLedger.BookAllIsEach | app/dev_main.cpp:970-1035 | Booking a list of different trades books each as on its own up to the first that is unnamed, unknown or rejected, leaves the rest, and succeeds exactly when there is none. |
| TradeLedger.CommandAdvances | app/dev_main.cpp:970-1035 | No single import, booking, expiry or mark-to-market run lets a trade expire without having been live, and new trades start pending. |
| TradeLedger.HistoryAdvances | app/dev_main.cpp:1063-1118 | Over every sequence of imports, bookings, expiries and mark-to-market runs, each with its own prices, live and expired trades stay fully priced and statuses only advance. |
| TradeLedger.RunAll | app/dev_main.cpp:1063-1118 | Every such sequence leaves exactly the trades and the archive its history defines and the fold of that archive as live marks; with in-order marks, reruns of a day at new prices included, every daily figure telescopes. |
| MirroredLedger.MirrorTotal | app/dev_main.cpp:358-505 | Reversing every leg of a trade negates its total. |
| MirroredLedger.MirrorRun | app/dev_main.cpp:804-937 | A mark-to-market run over reversed positions writes the same rows with every total and daily figure negated. |
| MirroredLedger.MirrorHistory | app/dev_main.cpp:1063-1118 | Over every history of commands, reversing every imported position leaves the same statuses and negates every total and daily figure in the archive. |
| OrderStatistics.RankByCount | src/simulation/exposure_metrics.cpp:33-41 | The value of rank k is at most t exactly when more than k values are. |
| OrderStatistics.QuantilePermuted | src/simulation/exposure_metrics.cpp:26-43 | A quantile does not depend on the order of the paths. |
| OrderStatistics.QuantileMonotone | src/simulation/exposure_metrics.cpp:26-43 | A higher level never gives a lower quantile. |
| OrderStatistics.QuantileDominated | src/simulation/exposure_metrics.cpp:26-43 | Raising every path never lowers a quantile. |
| OrderStatistics.QuantileWithin | src/simulation/exposure_metrics.cpp:26-43 | A quantile lies between any bounds of the sample. |
| OrderStatistics.QuantileOnLine | src/simulation/exposure_metrics.cpp:33-42 | Between neighbouring levels the quantile runs on the straight line between their order statistics. |
| OrderStatistics.QuantileEnds | src/simulation/exposure_metrics.cpp:34-40 | Levels of zero or less and one or more give the least and the greatest value. |
| Exposure.PricePortfolioAlongPaths | src/simulation/path_pricer.cpp:101-153 | Succeeds exactly when the sizes fit and every live cell can be priced; every cell then holds the signed leg total in its slice, or zero past expiry. |
| Exposure.LiveCell | src/simulation/path_pricer.cpp:101-153 | Up to and including its expiry a leg's cell is its signed total at the pricer's answer. |
| Exposure.ComputeLegExposureMetrics | src/simulation/exposure_metrics.cpp:47-95 | One row of metrics per leg and grid node, at its place: where no path value is negative the mean and quantiles of the values themselves, where none is positive zeros. |
| Exposure.ExposureSplits | src/simulation/exposure_metrics.cpp:14-16 | Exposure covers the value, and less the other side's exposure is the value. |
| Exposure.SidesDiffer | src/simulation/exposure_metrics.cpp:73-91 | The expected exposures of the two sides of a leg differ by the mean value. |
| Exposure.PfeRanks | src/simulation/exposure_metrics.cpp:90-91 | With a path more than a multiple of twenty or of forty the two levels are single order statistics of the exposures. |
| Exposure.MetricsOrdered | src/simulation/exposure_metrics.cpp:89-91 | 0 <= PFE 95% <= PFE 97.5% <= the largest exposure, and EE is within too. |
| Exposure.ExpiredMetrics | src/simulation/path_pricing_rules.cpp:7-10 | All metrics are zero once the grid date passes the leg's expiry. |
| Exposure.NetBelowGross | viz/numeraire_viz/trade_exposure_review.py:80-102 | Netting never raises a path's exposure. |
| Exposure.RollupIsMeanGross | viz/numeraire_viz/trade_exposure_review.py:56-126 | The summed leg EEs equal the mean gross path exposure and bound the mean net exposure. |
| Exposure.NetQuantileBelowGross | viz/numeraire_viz/trade_exposure_review.py:56-102 | Net quantiles are bounded by gross ones. |
| Comonotone.QuantilesAdd | src/simulation/exposure_metrics.cpp:26-43 | The quantiles of quantities add up to the quantile of their total at every level exactly when the quantities rise and fall together across the paths. |
| Exposure.PfeAdditive | viz/numeraire_viz/trade_exposure_review.py:105-126 | So the summed leg PFEs are the quantile of the gross exposure, at every level, exactly when the legs' exposures rise and fall together. |
| ImpliedVol.BisectImpliedVol | src/quant/implied_vol_european.cpp:27-59 | For a price Lipschitz enough for 80 halvings, succeeds exactly when the market price lies between the prices at the bracket's ends, and reprices within 1e-8. |
| ImpliedVol.ImpliedVolEuropeanVanilla | src/quant/implied_vol_european.cpp:63-106 | The exact conditions of the two rejections; every Ok is zero at intrinsic or a volatility in [1e-6, 5] repricing within 1e-8; every market price in range that clears intrinsic is accepted; on a straight price above intrinsic the answer is the first guess or prices the market exactly. |
| ImpliedVol.StepLands | src/quant/implied_vol_european.cpp:92-102 | From any guess in the bracket one clamped step on a straight price lands on the volatility with the market price. |
| ImpliedVol.ClampNearest | src/quant/implied_vol_european.cpp:102-102 | Clamping moves a guess no further than any volatility of the bracket is from it. |
| ImpliedVol.RoundTrip | src/quant/implied_vol_european.cpp:63-106 | A price the model itself gives is inverted exactly when it is not below the undiscounted intrinsic floor. |
| ImpliedVol.DeepPutRefused | src/quant/implied_vol_european.cpp:75-78 | The floor does lie above some of the model's prices: every European lattice put deep enough in the money for its discounting is refused, whatever its volatility. |
| ImpliedVol.DeepPutExists | src/quant/implied_vol_european.cpp:75-78 | At every positive rate, on every lattice and for every spot there is a strike whose European put has a positive price that is refused. |
| VolSurface.GroupByTau | src/market_data/vol_surface_interpolation.cpp:62-79 | Points join the first bucket within the tolerance, in tenor order, or open their own. |
| VolSurface.InterpolateAlongLogMoneyness | src/market_data/vol_surface_interpolation.cpp:24-60 | The slice lookup: flat outside, linear between sorted neighbours; undefined exactly on an empty slice. |
| VolSurface.InterpolateImpliedVol | src/market_data/vol_surface_interpolation.cpp:83-116 | The surface lookup, undefined exactly without points or time. |
| VolSurfaceTheory.SurfaceWithin | src/market_data/vol_surface_interpolation.cpp:83-116 | The answer lies within the volatilities of the points. |
| VolSurfaceTheory.GroupIsGrouped | src/market_data/vol_surface_interpolation.cpp:62-79 | When tenors are equal or clear of the tolerance, the buckets are exactly the tenors, ascending, each with its own points. |
| VolSurfaceTheory.GroupHolds | src/market_data/vol_surface_interpolation.cpp:62-79 | Whatever the points, grouping loses none and leaves buckets further apart than the tolerance, each around the tenor of its earliest point. |
| VolSurfaceTheory.SliceReproduces | src/market_data/vol_surface_interpolation.cpp:16-60 | With distinct moneynesses a point is reproduced exactly when it is at an end, at least 1e-14 from its left neighbour, or shares its volatility. |
| VolSurfaceTheory.SurfaceExact | src/market_data/vol_surface_interpolation.cpp:83-116 | A clean surface reproduces every one of its points. |
| VolSurfaceTheory.SurfacePermuted | src/market_data/vol_surface_interpolation.cpp:83-116 | When tenors are equal or clear of the tolerance and moneynesses within a tenor are distinct, the answer does not depend on the order of the points. |
| VolSurfaceLines.SliceOnLine | src/market_data/vol_surface_interpolation.cpp:50-57 | Between neighbouring moneynesses a slice is the straight line through the two points, or their mean when they are too close. |
| VolSurfaceLines.SliceFlat | src/market_data/vol_surface_interpolation.cpp:43-48 | Outside its points a slice is flat. |
| VolSurfaceLines.SurfaceOnLine | src/market_data/vol_surface_interpolation.cpp:102-115 | Between neighbouring tenors the surface is the straight line between the two tenors' slices, at every moneyness. |
| VolSurfaceLines.SurfaceFlat | src/market_data/vol_surface_interpolation.cpp:98-108 | Before the first tenor and after the last the surface is that tenor's slice. |
| TimeGrid.EffectiveHorizonEnd | src/simulation/exposure_time_grid.cpp:30-46 | The later of the longest pillar and the minimum horizon, clipped to the book when that is earlier. |
| TimeGrid.HorizonKeeps | src/simulation/exposure_time_grid.cpp:75-87 | The horizon test keeps exactly the pillars not before valuation nor past the clipped book; the minimum horizon never matters. |
| TimeGrid.Deduplicate | src/simulation/exposure_time_grid.cpp:103-120 | One node per date, the first candidate of that date with its label and offset, strictly ascending, none before valuation; the year-fraction error is unreachable. |
| TimeGrid.BuildExposureTimeGrid | src/simulation/exposure_time_grid.cpp:56-127 | Whenever there is a pillar the grid is non-empty, strictly ascending, and holds exactly the wanted dates, each labelled by a pillar of that date or as the valuation date; its two internal errors are unreachable. |
| TimeGrid.GridIncreases | src/simulation/gbm_evolution.cpp:27-32 | Year fractions of a grid are at least a day apart, so they pass the test of the simulations. |
| TimeGrid.YearsCountDays | src/simulation/exposure_time_grid.cpp:115-115 | Year fractions are zero at the valuation date and grow by a 365th a day. |

## Left out

- Floating-point rounding, NaN and infinity: exact reals with the explicit tolerances only; a simple growth factor of
  exactly zero, infinite in the source, gives a zero rate (quotes are never negative, so it does not arise).
- Integer widths: step counts and periods are unbounded.
- Convergence of the rotations or of the correlation repair for every size: the iteration caps do not guarantee it. The
  calibration is shown never to fail numerically where the rotations settle (`CalibrationTheory.Settles`), which the
  contraction per rotation ensures for up to three factors; the faster, quadratic contraction of late rotations is not used.
- IndefiniteRepair.ExactRepair: the exact condition needs decompositions without residue (two factors need no such
  condition); with residues `RepairTheory.DefiniteStaysPsd` and `IndefiniteRepair.IndefiniteStays` leave a gap between their
  two conditions on the input, as wide as the residues allow.
- Memory layout: flat row-major indexing and padded strides are `array2` and `array3` cells; the lattice tree's jagged
  rows are a square array whose upper part is unused.
- Ties in the library sort: equal keys keep their order here, so which pillar label survives a repeated grid date, or
  which of two equal moneynesses comes first, is only one of the orders the library allows.
- OptionPrices.NoEarlyExercise: speaks of calls; puts, whose early exercise is the point of the tree, are only bounded.
- Greeks: vega, rho and theta of the bump greeks are tied to the prices they divide but carry no sign theorem, since none holds on the lattice
  in general.
- The binomial pricer's wrapper (exercise-style check, step count from the environment) and all other pricers.
- SQLite mechanics, migrations and queries: tables are maps and logs, a transaction is all or nothing.
- TradeLedger.Ledger.BookNpvAndPersistMtmForBundle: market inputs, greeks, Monte Carlo seeds and remarks stored beside a
  mark are not modelled; prices and their failures are a parameter.
- Market snapshot loading, rate and dividend lookup, HTTP ingestion, schedules and calendars, configuration, command
  line, logging, plots and the web journal.
- Back-dated marks are outside the telescoping claim: later rows are not rewritten (`MarkSeries.BackDatedBreaks`).
- Manual status resets by direct SQL, which the ledger's documentation mentions, are not steps of the model.
- The Mersenne Twister: a fixed stream of uniforms in which acceptable pairs keep occurring.
- Black-Scholes prices and normal distribution: the implied-volatility model is any price with a bounded slope.
- The Python roll-ups are stated for one trade's legs at one grid node; grouping by table columns is not modelled.
