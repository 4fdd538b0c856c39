# EconOpt core, modelled in Dafny

EconOpt is a small Flask application (`app.py`). A user pastes cost
observations (`quantity,total cost` per line) and price observations
(`quantity,price` per line). The application then fits a linear and a
quadratic cost model and a power-law price model, looks for break-even
quantities on a fixed scan grid, simulates revenue, cost and profit on a
display grid, and reports the largest profit with its quantity and the
break-even points with their prices.

This project models the discrete core of that computation over Dafny `real`:

- **Input splitting** (`Parsing`, with `Text` for Python's `strip` and
  `split`). It models the lazy `map(float, ...)`, the `zip(*...)`
  transposition and the two-name unpack exactly, round by round. Python's
  `float` is the parameter `parseNum: string -> Option<real>`.
- **Cost models** (`CostModels`). The linear and quadratic models are real
  polynomials. The power-law price `a * Q**b` is a function parameter
  `price: real -> real`.
- **Break-even locator** (`BreakEven`). This is `find_break_even_points` as a
  function, an equivalent loop method, and its exact characterisation,
  including the `sign(0) = 0` edge.
- **Zero substitution and profit series** (`Simulation`). The masked
  assignment is an in-place update of an `array<real>`.
- **Summary** (`Summary`). Its `ProfitSummary` holds `np.max`, the first `np.argmax`, and the
  break-even (quantity, price) pairs.
- **The handler's computation** (`Pipeline`). It chains these steps. Every
  exception caught at app.py:122-123 becomes a `Failure` value, and the
  three `curve_fit` calls are parameters.

Both grids are arbitrary `seq<real>` supplied by the caller.

Behaviour of `app.py` that the model keeps as written:

- Parsing does not skip blank lines. A blank line has no comma, so the unpack
  fails (`Parsing.LineWithoutCommaFails`).
- Lines are not all required to have exactly two fields. The shortest line
  must have exactly two. Third fields are converted on the lines before the
  first two-field line, and there they can raise. Extra fields on the later
  lines are silently dropped (`Parsing.WellFormed`).
- The parse error carries the field that `float` refused, not the whole
  line.
- The price paired with a break-even quantity (app.py:113) is evaluated at
  that quantity itself. No epsilon is substituted there.

## Model

| member | source | states |
|---|---|---|
| `Text.Strip` | app.py:33 | `str.strip()`: the result is the piece of the input right after its leading whitespace, everything removed is whitespace, and the result neither starts nor ends with whitespace |
| `Text.StripIdempotent` | app.py:33 | stripping a stripped text changes nothing |
| `Text.StripEmptyIffAllSpace` | app.py:33 | a block strips to the empty text exactly when it is all whitespace |
| `Text.Split` | app.py:33-34 | `str.split(sep)`: one piece more than there are separators, and no piece contains the separator |
| `Text.JoinSplit` | app.py:33-34 | joining the pieces of a split with the separator gives the text back |
| `Text.SplitJoin` | app.py:34 | splitting a join of separator-free pieces gives the same pieces back |
| `Text.SplitWithoutSeparator` | app.py:34 | a line without a comma is a single field |
| `Parsing.Rows` | app.py:34 | one row per line, each the line's comma-separated fields |
| `Parsing.Pull` | app.py:34 | pulling field k from each row's iterator in turn; a full round has one value per row. Its exact behaviour is stated by `Parsing.PullSpec` |
| `Parsing.ZipRound` | app.py:34 | one round of `zip(*maps)`: with no iterators it is exhausted, and a full round has one value per row |
| `Parsing.Unpack` | app.py:34 | the two-name unpack yields equally long quantity and value columns with one entry per row, and reports too many values only when every row has three or more fields. Its exact success condition is stated by `Parsing.UnpackSpec` |
| `Parsing.ParseBlock` | app.py:33-41 | parsing one block succeeds exactly when its rows are well formed; the pairs it yields are stated by `Parsing.ParseBlockSpec` |
| `Parsing.Lines` | app.py:33 | a stripped block has one line more than it has newlines |
| `Parsing.FirstShort` | app.py:34 | the index of the first row that ends a `zip` round: every earlier row is longer, and that row is not |
| `Parsing.PullSpec` | app.py:34 | one `zip` round raises with the field of the first row (before the first short row) whose field k does not convert, every earlier row converting, runs out when a short row is reached, and otherwise yields field k of every row in order |
| `Parsing.UnpackSpec` | app.py:34 | the two-name unpack succeeds if and only if the rows are well formed, and then yields one (quantity, value) pair per row, in row order; a conversion error names a field among the first three of some row that `float` refused, and when every row has a field, the first row whose quantity does not convert is the one reported |
| `Parsing.ParseBlockSpec` | app.py:33-41 | parsing a block succeeds if and only if its rows are well formed, and then yields one pair per line of the stripped block, in line order; a conversion error names a field among the first three of some line that `float` refused, and the first line whose quantity does not convert is the one reported |
| `Parsing.LineWithoutCommaFails` | app.py:33-34 | a line with no comma (a blank line included) makes the block fail, whatever `float` accepts |
| `Parsing.EmptyBlockFails` | app.py:33-34 | an empty or all-whitespace block fails |
| `Parsing.ThreeColumnsEverywhereFails` | app.py:34 | when every line has three or more fields the unpack fails |
| `CostModels.Linear` | app.py:13-14 | `m * Q + b`, as in the source; the contract records only that the cost is the fixed cost `b` at zero quantity or zero slope, and `CostModels.Quadratic` relates it to the quadratic model |
| `CostModels.Quadratic` | app.py:16-17 | the quadratic cost is the fixed cost at zero, it equals the linear model when `a` is zero, and it is a linear model whose slope is `a*q + b` |
| `CostModels.Revenue` | app.py:53 | revenue is zero at zero quantity or zero price |
| `CostModels.LinearCurve` | app.py:72 | the element-wise linear cost is aligned with the grid |
| `CostModels.QuadraticCurve` | app.py:54 | the element-wise quadratic cost is aligned with the grid |
| `CostModels.RevenueCurve` | app.py:53 | the element-wise revenue is aligned with the grid |
| `BreakEven.Sign` | app.py:24 | `np.sign` is -1, 0 or 1, positive exactly for positive input and negative exactly for negative input |
| `BreakEven.Difference` | app.py:23 | `TR - TC` is element-wise and has the same length |
| `BreakEven.SignChanges` | app.py:24 | every index reported is the left end of a sign change |
| `BreakEven.FindBreakEvenPoints` | app.py:22-25 | every reported quantity is a grid quantity other than the last, and there are fewer results than grid points; the exact characterisation is `BreakEven.FindBreakEvenPointsSpec` |
| `BreakEven.Gather` | app.py:25 | `Q_range[idx]` picks the grid quantity at each index, in index order |
| `BreakEven.SignChangesExact` | app.py:24 | an index is reported if and only if its sign differs from its right neighbour's sign |
| `BreakEven.SignChangesIncreasing` | app.py:24 | the reported indices are strictly increasing |
| `BreakEven.SignChangesCount` | app.py:24 | n samples give at most n - 1 changes |
| `BreakEven.NoChangeIffConstantSign` | app.py:24-25 | nothing is reported if and only if every sample has the sign of the first one |
| `BreakEven.IdenticallyZeroHasNone` | app.py:24-25 | a difference that is zero everywhere reports nothing |
| `BreakEven.ChangeBetween` | app.py:24 | between two samples of different sign, some index in between is reported |
| `BreakEven.ZeroSampleReportedTwice` | app.py:24 | an exact zero between a positive and a negative sample is reported twice, at its left neighbour and at itself, as consecutive results |
| `BreakEven.SingleCrossing` | app.py:22-25 | a difference that changes sign once, at m, reports exactly the index m - 1 |
| `BreakEven.FindBreakEvenPointsSpec` | app.py:22-25 | the result is `Q_range` at exactly the sign changes of `TR - TC`, in increasing index order, with fewer results than grid points |
| `BreakEven.LocateBreakEven` | app.py:22-25 | the loop that appends the left grid quantity of each change it meets computes `find_break_even_points` |
| `Simulation.SafeGrid` | app.py:58-59 | the safe grid has the grid's length, contains no zero, holds `1e-6` where the grid is zero and the grid's own value everywhere else |
| `Simulation.SafeGridIdempotent` | app.py:59 | substituting a second time changes nothing |
| `Simulation.ReplaceZeros` | app.py:59 | the in-place masked assignment turns the array into the safe grid of its old contents |
| `Simulation.ProfitSeries` | app.py:58-63 | all series are aligned with the grid: P[i] is price(safe[i]), TR[i] is price(safe[i]) * safe[i], TC[i] is the quadratic cost at the unsubstituted Q[i], and profit[i] is TR[i] - TC[i] written out the same way |
| `Simulation.ProfitAt` | app.py:60-63 | away from zero, profit is revenue minus cost at Q[i]; at zero it is price(1e-6) * 1e-6 minus the fixed cost |
| `Simulation.Simulate` | app.py:57-63 | copying the grid, replacing zeros in place and deriving price, revenue, cost and profit yields the specified series |
| `Summary.Max` | app.py:65 | `np.max` is an element of the profit series and no sample exceeds it |
| `Summary.FirstArgMax` | app.py:66 | `np.argmax` is an index holding a maximum, and every earlier sample is strictly smaller |
| `Summary.MaxAtFirstArgMax` | app.py:65-66 | `max_profit` is the profit at the arg-max index |
| `Summary.FirstArgMaxUnique` | app.py:66 | the two properties of the first arg-max determine it |
| `Summary.LocateMaxProfit` | app.py:65-66 | a single left-to-right pass that keeps the first strictly better sample finds the first arg-max and the maximum |
| `Summary.PricedPoints` | app.py:113 | each break-even quantity is paired with the price at that same quantity, in order |
| `Summary.Summarize` | app.py:65-66 | `max_profit` bounds every profit and is attained at the first arg-max k, with `Q_max_profit` = Q_sim[k]; the break-even pairs are (q, price(q)) |
| `Pipeline.Fit` | app.py:47-49 | a fit with fewer observations than parameters fails with too few points, a non-converging optimiser fails, and otherwise the fitted parameters are returned |
| `Pipeline.Evaluate` | app.py:52-66 | it succeeds exactly when the display grid is non-empty; then the linear cost curve is the linear model on the display grid, the report's maximum bounds and is attained by the display profit at its first arg-max with the matching quantity; the break-even quantities come from the scan grid and are priced there |
| `Pipeline.Analyze` | app.py:31-66 | a cost parse failure is reported first, then a revenue parse failure; once both blocks parse, every failure is a fit failure or an empty grid, and it is the failure of the first of the linear, quadratic and price fits to fail, in that order; when all three fits converge the result is the evaluation at the fitted parameters; success means both blocks parsed, all three fits converged, and the report is the evaluation at the fitted parameters |
| `Pipeline.AnalyzeSucceedsIff` | app.py:31-66 | the computation succeeds exactly when both blocks parse, there are at least 3 cost and 2 price observations, all fits converge and the display grid is not empty |
| `Pipeline.ScanProfit` | app.py:53-54 | revenue minus cost on the scan grid is, at every sample, price(Q) * Q minus the quadratic cost at Q, with no epsilon substitution |
| `Pipeline.EvaluateBreakEven` | app.py:52-55 | the break-even quantities are the scan quantities at exactly the sign changes of price(Q) * Q minus quadratic cost, in grid order |
| `Pipeline.EmptyCostBlockFails` | app.py:33-34 | an empty cost block ends the computation with a cost parse failure |
| `Pipeline.TooFewCostPointsFails` | app.py:47-48 | fewer than three cost observations end the computation with a fit failure, of the linear model below two observations |

## Left out

- Least-squares fitting (`curve_fit`, app.py:47-49) is floating-point optimisation in scipy. The three fits are function parameters. Only the check that there are at least as many observations as parameters is modelled.
- The power-law body `a * Q**b` (app.py:20) has a real exponent, so the fitted price curve is the uninterpreted `price: real -> real`.
- Python's `float()` on a field is the parameter `parseNum`. The model does not say which strings it accepts.
- Exact `np.linspace` spacing (app.py:52, 57), IEEE rounding and overflow, NaN, and the display `round(...)` calls (app.py:111-113) are left out. Grids are caller-supplied `seq<real>`, and arithmetic is exact.
- Reading `qmin`/`qmax` from the form with `int()` (app.py:43-44) is form access. `q_max` only shapes the display grid, which is an input here.
- Plot construction, PNG/base64 encoding, templates and Flask routing (app.py:1-11, 68-110, 114-128) are I/O glue. Exception messages are reduced to the `Failure` values.
- numpy broadcasting of arrays of different lengths is left out. `find_break_even_points` requires equal-length inputs, as its caller provides.
- `Text.IsSpace` lists the characters for which Python 3's `str.isspace()` holds. Changes to that set in later Unicode versions are not tracked.
