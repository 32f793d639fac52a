# MAIC engine of indcomp, modelled in Dafny

indcomp performs Matching-Adjusted Indirect Comparison (MAIC). The method follows
NICE DSU Technical Support Document 18. It is given:

- individual patient data (the *index* frame);
- aggregate statistics of another trial (the *target* frame, a single row);
- a `match` dictionary saying which statistics to match.

It computes one weight per index patient, such that the reweighted index population
has the target's means and second moments. For a ("std", c, m) entry, the matched second
moment of c is the target std² plus the square of the target mean stored under m. So the
weighted standard deviation of c equals the target's only when the mean of c is also
matched to the value under m.

This project models the core of that engine: the `MAIC` class and the exceptions it
raises.

- **`exceptions.dfy`** (module `Exceptions`) covers the six exception types. They are
  one error datatype whose payloads are the fields each exception records, plus the
  text each one renders. Lemmas read payloads back out of their messages: the
  column and frame, the statistic and the supplied string, and, for the arity errors,
  the tuple's length. The tuple's items are pinned only for plain items in tuples of one
  to three items.
- **`match_check.dfy`** (module `MatchCheck`) covers `_check_match`.
  - A match value is either a bare string or a tuple of strings.
  - The dictionary is an ordered sequence of (target column, value) entries.
  - The check of one entry is proved to succeed exactly when the entry has the
    documented shape. The error it raises names a real defect. The errors follow the
    source's precedence.
  - The check of the dictionary is proved to fail with the error of the first bad entry.
- **`sums.dfy`** (module `Sums`) holds the finite sums the weighting uses (`np.sum`,
  `np.dot`, sums of squares) and their algebra, including Cauchy–Schwarz against the
  all-ones vector.
- **`design.dfy`** (module `Design`) builds the centred effect-modifier matrix
  `X_EM_0`.
  - A column assignment overwrites a column of the same name in place, or appends a
    new one.
  - The matrix is proved to have one value per patient in every column, one column per
    distinct column name, and the column of the last entry that writes each name.
- **`tilting.dfy`** (module `Tilting`) covers the tilting itself:
  - the objective `Σ exp(X·a)` and its gradient;
  - the zero start point;
  - the weights, their rescaling and the effective sample size (ESS).
  - The main theorem: wherever the gradient vanishes, the weights match the target for
    each entry that no later entry with the same statistic and index column overwrites
    (`DesignColumnOfLastWriter`).
    - A mean-matched index column gets the target mean.
    - A std-matched index column gets the target's second moment, std² + mean².
  - An overwritten entry is not matched: only the later entry's target is, as in the
    source, where the later assignment replaces the column.
- **`maic.dfy`** (module `MaicEngine`) holds the `Maic` class.
  - Its fields are the three inputs and the results `calc_weights` stores.
  - Its invariant `Valid` says this: once weights are calculated, they are positive,
    the scaled weights sum to the population size, and 0 < ESS ≤ N.
  - The class has the constructor, the validating factory `Create`, `CalcWeights`
    (which fills the design column by column in a loop), and the `NoWeightsException`
    guards of `plot_weights` and `compare_populations`.

The exponential function and scipy's BFGS minimiser are parameters of `CalcWeights`:

- `exp` may be any function that is strictly positive with `exp(0) == 1`.
- The minimiser may be any function that returns a vector as long as its starting point.

Nothing is assumed about the quality of the minimiser's answer. The matching theorem is
stated for any point where the gradient is zero.

Some behaviour one might expect of a MAIC implementation is absent from the code. The
model follows the code:

- Only the `mean` and `std` statistics exist. Anything else raises
  `StatisticException` at indcomp/_maic.py:70-71.
- There is no min/max eligibility filter and no combined mean/min/max configuration
  error. The arity errors are `MeanConfigException` and `StdConfigException`.
- The solver's result is never checked for convergence (indcomp/_maic.py:124-127). So
  there is no convergence error, and `weights_calculated` becomes true whatever the
  solver returns.

## Model

| member | source | states |
|---|---|---|
| Exceptions.SideName | indcomp/_maic.py:79-83 | a missing column of the target frame is reported as "target" and one of the index frame as "index", and no other way round |
| Exceptions.Message | indcomp/exceptions.py:10-17 | NoWeightsException has no payload and its text is always the same sentence asking to call calc_weights |
| Exceptions.ColumnNotFoundMessageNamesBoth | indcomp/exceptions.py:23-29 | the ColumnNotFound message determines both the column name and the frame: parsing it gives back exactly (col, side) |
| Exceptions.StatisticMessageQuotesIt | indcomp/exceptions.py:35-43 | the statistic message quotes the offending statistic, which is recovered exactly from between the fixed text |
| Exceptions.MeanConfigMessageReportsLength | indcomp/exceptions.py:49-57 | the 'mean' arity message reports the supplied tuple's length as the number after the fixed text |
| Exceptions.StdConfigMessageReportsLength | indcomp/exceptions.py:63-71 | the 'std' arity message reports the supplied tuple's length as the number after the fixed text |
| Exceptions.NatToString | indcomp/exceptions.py:56 | `len(self.vals)` is written as a non-empty string of decimal digits; ParseNatToString shows it denotes exactly that length |
| Exceptions.ParseNatToString | indcomp/exceptions.py:56 | the decimal rendering of a length reads back as that length |
| Exceptions.StrRepr | indcomp/exceptions.py:53-70 | the repr of a tuple item is enclosed in a matching pair of quotes, `"` only when the item holds `'` and no `"`; StrReprOfPlain pins down the plain case |
| Exceptions.StrReprOfPlain | indcomp/exceptions.py:53-70 | an item of printable ASCII characters without quote or backslash is printed as itself between single quotes |
| Exceptions.TupleRepr | indcomp/exceptions.py:53-70 | the printed tuple is enclosed in parentheses; TupleReprOfOne/Two/Three give its exact text |
| Exceptions.TupleReprOfOne | indcomp/exceptions.py:53-70 | a one-item tuple prints as ('a',) with its trailing comma |
| Exceptions.TupleReprOfTwo | indcomp/exceptions.py:53-70 | a two-item tuple prints as ('a', 'b') |
| Exceptions.TupleReprOfThree | indcomp/exceptions.py:53-70 | a three-item tuple prints as ('a', 'b', 'c') |
| Exceptions.ConfigMessageQuotesIt | indcomp/exceptions.py:77-85 | the config message quotes the bare string supplied, recovered exactly |
| MatchCheck.CheckEntry | indcomp/_maic.py:68-83 | one entry is accepted iff it is ("mean", c) or ("std", c, m) with the key and m among the target columns and c among the index columns; a rejection reports a real defect of the entry, with the offending column, statistic, tuple or string as payload |
| MatchCheck.CheckEntryPrecedence | indcomp/_maic.py:68-83 | the first failing check decides the error: bare string, then unknown statistic, then arity, then the std entry's mean column, then the key, then the index column |
| MatchCheck.CheckMatch | indcomp/_maic.py:60-83 | the dictionary is accepted iff every entry is valid; a rejection is never NoWeights |
| MatchCheck.CheckMatchFirstError | indcomp/_maic.py:67-83 | when entries before i are valid and entry i is not, the dictionary check raises exactly entry i's error |
| MatchCheck.CheckMatchErrorHasCulprit | indcomp/_maic.py:67-83 | every error raised is the error of some entry all of whose predecessors are valid, and it explains a defect of that entry |
| Design.Lookup | indcomp/_maic.py:111-120 | `X_EM_0[name]` finds a column exactly when the name is among the frame's column names; LookupFound gives its position |
| Design.PutColumn | indcomp/_maic.py:111-120 | after assigning a column under a name, that name holds the new column and every other name holds what it held before |
| Design.PutColumnShape | indcomp/_maic.py:111-120 | assignment keeps every existing column in its position, unchanged unless it has the assigned name; a new name is appended at the end, an existing one is overwritten in place |
| Design.PutColumnDistinct | indcomp/_maic.py:111-120 | assignment never creates two columns with the same name |
| Design.PutColumnRows | indcomp/_maic.py:111-120 | assigning a column with one value per record keeps every column one value per record |
| Design.LookupFound | indcomp/_maic.py:111-120 | a column found by name is stored at some position of the frame |
| Design.ColumnName | indcomp/_maic.py:111-117 | the design column of an entry is the index column's name followed by a suffix |
| Design.ColumnNameCollides | indcomp/_maic.py:111-117 | two entries write the same design column exactly when they match the same statistic of the same index column |
| Design.EntryColumn | indcomp/_maic.py:111-120 | an entry's centred column has one value per index record; EntryColumnCentres gives its values |
| Design.EntryColumnCentres | indcomp/_maic.py:110-120 | a mean entry's column is the index column minus the target value; a std entry's column is the squared index column minus target std² + target mean² |
| Design.BuildDesign | indcomp/_maic.py:109-120 | the design has one value per index record in every column |
| Design.BuildDesignNames | indcomp/_maic.py:109-120 | the design's column names are distinct and are exactly the names c_mean / c_std of the entries |
| Design.DesignColumnOfLastWriter | indcomp/_maic.py:109-120 | under each entry's column name the design holds that entry's centred column when no later entry writes the same name (later entries overwrite earlier ones) |
| Design.DistinctNamesCount | indcomp/_maic.py:109-120 | a frame with distinct column names has as many names as columns |
| Design.DesignWidth | indcomp/_maic.py:109-120 | the design has one column per distinct column name, and at least one when the dictionary is non-empty |
| Tilting.Tilt | indcomp/_maic.py:130 | exp(X·a) gives one factor per index record, each strictly positive |
| Tilting.Objective | indcomp/_maic.py:85-87 | the objective Σ exp(X·a) is positive at every parameter vector when there is a record; StartPointIsUntilted: it equals N at the start point |
| Tilting.Gradient | indcomp/_maic.py:89-91 | one gradient component per design column; StationaryColumn and CentredSumZeroIffMean: a component vanishes iff the weighted mean of that column equals its centre |
| Tilting.StartPoint | indcomp/_maic.py:123 | the start point has one parameter per design column, all zero; StartPointIsUntilted: the tilt there is 1 for every record |
| Tilting.StartPointIsUntilted | indcomp/_maic.py:123 | at the zero start point every record has weight 1 and the objective equals the number of records |
| Tilting.StationaryPointMatchesTargets | indcomp/_maic.py:89-91 | wherever the gradient is zero, for each entry that no later entry with the same statistic and index column overwrites (DesignColumnOfLastWriter): the weighted mean of a mean-matched index column equals the target mean, and the weighted mean of the squares of a std-matched column equals target std² + target mean² |
| Tilting.StationaryColumn | indcomp/_maic.py:89-91 | where every gradient component is zero, each column of the design has a zero tilt-weighted sum (the gradient is the tilt factors dotted with each column) |
| Tilting.CentredSumZeroIffMean | indcomp/_maic.py:89-91 | a gradient component (weighted sum of a centred column) is zero iff the weighted mean of the column equals the centring value |
| Tilting.Scaled | indcomp/_maic.py:131-133 | one scaled weight per raw weight; ScaledIsProportional, ScaledPositive and ScaledSumsToCount give its meaning |
| Tilting.ScaledIsProportional | indcomp/_maic.py:131-133 | the scaled weights are the raw weights times the single factor N / Σw |
| Tilting.ScaledPositive | indcomp/_maic.py:131-133 | scaled weights stay strictly positive |
| Tilting.ScaledSumsToCount | indcomp/_maic.py:131-133 | the scaled weights sum to the number of index records |
| Tilting.Ess | indcomp/_maic.py:136 | the ESS is never negative; EssBounds: 0 < ESS ≤ N for positive weights; EssFullIffEqualWeights: ESS = N iff the weights are equal |
| Tilting.EssBounds | indcomp/_maic.py:136 | 0 < ESS ≤ N for positive weights |
| Tilting.EssFullIffEqualWeights | indcomp/_maic.py:136 | ESS = N exactly when all weights are equal |
| Tilting.WeightsCalibrated | indcomp/_maic.py:131-136 | for strictly positive weights the rescaled weights sum to N and the ESS lies in (0, N] |
| Tilting.ScaledAverageIsWeightedMean | indcomp/_maic.py:184-187 | averaging a column times the scaled weights over the records gives its weighted mean under the raw weights |
| MaicEngine.Maic.Valid | indcomp/_maic.py:54-138 | the object invariant: the dictionary passed the check, and once weights are calculated the design is the dictionary's, the weights are exp(design · a1) for the stored a1 and an exponential, and the scaled weights and ESS are computed from them, with positive weights, scaled weights summing to N and 0 < ESS ≤ N; it implies the scaled weights are positive, one per record. The constructor and Create establish it and CalcWeights keeps it |
| MaicEngine.Maic.constructor | indcomp/_maic.py:54-58 | an accepted object stores the frames and dictionary, satisfies the invariant, and starts with weights_calculated false |
| MaicEngine.Maic.Create | indcomp/_maic.py:54-58 | construction succeeds iff the dictionary is valid; otherwise it yields the dictionary check's error and no object |
| MaicEngine.Maic.CalcWeights | indcomp/_maic.py:93-138 | builds the design from scratch in dictionary order, runs the solver from the zero vector, and stores the tilted weights, their rescaling and the ESS; it sets the flag and keeps the invariant (positive weights, scaled sum N, 0 < ESS ≤ N) |
| MaicEngine.Maic.FillDesign | indcomp/_maic.py:108-120 | the loop that assigns each entry's centred column in dictionary order leaves exactly the design of the whole dictionary, changing no other field |
| MaicEngine.Maic.PlotWeights | indcomp/_maic.py:245-246 | raises NoWeights iff weights are not calculated; otherwise shows the scaled weights, one per record, positive and summing to N |
| MaicEngine.Maic.ComparePopulations | indcomp/_maic.py:168-169 | raises NoWeights iff a weighted comparison is asked for before weights are calculated |
| MaicEngine.Lifecycle | indcomp/_maic.py:138 | before calc_weights the weight plot and the weighted comparison raise NoWeightsException and the unweighted comparison does not; afterwards the weight plot, the weighted comparison and the unweighted comparison all pass the guard |
| MaicEngine.CalcWeightsTwice | indcomp/_maic.py:109-138 | a second calc_weights with the same exponential and solver leaves the weights, scaled weights and ESS of the first |

## Left out

- Plotting. The bodies of `compare_populations` and `plot_weights` (matplotlib grid, bars,
  histogram, annotations) are not modelled; only their `NoWeightsException` guards are.
  Those bodies can raise on their own after the guard:
  - with a single variable, `axes.flatten()` (indcomp/_maic.py:177) fails, because
    `plt.subplots(1, 1)` returns a single Axes;
  - a name in `vars` that is not a match key raises KeyError at indcomp/_maic.py:183.

  `MaicEngine.Lifecycle` therefore promises only that no NoWeightsException is raised.
  `Tilting.ScaledAverageIsWeightedMean` covers the arithmetic of the weighted bar height.
- The minimiser. scipy's BFGS is a parameter that returns a vector of the right length.
  Convergence and the quality of its answer are not modelled, and neither is the
  `alpha1_result_` object it returns. This is why the matching theorem is conditional on
  a zero gradient.
- Floating point. All numbers are mathematical reals, and `np.exp` is any positive
  function with exp(0) = 1. Overflow of `exp`, rounding in the sums and NaN are not
  modelled.
- Empty inputs. `MaicEngine.Maic.CalcWeights` requires a non-empty dictionary and at
  least one index record. The source computes 0/0 for the ESS (or the scaled weights) in
  those cases.
- Empty tuples. Every tuple value must have at least one item (`WellShaped`). The
  source raises IndexError at indcomp/_maic.py:70 when the check reaches an empty tuple.
  `WellShaped` also excludes dictionaries in which an earlier entry raises first; the
  source then raises that entry's error.
- Value kinds. Match values are either strings or tuples of strings. A list value behaves
  like a tuple in the check but renders with brackets in the arity messages, and
  non-string items are not modelled.
- String rendering. The `repr` of strings inside the arity messages covers ASCII:
  quoting, backslash escapes and `\x` escapes of control characters. The escaping of
  non-ASCII, non-printable characters is not modelled.
- Aliasing. `__init__` stores references to the caller's frames and dictionary
  (indcomp/_maic.py:55-57). The model stores them as immutable values (`const` fields), so
  the check made at construction holds for the object's lifetime. In the source, a caller
  who mutates the dictionary or a frame afterwards bypasses the check:
  - `calc_weights` silently skips an entry whose first item is neither "mean" nor "std"
    (indcomp/_maic.py:111 and 115 have no else branch);
  - a column dropped after construction raises KeyError at indcomp/_maic.py:113 or 117.
- Empty target frame. A target frame with the right columns but no rows passes
  `_check_match`, then raises IndexError at `.values[0]` (indcomp/_maic.py:113, 118-119).
  The model's target is a single row (`TargetRow`), so this case cannot be expressed.
- Data frames. A data frame is a map from column names to vectors of one common length.
  pandas index alignment, dtypes and duplicate column labels are not modelled. The
  target frame is its first row, which is the only row the code reads (`.values[0]`).
- Unset attributes. The attributes `calc_weights` creates (`X_EM_0`, `a1_`, `weights_`,
  `weights_scaled_`, `ESS_`) do not exist in the source before the first call. The model
  gives them empty or zero placeholder values.
- Exceptions.Message: the arguments passed to `NoWeightsException` are dropped rather
  than stored, since the exception ignores them.
- Other files. indcomp/datasets.py (CSV loading), indcomp/_utils.py (a colour list),
  indcomp/__init__.py (re-exports), indcomp/_exceptions.py (an unused duplicate of
  `NoWeightsException`) and setup.py are not part of this model.
