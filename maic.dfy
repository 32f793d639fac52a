/**
 * The MAIC engine object (class MAIC in indcomp/_maic.py): construction with
 * validation of the `match` dictionary, the weight calculation, and the
 * `weights_calculated` flag that guards the plotting methods.
 *
 * The exponential function and the BFGS minimiser are parameters of the
 * weight calculation. The minimiser is any function that returns a vector
 * as long as its starting point; nothing else is assumed about its answer.
 */
module MaicEngine {
  import opened Exceptions
  import opened MatchCheck
  import opened Sums
  import opened Design
  import opened Tilting

  type Solver = (Matrix, seq<real>) -> seq<real>

  /** The minimiser returns one parameter per design column. */
  ghost predicate IsSolver(solver: Solver)
  {
    forall x: Matrix, a0: seq<real> :: |solver(x, a0)| == |a0|
  }

  class Maic {
    const index: IndexFrame
    const target: TargetRow
    const spec: MatchSpec

    var weightsCalculated: bool
    /** `X_EM_0`, the centred effect modifiers. */
    var design: Matrix
    /** `a1_`, the solver's answer. */
    var a1: seq<real>
    /** `weights_`, one per index record. */
    var weights: seq<real>
    /** `weights_scaled_`, rescaled to sum to the number of index records. */
    var weightsScaled: seq<real>
    /** `ESS_`, the effective sample size. */
    var ess: real
    /** The exponential the last weight calculation tilted with. */
    ghost var tilt: real -> real

    /**
     * The object's invariant: the match dictionary was accepted, and once the
     * weights are calculated they are positive, the scaled weights add up to
     * the population size and the effective sample size lies in (0, N].
     * The weights are exp(X_EM_0 · a1_) for the design and the solver's
     * answer that are stored beside them.
     */
    ghost predicate Valid()
      reads this
      ensures Valid() && weightsCalculated ==>
                |weightsScaled| == index.rows && AllPositive(weightsScaled)
    {
      && Rectangular(index)
      && WellShaped(spec)
      && AllValid(spec, index.columns.Keys, target.Keys)
      && (weightsCalculated ==>
            && design == BuildDesign(spec, index, target)
            && |a1| == |design|
            && IsExp(tilt)
            && weights == Tilt(tilt, design, index.rows, a1)
            && index.rows > 0
            && |weights| == index.rows
            && AllPositive(weights)
            && (ScaledPositive(weights, index.rows); Sum(weights) > 0.0)
            && weightsScaled == Scaled(weights, index.rows)
            && Sum(weightsScaled) == index.rows as real
            && SumSquares(weights) > 0.0
            && ess == Ess(weights)
            && 0.0 < ess <= index.rows as real)
    }

    /** `MAIC.__init__` once validation has passed: the flag starts false. */
    constructor (index: IndexFrame, target: TargetRow, spec: MatchSpec)
      requires Rectangular(index) && WellShaped(spec)
      requires AllValid(spec, index.columns.Keys, target.Keys)
      ensures Valid()
      ensures this.index == index && this.target == target && this.spec == spec
      ensures !weightsCalculated
    {
      this.index := index;
      this.target := target;
      this.spec := spec;
      weightsCalculated := false;
      design := [];
      a1 := [];
      weights := [];
      weightsScaled := [];
      ess := 0.0;
      tilt := x => 1.0;
    }

    /**
     * `MAIC(df_index, df_target, match)`: the dictionary is checked before
     * anything is stored, so a rejected dictionary yields its error and no
     * object at all.
     */
    static method Create(index: IndexFrame, target: TargetRow, spec: MatchSpec) returns (r: Result<Maic>)
      requires Rectangular(index) && WellShaped(spec)
      ensures r.Success? <==> AllValid(spec, index.columns.Keys, target.Keys)
      ensures r.Failure? ==> CheckMatch(spec, index.columns.Keys, target.Keys) == Failure(r.error)
      ensures r.Failure? ==> r.error != NoWeights
      ensures r.Success? ==> fresh(r.value) && r.value.Valid() && !r.value.weightsCalculated
      ensures r.Success? ==> r.value.index == index && r.value.target == target && r.value.spec == spec
    {
      var check := CheckMatch(spec, index.columns.Keys, target.Keys);
      if check.Failure? {
        return Failure(check.error);
      }
      var m := new Maic(index, target, spec);
      return Success(m);
    }

    /**
     * `calc_weights`: rebuild the design column by column in dictionary
     * order, minimise the objective from the zero vector, then store the
     * weights at the minimiser's answer, their rescaling and the effective
     * sample size, and set the flag. The new state depends only on the data,
     * the dictionary, `exp` and `solver`, never on the state before.
     */
    method CalcWeights(exp: real -> real, solver: Solver)
      requires Valid() && IsExp(exp) && IsSolver(solver)
      requires |spec| > 0 && index.rows > 0
      modifies this
      ensures Valid() && weightsCalculated
      ensures design == BuildDesign(spec, index, target)
      ensures a1 == solver(design, StartPoint(design))
      ensures weights == Tilt(exp, design, index.rows, a1) && tilt == exp
      ensures weightsScaled == Scaled(weights, index.rows)
      ensures ess == Ess(weights)
    {
      FillDesign();
      var a := solver(design, StartPoint(design));
      var w := Tilt(exp, design, index.rows, a);
      WeightsCalibrated(w, index.rows);
      a1, weights := a, w;
      weightsScaled := Scaled(w, index.rows);
      ess := Ess(w);
      tilt := exp;
      weightsCalculated := true;
    }

    /**
     * The loop of calc_weights that fills `X_EM_0`: start from an empty frame
     * and assign each entry's centred column under its name, in dictionary
     * order.
     */
    method FillDesign()
      requires SpecValid(spec, index, target)
      modifies this`design
      ensures design == BuildDesign(spec, index, target)
    {
      design := [];
      var i := 0;
      while i < |spec|
        invariant 0 <= i <= |spec|
        invariant SpecValid(spec[..i], index, target)
        invariant design == BuildDesign(spec[..i], index, target)
      {
        BuildDesignExtend(spec, index, target, i);
        design := PutColumn(design, ColumnName(spec[i].1), EntryColumn(spec[i].0, spec[i].1, index, target));
        i := i + 1;
      }
      assert spec[..|spec|] == spec;
    }

    /**
     * The guard of `plot_weights`: without calculated weights it raises
     * NoWeightsException; otherwise it plots the scaled weights, which add up
     * to the population size.
     */
    method PlotWeights() returns (r: Result<seq<real>>)
      requires Valid()
      ensures r.Failure? <==> !weightsCalculated
      ensures r.Failure? ==> r.error == NoWeights
      ensures r.Success? ==> r.value == weightsScaled && |r.value| == index.rows
      ensures r.Success? ==> AllPositive(r.value) && Sum(r.value) == index.rows as real
    {
      if !weightsCalculated {
        return Failure(NoWeights);
      }
      return Success(weightsScaled);
    }

    /**
     * The guard of `compare_populations`: only a weighted comparison needs
     * the weights, so only that one raises NoWeightsException before
     * calc_weights.
     */
    method ComparePopulations(weighted: bool) returns (r: Result<()>)
      requires Valid()
      ensures r.Failure? <==> weighted && !weightsCalculated
      ensures r.Failure? ==> r.error == NoWeights
    {
      if weighted && !weightsCalculated {
        return Failure(NoWeights);
      }
      return Success(());
    }
  }

  /**
   * The object's life cycle: after construction both plotting guards that
   * need weights refuse while the unweighted comparison is allowed, and after
   * calc_weights all of them are allowed.
   */
  method Lifecycle(index: IndexFrame, target: TargetRow, spec: MatchSpec,
                   exp: real -> real, solver: Solver)
    returns (m: Maic, plotBefore: Result<seq<real>>, weightedBefore: Result<()>,
             unweightedBefore: Result<()>, plotAfter: Result<seq<real>>, weightedAfter: Result<()>,
             unweightedAfter: Result<()>)
    requires Rectangular(index) && WellShaped(spec) && |spec| > 0 && index.rows > 0
    requires AllValid(spec, index.columns.Keys, target.Keys)
    requires IsExp(exp) && IsSolver(solver)
    ensures fresh(m) && m.Valid() && m.weightsCalculated
    ensures plotBefore == Failure(NoWeights) && weightedBefore == Failure(NoWeights)
    ensures unweightedBefore.Success?
    ensures plotAfter == Success(m.weightsScaled) && weightedAfter.Success?
    ensures unweightedAfter.Success?
  {
    var created := Maic.Create(index, target, spec);
    m := created.value;
    plotBefore := m.PlotWeights();
    weightedBefore := m.ComparePopulations(true);
    unweightedBefore := m.ComparePopulations(false);
    m.CalcWeights(exp, solver);
    plotAfter := m.PlotWeights();
    weightedAfter := m.ComparePopulations(true);
    unweightedAfter := m.ComparePopulations(false);
  }

  /**
   * calc_weights rebuilds everything from scratch, so a second call with the
   * same exponential and minimiser leaves the results of the first one.
   */
  method CalcWeightsTwice(m: Maic, exp: real -> real, solver: Solver)
    returns (firstWeights: seq<real>, firstScaled: seq<real>, firstEss: real)
    requires m.Valid() && IsExp(exp) && IsSolver(solver)
    requires |m.spec| > 0 && m.index.rows > 0
    modifies m
    ensures m.Valid() && m.weightsCalculated
    ensures m.weights == firstWeights && m.weightsScaled == firstScaled && m.ess == firstEss
  {
    m.CalcWeights(exp, solver);
    firstWeights, firstScaled, firstEss := m.weights, m.weightsScaled, m.ess;
    m.CalcWeights(exp, solver);
  }
}
