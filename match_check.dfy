/**
 * Validation of the `match` dictionary (MAIC._check_match in indcomp/_maic.py).
 *
 * The dictionary keeps its insertion order, so it is a sequence of
 * (target column, value) pairs. A value is either a bare string or a
 * tuple of strings; the validator tests for a bare string first.
 */
module MatchCheck {
  import opened Exceptions

  datatype MatchValue = Str(s: string) | Tuple(items: seq<string>)

  type Entry = (string, MatchValue)

  /** The `match` dictionary, in insertion order. */
  type MatchSpec = seq<Entry>

  /** Every tuple has a first item (an empty tuple makes `v[0]` fail outside the model). */
  predicate WellShaped(spec: MatchSpec)
  {
    forall i :: 0 <= i < |spec| ==> spec[i].1.Tuple? ==> |spec[i].1.items| > 0
  }

  predicate IsMeanEntry(v: MatchValue)
  {
    v.Tuple? && |v.items| == 2 && v.items[0] == "mean"
  }

  predicate IsStdEntry(v: MatchValue)
  {
    v.Tuple? && |v.items| == 3 && v.items[0] == "std"
  }

  /**
   * What the documentation of the `match` attribute asks of one entry:
   * ("mean", c) or ("std", c, m), with the key and m among the target
   * columns and c among the index columns.
   */
  predicate EntryValid(k: string, v: MatchValue, indCols: set<string>, tarCols: set<string>)
  {
    && k in tarCols
    && (IsMeanEntry(v) || IsStdEntry(v))
    && v.items[1] in indCols
    && (IsStdEntry(v) ==> v.items[2] in tarCols)
  }

  predicate AllValid(spec: MatchSpec, indCols: set<string>, tarCols: set<string>)
  {
    forall i :: 0 <= i < |spec| ==> EntryValid(spec[i].0, spec[i].1, indCols, tarCols)
  }

  /**
   * The checks of one entry, in the order the engine performs them; the
   * first that fails decides the error.
   */
  function CheckEntry(k: string, v: MatchValue, indCols: set<string>, tarCols: set<string>): (r: Result<()>)
    requires v.Tuple? ==> |v.items| > 0
    ensures r.Success? <==> EntryValid(k, v, indCols, tarCols)
    ensures r.Failure? ==> Explains(r.error, k, v, indCols, tarCols)
  {
    match v
    case Str(s) => Failure(Config(s))
    case Tuple(t) =>
      if t[0] != "mean" && t[0] != "std" then Failure(Statistic(t[0]))
      else if t[0] == "mean" && |t| != 2 then Failure(MeanConfig(t))
      else if t[0] == "std" && |t| != 3 then Failure(StdConfig(t))
      else if t[0] == "std" && t[2] !in tarCols then Failure(ColumnNotFound(t[2], Target))
      else if k !in tarCols then Failure(ColumnNotFound(k, Target))
      else if t[1] !in indCols then Failure(ColumnNotFound(t[1], Index))
      else Success(())
  }

  /** The error `e` reports a real defect of the entry, with the offending part as payload. */
  predicate Explains(e: MaicError, k: string, v: MatchValue, indCols: set<string>, tarCols: set<string>)
  {
    match e
    case NoWeights => false
    case Config(s) => v == Str(s)
    case Statistic(stat) => v.Tuple? && |v.items| > 0 && stat == v.items[0] && stat != "mean" && stat != "std"
    case MeanConfig(t) => v == Tuple(t) && |t| > 0 && t[0] == "mean" && |t| != 2
    case StdConfig(t) => v == Tuple(t) && |t| > 0 && t[0] == "std" && |t| != 3
    case ColumnNotFound(c, Target) =>
      c !in tarCols && (c == k || (IsStdEntry(v) && c == v.items[2]))
    case ColumnNotFound(c, Index) =>
      c !in indCols && v.Tuple? && |v.items| >= 2 && c == v.items[1]
  }

  /**
   * Which error an invalid entry raises: a bare string beats everything, an
   * unknown statistic beats the arity checks, arity beats every column check,
   * and among the columns the std entry's mean column comes first, then the
   * key, then the index column.
   */
  lemma CheckEntryPrecedence(k: string, v: MatchValue, indCols: set<string>, tarCols: set<string>)
    requires v.Tuple? ==> |v.items| > 0
    ensures v.Str? ==> CheckEntry(k, v, indCols, tarCols) == Failure(Config(v.s))
    ensures v.Tuple? && v.items[0] != "mean" && v.items[0] != "std"
            ==> CheckEntry(k, v, indCols, tarCols) == Failure(Statistic(v.items[0]))
    ensures v.Tuple? && v.items[0] == "mean" && |v.items| != 2
            ==> CheckEntry(k, v, indCols, tarCols) == Failure(MeanConfig(v.items))
    ensures v.Tuple? && v.items[0] == "std" && |v.items| != 3
            ==> CheckEntry(k, v, indCols, tarCols) == Failure(StdConfig(v.items))
    ensures IsStdEntry(v) && v.items[2] !in tarCols
            ==> CheckEntry(k, v, indCols, tarCols) == Failure(ColumnNotFound(v.items[2], Target))
    ensures (IsMeanEntry(v) || (IsStdEntry(v) && v.items[2] in tarCols)) && k !in tarCols
            ==> CheckEntry(k, v, indCols, tarCols) == Failure(ColumnNotFound(k, Target))
    ensures (IsMeanEntry(v) || (IsStdEntry(v) && v.items[2] in tarCols)) && k in tarCols
            && v.items[1] !in indCols
            ==> CheckEntry(k, v, indCols, tarCols) == Failure(ColumnNotFound(v.items[1], Index))
  {
  }

  /** `_check_match`: entries are checked in dictionary order; the first bad one raises. */
  function CheckMatch(spec: MatchSpec, indCols: set<string>, tarCols: set<string>): (r: Result<()>)
    requires WellShaped(spec)
    ensures r.Success? <==> AllValid(spec, indCols, tarCols)
    ensures r.Failure? ==> r.error != NoWeights
  {
    if |spec| == 0 then Success(())
    else
      match CheckEntry(spec[0].0, spec[0].1, indCols, tarCols)
      case Failure(e) => Failure(e)
      case Success(_) =>
        assert WellShaped(spec[1..]) by {
          forall i | 0 <= i < |spec[1..]| ensures spec[1..][i] == spec[i + 1] { }
        }
        var rest := CheckMatch(spec[1..], indCols, tarCols);
        assert rest.Success? <==> AllValid(spec, indCols, tarCols) by {
          if AllValid(spec[1..], indCols, tarCols) {
            forall i | 0 <= i < |spec| ensures EntryValid(spec[i].0, spec[i].1, indCols, tarCols) {
              if i > 0 { assert spec[i] == spec[1..][i - 1]; }
            }
          }
          if AllValid(spec, indCols, tarCols) {
            forall i | 0 <= i < |spec[1..]| ensures EntryValid(spec[1..][i].0, spec[1..][i].1, indCols, tarCols) {
              assert spec[1..][i] == spec[i + 1];
            }
          }
        }
        rest
  }

  /**
   * The error raised is that of the first invalid entry: when the entries
   * before `i` are all valid and entry `i` is not, checking the whole
   * dictionary fails exactly as checking entry `i` alone does.
   */
  lemma {:induction false} CheckMatchFirstError(spec: MatchSpec, indCols: set<string>, tarCols: set<string>, i: nat)
    requires WellShaped(spec)
    requires i < |spec|
    requires forall j :: 0 <= j < i ==> EntryValid(spec[j].0, spec[j].1, indCols, tarCols)
    requires !EntryValid(spec[i].0, spec[i].1, indCols, tarCols)
    ensures CheckMatch(spec, indCols, tarCols) == CheckEntry(spec[i].0, spec[i].1, indCols, tarCols)
    ensures CheckMatch(spec, indCols, tarCols).Failure?
  {
    if i > 0 {
      var tail := spec[1..];
      assert WellShaped(tail) by {
        forall j | 0 <= j < |tail| ensures tail[j] == spec[j + 1] { }
      }
      assert EntryValid(spec[0].0, spec[0].1, indCols, tarCols);
      forall j | 0 <= j < i - 1 ensures EntryValid(tail[j].0, tail[j].1, indCols, tarCols) {
        assert tail[j] == spec[j + 1];
      }
      assert tail[i - 1] == spec[i];
      CheckMatchFirstError(tail, indCols, tarCols, i - 1);
    }
  }

  /** Whatever error the dictionary check raises comes from some entry, all before which are valid. */
  lemma {:induction false} CheckMatchErrorHasCulprit(spec: MatchSpec, indCols: set<string>, tarCols: set<string>)
    requires WellShaped(spec)
    requires CheckMatch(spec, indCols, tarCols).Failure?
    ensures exists i :: (
              && 0 <= i < |spec|
              && (forall j :: 0 <= j < i ==> EntryValid(spec[j].0, spec[j].1, indCols, tarCols))
              && CheckEntry(spec[i].0, spec[i].1, indCols, tarCols) == CheckMatch(spec, indCols, tarCols)
              && Explains(CheckMatch(spec, indCols, tarCols).error, spec[i].0, spec[i].1, indCols, tarCols))
  {
    var i :| 0 <= i < |spec| && !EntryValid(spec[i].0, spec[i].1, indCols, tarCols);
    var first := FirstInvalid(spec, indCols, tarCols, i);
    CheckMatchFirstError(spec, indCols, tarCols, first);
  }

  /** The least index at or below `bound` whose entry is invalid. */
  ghost function FirstInvalid(spec: MatchSpec, indCols: set<string>, tarCols: set<string>, bound: nat): (f: nat)
    requires bound < |spec| && !EntryValid(spec[bound].0, spec[bound].1, indCols, tarCols)
    ensures f <= bound && !EntryValid(spec[f].0, spec[f].1, indCols, tarCols)
    ensures forall j :: 0 <= j < f ==> EntryValid(spec[j].0, spec[j].1, indCols, tarCols)
  {
    if forall j :: 0 <= j < bound ==> EntryValid(spec[j].0, spec[j].1, indCols, tarCols) then bound
    else
      var j :| 0 <= j < bound && !EntryValid(spec[j].0, spec[j].1, indCols, tarCols);
      FirstInvalid(spec, indCols, tarCols, j)
  }
}
