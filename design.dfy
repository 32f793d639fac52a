/**
 * The centred effect-modifier matrix `X_EM_0` that calc_weights builds from
 * the `match` dictionary (indcomp/_maic.py:108-120).
 *
 * A data frame column is a named vector; the matrix is an ordered list of
 * named columns. Assigning a column under a name that is already present
 * replaces that column where it stands, as a pandas column assignment does.
 */
module Design {
  import opened Exceptions
  import opened MatchCheck
  import opened Sums

  /** The individual patient data: `rows` records, one vector per named column. */
  datatype IndexFrame = IndexFrame(rows: nat, columns: map<string, seq<real>>)

  /** The aggregate data: the first (and only) row of each named column. */
  type TargetRow = map<string, real>

  predicate Rectangular(index: IndexFrame)
  {
    forall c :: c in index.columns ==> |index.columns[c]| == index.rows
  }

  type Column = (string, seq<real>)

  /** A data frame built column by column, in column order. */
  type Matrix = seq<Column>

  /** Every column holds one value per record. */
  predicate HasRows(x: Matrix, n: nat)
  {
    forall j :: 0 <= j < |x| ==> |x[j].1| == n
  }

  predicate DistinctNames(x: Matrix)
  {
    forall i, j :: 0 <= i < j < |x| ==> x[i].0 != x[j].0
  }

  function Names(x: Matrix): (r: set<string>)
  {
    set j | 0 <= j < |x| :: x[j].0
  }

  /** `x[name]`: the column stored under `name`, if any. */
  function Lookup(x: Matrix, name: string): (r: Option<seq<real>>)
    ensures r.Some? <==> name in Names(x)
  {
    if |x| == 0 then None
    else
      NamesCons(x);
      if x[0].0 == name then Some(x[0].1)
      else Lookup(x[1..], name)
  }

  lemma {:induction false} LookupFound(x: Matrix, name: string)
    requires Lookup(x, name).Some?
    ensures exists j :: 0 <= j < |x| && x[j] == (name, Lookup(x, name).value)
  {
    if x[0].0 != name {
      LookupFound(x[1..], name);
      var j :| 0 <= j < |x[1..]| && x[1..][j] == (name, Lookup(x, name).value);
      assert x[j + 1] == x[1..][j];
    }
  }

  /**
   * `x[name] = col`: replace the column called `name` in place, or append a
   * new column at the end when there is none.
   */
  function PutColumn(x: Matrix, name: string, col: seq<real>): (r: Matrix)
    ensures Lookup(r, name) == Some(col)
    ensures forall other :: other != name ==> Lookup(r, other) == Lookup(x, other)
  {
    if |x| == 0 then [(name, col)]
    else if x[0].0 == name then [(name, col)] + x[1..]
    else [x[0]] + PutColumn(x[1..], name, col)
  }

  /**
   * Assignment keeps every existing column in its place and untouched unless
   * it carries the assigned name; a new name lands at the end.
   */
  lemma {:induction false} PutColumnShape(x: Matrix, name: string, col: seq<real>)
    ensures var r := PutColumn(x, name, col);
      && Names(r) == Names(x) + {name}
      && |r| == (if name in Names(x) then |x| else |x| + 1)
      && (forall j :: 0 <= j < |x| ==> r[j].0 == x[j].0)
      && (forall j :: 0 <= j < |x| && x[j].0 != name ==> r[j] == x[j])
      && (name !in Names(x) ==> r[|x|] == (name, col))
  {
    var r := PutColumn(x, name, col);
    if |x| > 0 {
      NamesCons(x);
      NamesCons(r);
      if x[0].0 != name {
        var rest := PutColumn(x[1..], name, col);
        PutColumnShape(x[1..], name, col);
        assert r[1..] == rest;
        forall j | 0 < j < |x| ensures r[j].0 == x[j].0 && (x[j].0 != name ==> r[j] == x[j]) {
          assert r[j] == rest[j - 1] && x[j] == x[1..][j - 1];
        }
      } else {
        assert r[1..] == x[1..];
      }
    }
  }

  /** Assignment keeps every column as long as the frame. */
  lemma {:induction false} PutColumnRows(x: Matrix, name: string, col: seq<real>, n: nat)
    requires HasRows(x, n) && |col| == n
    ensures HasRows(PutColumn(x, name, col), n)
  {
    if |x| > 0 {
      var rest := x[1..];
      assert HasRows(rest, n) by {
        forall i | 0 <= i < |rest| ensures rest[i] == x[i + 1] { }
      }
      if x[0].0 != name {
        PutColumnRows(rest, name, col, n);
      }
    }
  }

  /** Assignment keeps column names distinct. */
  lemma {:induction false} PutColumnDistinct(x: Matrix, name: string, col: seq<real>)
    requires DistinctNames(x)
    ensures DistinctNames(PutColumn(x, name, col))
  {
    var r := PutColumn(x, name, col);
    PutColumnShape(x, name, col);
    forall i, j | 0 <= i < j < |r| ensures r[i].0 != r[j].0 {
      if j == |x| {
        assert x[i].0 in Names(x);
      }
    }
  }

  lemma NamesCons(x: Matrix)
    requires |x| > 0
    ensures Names(x) == {x[0].0} + Names(x[1..])
  {
    forall s | s in Names(x) ensures s in {x[0].0} + Names(x[1..]) {
      var j :| 0 <= j < |x| && x[j].0 == s;
      if j > 0 { assert x[1..][j - 1] == x[j]; }
    }
    forall s | s in Names(x[1..]) ensures s in Names(x) {
      var j :| 0 <= j < |x[1..]| && x[1..][j].0 == s;
      assert x[j + 1] == x[1..][j];
    }
  }

  /** The design column a valid entry produces: "c_mean" or "c_std". */
  function ColumnName(v: MatchValue): (r: string)
    requires IsMeanEntry(v) || IsStdEntry(v)
    ensures |r| > |v.items[1]| && r[..|v.items[1]|] == v.items[1]
  {
    if v.items[0] == "mean" then v.items[1] + "_mean" else v.items[1] + "_std"
  }

  /**
   * Two entries write the same design column exactly when they match the
   * same statistic of the same index column: "_mean" and "_std" never end
   * alike, and the suffix fixes where the index column's name stops.
   */
  lemma {:induction false} ColumnNameCollides(v: MatchValue, u: MatchValue)
    requires IsMeanEntry(v) || IsStdEntry(v)
    requires IsMeanEntry(u) || IsStdEntry(u)
    ensures ColumnName(v) == ColumnName(u) <==> v.items[0] == u.items[0] && v.items[1] == u.items[1]
  {
    var a, b := ColumnName(v), ColumnName(u);
    if a == b {
      assert a[|a| - 1] == b[|b| - 1];
      var sa := if v.items[0] == "mean" then "_mean" else "_std";
      var sb := if u.items[0] == "mean" then "_mean" else "_std";
      assert a[|a| - 1] == sa[|sa| - 1] && b[|b| - 1] == sb[|sb| - 1];
      assert v.items[0] == u.items[0];
      assert |v.items[1]| == |u.items[1]|;
      assert v.items[1] == a[..|v.items[1]|] == b[..|u.items[1]|] == u.items[1];
    }
  }

  /**
   * The centred values of one entry: for ("mean", c) the index values of c
   * minus the target's value under the key; for ("std", c, m) the squared
   * index values minus the squares of the target's std and mean.
   */
  function EntryColumn(k: string, v: MatchValue, index: IndexFrame, target: TargetRow): (col: seq<real>)
    requires Rectangular(index)
    requires EntryValid(k, v, index.columns.Keys, target.Keys)
    ensures |col| == index.rows
  {
    var x := index.columns[v.items[1]];
    if v.items[0] == "mean" then
      seq(index.rows, i requires 0 <= i < index.rows => x[i] - target[k])
    else
      seq(index.rows, i requires 0 <= i < index.rows => Square(x[i]) - Square(target[k]) - Square(target[v.items[2]]))
  }

  /** The squares of the entries of `x`, `x ** 2`. */
  function Squares(x: seq<real>): (r: seq<real>)
    ensures |r| == |x| && forall i :: 0 <= i < |x| ==> r[i] == Square(x[i])
  {
    seq(|x|, i requires 0 <= i < |x| => Square(x[i]))
  }

  /**
   * What each entry's column is centred on: a mean column is the index
   * column shifted by the target mean; a std column is the squared index
   * column shifted by target std² + target mean², the target's second moment.
   */
  lemma {:induction false} EntryColumnCentres(k: string, v: MatchValue, index: IndexFrame, target: TargetRow)
    requires Rectangular(index)
    requires EntryValid(k, v, index.columns.Keys, target.Keys)
    ensures IsMeanEntry(v) ==>
      EntryColumn(k, v, index, target) == Shift(index.columns[v.items[1]], target[k])
    ensures IsStdEntry(v) ==>
      EntryColumn(k, v, index, target)
      == Shift(Squares(index.columns[v.items[1]]), Square(target[k]) + Square(target[v.items[2]]))
  {
  }

  predicate SpecValid(spec: MatchSpec, index: IndexFrame, target: TargetRow)
  {
    Rectangular(index) && AllValid(spec, index.columns.Keys, target.Keys)
  }

  lemma {:induction false} PrefixValid(spec: MatchSpec, index: IndexFrame, target: TargetRow, m: nat)
    requires SpecValid(spec, index, target) && m <= |spec|
    ensures SpecValid(spec[..m], index, target)
  {
    assert forall i :: 0 <= i < m ==> spec[..m][i] == spec[i];
  }

  /** The names of the columns the entries of `spec` produce. */
  function EntryNames(spec: MatchSpec, index: IndexFrame, target: TargetRow): (r: set<string>)
    requires SpecValid(spec, index, target)
  {
    set i | 0 <= i < |spec| :: ColumnName(spec[i].1)
  }

  /**
   * `X_EM_0`: start from an empty frame and assign each entry's column in
   * dictionary order.
   */
  function BuildDesign(spec: MatchSpec, index: IndexFrame, target: TargetRow): (x: Matrix)
    requires SpecValid(spec, index, target)
    ensures HasRows(x, index.rows)
    decreases |spec|
  {
    if |spec| == 0 then []
    else
      var m := |spec| - 1;
      PrefixValid(spec, index, target, m);
      var (k, v) := spec[m];
      var prev := BuildDesign(spec[..m], index, target);
      PutColumnRows(prev, ColumnName(v), EntryColumn(k, v, index, target), index.rows);
      PutColumn(prev, ColumnName(v), EntryColumn(k, v, index, target))
  }

  /** The last entry's column is assigned on top of the design of the others. */
  lemma {:induction false} BuildDesignStep(spec: MatchSpec, index: IndexFrame, target: TargetRow)
    requires SpecValid(spec, index, target) && |spec| > 0
    ensures SpecValid(spec[..|spec| - 1], index, target)
    ensures BuildDesign(spec, index, target)
            == PutColumn(BuildDesign(spec[..|spec| - 1], index, target),
                         ColumnName(spec[|spec| - 1].1),
                         EntryColumn(spec[|spec| - 1].0, spec[|spec| - 1].1, index, target))
  {
    PrefixValid(spec, index, target, |spec| - 1);
  }

  /** Extending the dictionary prefix by entry `i` assigns that entry's column on top. */
  lemma {:induction false} BuildDesignExtend(spec: MatchSpec, index: IndexFrame, target: TargetRow, i: nat)
    requires SpecValid(spec, index, target) && i < |spec|
    ensures SpecValid(spec[..i], index, target) && SpecValid(spec[..i + 1], index, target)
    ensures BuildDesign(spec[..i + 1], index, target)
            == PutColumn(BuildDesign(spec[..i], index, target),
                         ColumnName(spec[i].1), EntryColumn(spec[i].0, spec[i].1, index, target))
  {
    PrefixValid(spec, index, target, i);
    PrefixValid(spec, index, target, i + 1);
    BuildDesignStep(spec[..i + 1], index, target);
    assert spec[..i + 1][..i] == spec[..i] && spec[..i + 1][i] == spec[i];
  }

  /**
   * The design's columns carry distinct names, and they are exactly the
   * names "c_mean" / "c_std" of the entries.
   */
  lemma {:induction false} BuildDesignNames(spec: MatchSpec, index: IndexFrame, target: TargetRow)
    requires SpecValid(spec, index, target)
    ensures DistinctNames(BuildDesign(spec, index, target))
    ensures Names(BuildDesign(spec, index, target)) == EntryNames(spec, index, target)
  {
    if |spec| > 0 {
      var m := |spec| - 1;
      BuildDesignStep(spec, index, target);
      var (k, v) := spec[m];
      var prev := BuildDesign(spec[..m], index, target);
      BuildDesignNames(spec[..m], index, target);
      PutColumnNames(prev, ColumnName(v), EntryColumn(k, v, index, target));
      PutColumnDistinct(prev, ColumnName(v), EntryColumn(k, v, index, target));
      EntryNamesStep(spec, index, target);
    }
  }

  lemma {:induction false} PutColumnNames(x: Matrix, name: string, col: seq<real>)
    ensures Names(PutColumn(x, name, col)) == Names(x) + {name}
  {
    PutColumnShape(x, name, col);
  }

  lemma {:induction false} EntryNamesStep(spec: MatchSpec, index: IndexFrame, target: TargetRow)
    requires SpecValid(spec, index, target) && |spec| > 0
    ensures SpecValid(spec[..|spec| - 1], index, target)
    ensures EntryNames(spec, index, target)
            == EntryNames(spec[..|spec| - 1], index, target) + {ColumnName(spec[|spec| - 1].1)}
  {
    var m := |spec| - 1;
    PrefixValid(spec, index, target, m);
    assert forall i :: 0 <= i < m ==> spec[..m][i] == spec[i];
  }

  /** No later entry of the dictionary writes the same design column as entry `i`. */
  predicate LastWriter(spec: MatchSpec, index: IndexFrame, target: TargetRow, i: nat)
    requires SpecValid(spec, index, target) && i < |spec|
  {
    forall j :: i < j < |spec| ==> ColumnName(spec[j].1) != ColumnName(spec[i].1)
  }

  /**
   * The design holds, under each entry's column name, the column of the last
   * entry that writes that name: a later entry with the same statistic and
   * index column overwrites an earlier one.
   */
  lemma {:induction false} DesignColumnOfLastWriter(spec: MatchSpec, index: IndexFrame, target: TargetRow, i: nat)
    requires SpecValid(spec, index, target) && i < |spec|
    requires LastWriter(spec, index, target, i)
    ensures Lookup(BuildDesign(spec, index, target), ColumnName(spec[i].1))
            == Some(EntryColumn(spec[i].0, spec[i].1, index, target))
  {
    var m := |spec| - 1;
    BuildDesignStep(spec, index, target);
    var prev := BuildDesign(spec[..m], index, target);
    var name := ColumnName(spec[m].1);
    if i < m {
      assert spec[..m][i] == spec[i];
      assert LastWriter(spec[..m], index, target, i) by {
        forall j | i < j < m ensures ColumnName(spec[..m][j].1) != ColumnName(spec[..m][i].1) {
          assert spec[..m][j] == spec[j];
        }
      }
      DesignColumnOfLastWriter(spec[..m], index, target, i);
      assert ColumnName(spec[i].1) != name;
    }
  }

  /** The design has exactly one column per distinct column name of the entries. */
  lemma {:induction false} DesignWidth(spec: MatchSpec, index: IndexFrame, target: TargetRow)
    requires SpecValid(spec, index, target)
    ensures |BuildDesign(spec, index, target)| == |EntryNames(spec, index, target)|
    ensures |spec| > 0 ==> |BuildDesign(spec, index, target)| > 0
  {
    var x := BuildDesign(spec, index, target);
    BuildDesignNames(spec, index, target);
    DistinctNamesCount(x);
    if |spec| > 0 {
      assert ColumnName(spec[0].1) in EntryNames(spec, index, target);
    }
  }

  lemma {:induction false} DistinctNamesCount(x: Matrix)
    requires DistinctNames(x)
    ensures |Names(x)| == |x|
  {
    if |x| > 0 {
      var rest := x[1..];
      assert DistinctNames(rest) by {
        forall i, j | 0 <= i < j < |rest| ensures rest[i].0 != rest[j].0 {
          assert rest[i] == x[i + 1] && rest[j] == x[j + 1];
        }
      }
      DistinctNamesCount(rest);
      assert Names(x) == Names(rest) + {x[0].0} by {
        forall s | s in Names(x) ensures s in Names(rest) + {x[0].0} {
          var j :| 0 <= j < |x| && x[j].0 == s;
          if j > 0 { assert rest[j - 1] == x[j]; }
        }
        forall s | s in Names(rest) ensures s in Names(x) {
          var j :| 0 <= j < |rest| && rest[j].0 == s;
          assert x[j + 1] == rest[j];
        }
      }
      assert x[0].0 !in Names(rest) by {
        forall j | 0 <= j < |rest| ensures rest[j].0 != x[0].0 {
          assert rest[j] == x[j + 1];
        }
      }
    }
  }
}
