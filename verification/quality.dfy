/**
 * The data-quality gate the transform stage runs on its output
 * (`_validate_data_quality`): a hard row minimum, a bound on the fraction of null
 * cells, and a duplicate-id count that is only reported.
 */
module Quality {

  import opened Base
  import opened Data

  /** The row minimum, written into the gate rather than read from the configuration. */
  const MinRows := 10

  /** Null cells of one row among `cols`. */
  function NullsOf(row: Record, cols: seq<Column>): (n: nat)
    ensures n <= |cols|
  {
    if |cols| == 0 then 0
    else NullsOf(row, cols[..|cols| - 1]) + if Get(row, cols[|cols| - 1]).Null? then 1 else 0
  }

  /** `df.isnull().sum().sum()`: the null cells of the whole table. */
  function NullCount(t: Table): (n: nat)
    ensures n <= Cells(t)
    decreases |t.rows|
  {
    if |t.rows| == 0 then 0
    else
      var rest := Table(t.columns, t.rows[..|t.rows| - 1]);
      assert Cells(t) == Cells(rest) + |t.columns|;
      NullCount(rest) + NullsOf(t.rows[|t.rows| - 1], t.columns)
  }

  /** `len(df) * len(df.columns)`. */
  function Cells(t: Table): nat
  {
    |t.rows| * |t.columns|
  }

  /**
   * `missing_pct > max_missing_pct` with `missing_pct = nulls / cells`, stated
   * without the division. A frame without cells gives 0 / 0, a NaN, which compares
   * false, so it never fails this check.
   */
  predicate Exceeds(nulls: nat, cells: nat, maxMissing: real)
  {
    cells > 0 && nulls as real > maxMissing * cells as real
  }

  predicate TooManyNulls(t: Table, maxMissing: real)
  {
    Exceeds(NullCount(t), Cells(t), maxMissing)
  }

  lemma DivMul(n: real, c: real)
    requires c > 0.0
    ensures n / c * c == n
  {
  }

  lemma StrictScale(a: real, x: real, y: real)
    requires a > 0.0 && x < y
    ensures x * a < y * a
  {
    assert (y - x) * a > 0.0;
  }

  /** `n > m * c` is `n / c > m` for a positive `c`. */
  lemma CrossMultiply(n: real, c: real, m: real)
    requires c > 0.0
    ensures n > m * c <==> n / c > m
  {
    var q := n / c;
    DivMul(n, c);
    if q > m {
      StrictScale(c, m, q);
    } else if q < m {
      StrictScale(c, q, m);
    }
  }

  /** The cross-multiplied check is the check on the fraction itself. */
  lemma ExceedsIsFraction(nulls: nat, cells: nat, maxMissing: real)
    requires cells > 0
    ensures Exceeds(nulls, cells, maxMissing) <==> nulls as real / cells as real > maxMissing
  {
    CrossMultiply(nulls as real, cells as real, maxMissing);
  }

  /** The first reason a table fails the gate, if any: too few rows, then too many nulls. */
  function Check(e: Entry, maxMissing: real): (r: Option<Error>)
    ensures r.None? <==> |e.table.rows| >= MinRows && !TooManyNulls(e.table, maxMissing)
    ensures |e.table.rows| < MinRows ==> r == Some(InsufficientData(e.name, |e.table.rows|))
    ensures |e.table.rows| >= MinRows && TooManyNulls(e.table, maxMissing) ==>
      r == Some(TooManyMissing(e.name, NullCount(e.table), Cells(e.table)))
    ensures r.Some? && r.value.TooManyMissing? ==>
      r.value.nulls == NullCount(e.table) && r.value.cells == Cells(e.table) && r.value.table == e.name
  {
    if |e.table.rows| < MinRows then Some(InsufficientData(e.name, |e.table.rows|))
    else if TooManyNulls(e.table, maxMissing) then Some(TooManyMissing(e.name, NullCount(e.table), Cells(e.table)))
    else None
  }

  /** `Series.duplicated().sum()`: the cells equal to some earlier cell. */
  function DuplicateCount(vs: seq<Value>): (n: nat)
    ensures n <= |vs|
  {
    if |vs| == 0 then 0
    else DuplicateCount(vs[..|vs| - 1]) + if vs[|vs| - 1] in vs[..|vs| - 1] then 1 else 0
  }

  /** The distinct values of a column. */
  function ValuesOf(vs: seq<Value>): set<Value>
  {
    set v | v in vs
  }

  /** The duplicate count is the number of cells minus the number of distinct values. */
  lemma {:induction false} DuplicatesAreRepeats(vs: seq<Value>)
    ensures DuplicateCount(vs) == |vs| - |ValuesOf(vs)|
  {
    if |vs| > 0 {
      var init, x := vs[..|vs| - 1], vs[|vs| - 1];
      DuplicatesAreRepeats(init);
      assert vs == init + [x];
      assert ValuesOf(vs) == ValuesOf(init) + {x};
    }
  }

  /** The warning the gate logs for a table with repeated player ids. */
  datatype Warning = DuplicatePlayerIds(table: string, count: nat)

  /** The duplicate warning of one table, when it has a `player_id` column with repeats. */
  function WarningOf(e: Entry): (r: Option<Warning>)
    ensures r.Some? <==> PlayerId in e.table.columns && |ValuesOf(ColumnOf(e.table.rows, PlayerId))| < |e.table.rows|
    ensures r.Some? ==> r.value.count == |e.table.rows| - |ValuesOf(ColumnOf(e.table.rows, PlayerId))|
  {
    var ids := ColumnOf(e.table.rows, PlayerId);
    DuplicatesAreRepeats(ids);
    if PlayerId in e.table.columns && DuplicateCount(ids) > 0 then Some(DuplicatePlayerIds(e.name, DuplicateCount(ids)))
    else None
  }

  /**
   * `_validate_data_quality(data)`: the tables in order; the first failing table
   * raises its error, and the duplicate warnings of the tables never fail the gate.
   */
  function Validate(ds: DataSet, maxMissing: real): (r: Result<seq<Warning>, Error>)
    ensures r.Success? <==> forall k | 0 <= k < |ds| :: Check(ds[k], maxMissing).None?
    ensures r.Failure? ==>
      exists k | 0 <= k < |ds| :: Check(ds[k], maxMissing) == Some(r.error) &&
        forall j | 0 <= j < k :: Check(ds[j], maxMissing).None?
  {
    if |ds| == 0 then Success([])
    else match Check(ds[0], maxMissing)
      case Some(e) => Failure(e)
      case None =>
        var rest := Validate(ds[1..], maxMissing);
        FirstFailureShifts(ds, maxMissing, rest);
        if rest.Failure? then Failure(rest.error)
        else
          var w := WarningOf(ds[0]);
          Success((if w.Some? then [w.value] else []) + rest.value)
  }

  /** A failure found after a passing first table is a first failure of the whole sequence. */
  lemma FirstFailureShifts(ds: DataSet, maxMissing: real, rest: Result<seq<Warning>, Error>)
    requires 0 < |ds| && Check(ds[0], maxMissing).None?
    requires rest.Success? <==> forall k | 0 <= k < |ds| - 1 :: Check(ds[1..][k], maxMissing).None?
    requires rest.Failure? ==>
      exists k | 0 <= k < |ds| - 1 :: Check(ds[1..][k], maxMissing) == Some(rest.error) &&
        forall j | 0 <= j < k :: Check(ds[1..][j], maxMissing).None?
    ensures rest.Success? <==> forall k | 0 <= k < |ds| :: Check(ds[k], maxMissing).None?
    ensures rest.Failure? ==>
      exists k | 0 <= k < |ds| :: Check(ds[k], maxMissing) == Some(rest.error) &&
        forall j | 0 <= j < k :: Check(ds[j], maxMissing).None?
  {
    assert forall k | 0 <= k < |ds| - 1 :: ds[1..][k] == ds[k + 1];
    if rest.Failure? {
      var k :| 0 <= k < |ds| - 1 && Check(ds[1..][k], maxMissing) == Some(rest.error) &&
        forall j | 0 <= j < k :: Check(ds[1..][j], maxMissing).None?;
      assert Check(ds[k + 1], maxMissing) == Some(rest.error);
    } else {
      forall k | 0 <= k < |ds| ensures Check(ds[k], maxMissing).None? {
        if k > 0 {
          assert ds[k] == ds[1..][k - 1];
        }
      }
    }
  }

  /** Every warning of a passing gate is the duplicate warning of one of its tables. */
  lemma {:induction false} WarningsFromTables(ds: DataSet, maxMissing: real)
    requires Validate(ds, maxMissing).Success?
    ensures forall w | w in Validate(ds, maxMissing).value :: exists k | 0 <= k < |ds| :: WarningOf(ds[k]) == Some(w)
  {
    if |ds| > 0 {
      WarningsFromTables(ds[1..], maxMissing);
      assert forall k | 0 <= k < |ds| - 1 :: ds[1..][k] == ds[k + 1];
    }
  }

  /** Ten rows meet the row minimum. */
  lemma TenRowsPass(name: string, t: Table, maxMissing: real)
    requires |t.rows| == 10 && !TooManyNulls(t, maxMissing)
    ensures Check(Entry(name, t), maxMissing).None?
  {
  }

  /** Nine rows fail it, whatever else the table holds. */
  lemma NineRowsFail(name: string, t: Table, maxMissing: real)
    requires |t.rows| == 9
    ensures Check(Entry(name, t), maxMissing) == Some(InsufficientData(name, 9))
  {
  }

  /** A null fraction exactly at the maximum passes: the check is strict. */
  lemma ExactFractionPasses(nulls: nat, cells: nat, maxMissing: real)
    requires nulls as real == maxMissing * cells as real
    ensures !Exceeds(nulls, cells, maxMissing)
  {
  }

  /** The gate reads ids only for the warning: changing every id never changes its verdict. */
  lemma {:induction false} IdsNeverFail(ds: DataSet, ds': DataSet, maxMissing: real)
    requires |ds| == |ds'|
    requires forall k | 0 <= k < |ds| ::
      && ds[k].name == ds'[k].name && ds[k].table.columns == ds'[k].table.columns
      && |ds[k].table.rows| == |ds'[k].table.rows|
      && NullCount(ds[k].table) == NullCount(ds'[k].table)
    ensures Validate(ds, maxMissing).Success? <==> Validate(ds', maxMissing).Success?
    ensures Validate(ds, maxMissing).Failure? ==> Validate(ds', maxMissing) == Failure(Validate(ds, maxMissing).error)
    decreases |ds|
  {
    if |ds| > 0 {
      assert Check(ds[0], maxMissing) == Check(ds'[0], maxMissing);
      IdsNeverFail(ds[1..], ds'[1..], maxMissing);
    }
  }
}
