/**
 * The transform stage (`transform_data`): the player list is cleaned and flagged,
 * the advanced statistics are coerced to numbers and capped at the IQR fences,
 * and the quality gate runs on the result before it is returned.
 */
module Transform {

  import opened Base
  import opened Data
  import opened Text
  import opened Stats
  import opened Quality

  /** `df[c] = ...`: an existing column keeps its place, a new one goes last. */
  function AddColumn(cols: seq<Column>, c: Column): (r: seq<Column>)
    ensures forall d :: d in r <==> d in cols || d == c
    ensures Distinct(cols) ==> Distinct(r)
    ensures |cols| <= |r| && r[..|cols|] == cols
  {
    if c in cols then cols else cols + [c]
  }

  /** The first of `needed` that `cols` lacks: the column whose `KeyError` surfaces first. */
  function FirstMissing(cols: seq<Column>, needed: seq<Column>): (r: Option<Column>)
    ensures r.None? <==> forall c | c in needed :: c in cols
    ensures r.Some? ==>
      exists k | 0 <= k < |needed| :: needed[k] == r.value && r.value !in cols && forall j | 0 <= j < k :: needed[j] in cols
  {
    if |needed| == 0 then None
    else if needed[0] !in cols then Some(needed[0])
    else
      var r := FirstMissing(cols, needed[1..]);
      if r.Some? then
        var k :| 0 <= k < |needed| - 1 && needed[1..][k] == r.value && r.value !in cols &&
          forall j | 0 <= j < k :: needed[1..][j] in cols;
        assert needed[k + 1] == r.value;
        assert forall j | 0 <= j < k + 1 :: needed[j] in cols by {
          forall j | 0 <= j < k + 1 ensures needed[j] in cols {
            if j > 0 {
              assert needed[j] == needed[1..][j - 1];
            }
          }
        }
        r
      else
        assert forall c | c in needed[1..] :: c in cols;
        assert forall c | c in needed :: c == needed[0] || c in needed[1..];
        r
  }

  // ----- players -----

  /** The columns `_transform_players_data` reads, in the order it reads them. */
  const PlayersReads: seq<Column> := [PlayerName, TeamName, TeamId, IsActive, PlayerId]

  /** The columns it writes. */
  const PlayersWritten: set<Column> := {PlayerName, TeamName, TeamId, IsActive, IsValid, ProcessedAt}

  /** `.str.strip()` on one cell: a string is stripped, any other value becomes null. */
  function Strip(v: Value): Value
  {
    if v.Str? then Str(Trim(v.s)) else Null
  }

  /** `fillna(x)` on one cell. */
  function FillNull(v: Value, x: Value): Value
  {
    if v.Null? then x else v
  }

  /** `cell > 0` on a column without strings: null compares false and a boolean counts as 0 or 1. */
  predicate Positive(v: Value)
  {
    match v
    case Int(i) => i > 0
    case Real(x) => x > 0.0
    case Bool(b) => b
    case _ => false
  }

  /** Some cell of column `c` holds a string. */
  predicate HasText(rows: seq<Record>, c: Column)
  {
    exists i | 0 <= i < |rows| :: Get(rows[i], c).Str?
  }

  /**
   * Cell `c` of a cleaned row: the names are stripped, the team id and the active
   * flag are filled, `is_valid` is computed from the id and the stripped name, and
   * `now` is the `processed_at` stamp; any other cell is copied.
   */
  function PlayerCell(row: Record, c: Column, now: int): Value
  {
    if c == PlayerName || c == TeamName then Strip(Get(row, c))
    else if c == TeamId then FillNull(Get(row, TeamId), Int(0))
    else if c == IsActive then FillNull(Get(row, IsActive), Bool(false))
    else if c == IsValid then
      var id := Get(row, PlayerId);
      Bool(!id.Null? && !Strip(Get(row, PlayerName)).Null? && Positive(id))
    else if c == ProcessedAt then Int(now)
    else Get(row, c)
  }

  /** One row of `_transform_players_data`. */
  function PlayerRow(row: Record, now: int): Record
  {
    map c | c in row.Keys + PlayersWritten :: PlayerCell(row, c, now)
  }

  /**
   * `_transform_players_data(df)`: fails with the first column it reads that is
   * missing, then with a type error when a `player_id` is a string (comparing it
   * with 0); otherwise every row is kept, in order.
   */
  function TransformPlayers(t: Table, now: int): (r: Result<Table, Error>)
    ensures FirstMissing(t.columns, PlayersReads).Some? ==>
      r == Failure(MissingColumn(FirstMissing(t.columns, PlayersReads).value))
    ensures FirstMissing(t.columns, PlayersReads).None? ==>
      (r.Failure? <==> HasText(t.rows, PlayerId)) && (r.Failure? ==> r.error == NotComparable(PlayerId))
    ensures r.Success? ==>
      && |r.value.rows| == |t.rows|
      && r.value.columns == AddColumn(AddColumn(t.columns, IsValid), ProcessedAt)
  {
    match FirstMissing(t.columns, PlayersReads)
    case Some(c) => Failure(MissingColumn(c))
    case None =>
      if HasText(t.rows, PlayerId) then Failure(NotComparable(PlayerId))
      else
        Success(Table(AddColumn(AddColumn(t.columns, IsValid), ProcessedAt),
                      seq(|t.rows|, i requires 0 <= i < |t.rows| => PlayerRow(t.rows[i], now))))
  }

  /** Reading cell `c` of a cleaned row: the cleaned cell where the row has one, null elsewhere. */
  lemma PlayerRowGet(row: Record, now: int, c: Column)
    ensures c in PlayerRow(row, now) <==> c in row || c in PlayersWritten
    ensures Get(PlayerRow(row, now), c) == if c in row || c in PlayersWritten then PlayerCell(row, c, now) else Null
  {
  }

  /** Cleaning keeps the `player_id` cell. */
  lemma PlayerRowKeepsId(row: Record, now: int)
    ensures Get(PlayerRow(row, now), PlayerId) == Get(row, PlayerId)
  {
    PlayerRowGet(row, now, PlayerId);
  }

  /** What `PlayerRow` does to each cell of one row. */
  lemma PlayerRowCells(row: Record, now: int)
    ensures var r := PlayerRow(row, now);
      && r.Keys == row.Keys + PlayersWritten
      && r[PlayerName] == Strip(Get(row, PlayerName)) && r[TeamName] == Strip(Get(row, TeamName))
      && r[TeamId] == FillNull(Get(row, TeamId), Int(0)) && r[IsActive] == FillNull(Get(row, IsActive), Bool(false))
      && r[IsValid] == Bool(!Get(row, PlayerId).Null? && Get(row, PlayerName).Str? && Positive(Get(row, PlayerId)))
      && r[ProcessedAt] == Int(now)
      && forall c | c in row && c !in PlayersWritten :: r[c] == row[c]
  {
    PlayerRowWritten(row, now);
    PlayerRowAdded(row, now);
    PlayerRowFrame(row, now);
  }

  lemma PlayerRowWritten(row: Record, now: int)
    ensures var r := PlayerRow(row, now);
      && r.Keys == row.Keys + PlayersWritten
      && r[PlayerName] == Strip(Get(row, PlayerName)) && r[TeamName] == Strip(Get(row, TeamName))
      && r[TeamId] == FillNull(Get(row, TeamId), Int(0)) && r[IsActive] == FillNull(Get(row, IsActive), Bool(false))
  {
    PlayerRowGet(row, now, TeamId);
    PlayerRowGet(row, now, IsActive);
  }

  lemma PlayerRowAdded(row: Record, now: int)
    ensures var r := PlayerRow(row, now);
      && IsValid in r && ProcessedAt in r
      && r[IsValid] == Bool(!Get(row, PlayerId).Null? && Get(row, PlayerName).Str? && Positive(Get(row, PlayerId)))
      && r[ProcessedAt] == Int(now)
  {
    PlayerRowGet(row, now, IsValid);
  }

  lemma PlayerRowFrame(row: Record, now: int)
    ensures var r := PlayerRow(row, now);
      forall c | c in row && c !in PlayersWritten :: c in r && r[c] == row[c]
  {
  }

  /** The rows of a successful player transform are the rows of the input, each cleaned. */
  lemma PlayersRows(t: Table, now: int, i: nat)
    requires TransformPlayers(t, now).Success? && i < |t.rows|
    ensures TransformPlayers(t, now).value.rows[i] == PlayerRow(t.rows[i], now)
    ensures !Get(t.rows[i], PlayerId).Str?
  {
  }

  /**
   * Names: a string name comes out stripped, with no whitespace at either end, and
   * any other value comes out null.
   */
  lemma PlayersNames(t: Table, now: int, i: nat)
    requires TransformPlayers(t, now).Success? && i < |t.rows|
    ensures var row := TransformPlayers(t, now).value.rows[i];
      && PlayerName in row && TeamName in row
      && (Get(t.rows[i], PlayerName).Str? <==> row[PlayerName].Str?)
      && (row[PlayerName].Str? ==> Trimmed(row[PlayerName].s) && row[PlayerName].s == Trim(t.rows[i][PlayerName].s))
      && (Get(t.rows[i], TeamName).Str? <==> row[TeamName].Str?)
      && (row[TeamName].Str? ==> Trimmed(row[TeamName].s) && row[TeamName].s == Trim(t.rows[i][TeamName].s))
  {
    PlayersRows(t, now, i);
    PlayerRowCells(t.rows[i], now);
  }

  /** A null `team_id` becomes 0 and a null `is_active` becomes false; other values stay. */
  lemma PlayersFilled(t: Table, now: int, i: nat)
    requires TransformPlayers(t, now).Success? && i < |t.rows|
    ensures var row := TransformPlayers(t, now).value.rows[i];
      && TeamId in row && !row[TeamId].Null? && IsActive in row && !row[IsActive].Null?
      && (Get(t.rows[i], TeamId).Null? ==> row[TeamId] == Int(0))
      && (!Get(t.rows[i], TeamId).Null? ==> row[TeamId] == t.rows[i][TeamId])
      && (Get(t.rows[i], IsActive).Null? ==> row[IsActive] == Bool(false))
      && (!Get(t.rows[i], IsActive).Null? ==> row[IsActive] == t.rows[i][IsActive])
  {
    PlayersRows(t, now, i);
    PlayerRowCells(t.rows[i], now);
  }

  /**
   * `is_valid` holds exactly when the row has a `player_id`, a textual name, and a
   * positive id; rows that are not valid are kept, flagged.
   */
  lemma PlayersValidity(t: Table, now: int, i: nat)
    requires TransformPlayers(t, now).Success? && i < |t.rows|
    ensures var row := TransformPlayers(t, now).value.rows[i];
      var id := Get(t.rows[i], PlayerId);
      && IsValid in row && row[IsValid].Bool?
      && (row[IsValid].b <==> !id.Null? && Get(t.rows[i], PlayerName).Str? && Positive(id))
  {
    PlayersRows(t, now, i);
    PlayerRowCells(t.rows[i], now);
  }

  /** Every other cell is left as it was, and the only cells added are the written columns. */
  lemma PlayersFrame(t: Table, now: int, i: nat)
    requires TransformPlayers(t, now).Success? && i < |t.rows|
    ensures var row := TransformPlayers(t, now).value.rows[i];
      && row.Keys == t.rows[i].Keys + PlayersWritten
      && (forall c | c in t.rows[i] && c !in PlayersWritten :: row[c] == t.rows[i][c])
      && row[ProcessedAt] == Int(now)
  {
    PlayersRows(t, now, i);
    PlayerRowCells(t.rows[i], now);
  }

  /** The cleaned table is a table again: distinct columns, every row keyed by them. */
  lemma PlayersWellFormed(t: Table, now: int)
    requires WellFormed(t) && TransformPlayers(t, now).Success?
    ensures WellFormed(TransformPlayers(t, now).value)
  {
    var u := TransformPlayers(t, now).value;
    forall i | 0 <= i < |u.rows| ensures HasColumns(u.rows[i], u.columns) {
      PlayersRows(t, now, i);
      PlayerRowCells(t.rows[i], now);
      assert HasColumns(t.rows[i], t.columns);
    }
  }

  /** Stripping a stripped cell changes nothing. */
  lemma StripIdempotent(v: Value)
    ensures Strip(Strip(v)) == Strip(v)
  {
    if v.Str? {
      TrimIdempotent(v.s);
    }
  }

  /** Cleaning a cleaned cell again gives the cell cleaned once, restamped. */
  lemma PlayerCellIdempotent(row: Record, c: Column, now: int, later: int)
    ensures PlayerCell(PlayerRow(row, now), c, later) == PlayerCell(row, c, later)
  {
    if c == PlayerName || c == TeamName {
      NameCellIdempotent(row, c, now, later);
    } else if c == IsValid {
      ValidCellIdempotent(row, now, later);
    } else {
      OtherCellIdempotent(row, c, now, later);
    }
  }

  /** Stripping a stripped name again changes nothing. */
  lemma NameCellIdempotent(row: Record, c: Column, now: int, later: int)
    requires c == PlayerName || c == TeamName
    ensures PlayerCell(PlayerRow(row, now), c, later) == Strip(Get(row, c))
  {
    PlayerRowGet(row, now, c);
    StripIdempotent(Get(row, c));
  }

  /** `is_valid` of a cleaned row is computed from the same id and name as before. */
  lemma ValidCellIdempotent(row: Record, now: int, later: int)
    ensures PlayerCell(PlayerRow(row, now), IsValid, later) == PlayerCell(row, IsValid, later)
  {
    PlayerRowKeepsId(row, now);
    PlayerRowName(row, now);
    ValidCellSame(PlayerRow(row, now), row, later);
  }

  /** `is_valid` depends only on the id and on whether the name is a string. */
  lemma ValidCellSame(a: Record, b: Record, now: int)
    requires Get(a, PlayerId) == Get(b, PlayerId)
    requires Get(a, PlayerName).Str? == Get(b, PlayerName).Str?
    ensures PlayerCell(a, IsValid, now) == PlayerCell(b, IsValid, now)
  {
  }

  /** Cleaning strips the `player_name` cell. */
  lemma PlayerRowName(row: Record, now: int)
    ensures Get(PlayerRow(row, now), PlayerName) == Strip(Get(row, PlayerName))
  {
    PlayerRowGet(row, now, PlayerName);
  }

  /** Filling a filled cell, restamping, or copying a copied cell again gives the same cell. */
  lemma OtherCellIdempotent(row: Record, c: Column, now: int, later: int)
    requires c != PlayerName && c != TeamName && c != IsValid
    ensures PlayerCell(PlayerRow(row, now), c, later) == PlayerCell(row, c, later)
  {
    PlayerRowGet(row, now, c);
  }

  /** Cleaning a cleaned row again only restamps it. */
  lemma PlayerRowIdempotent(row: Record, now: int, later: int)
    ensures PlayerRow(PlayerRow(row, now), later) == PlayerRow(row, later)
  {
    var once := PlayerRow(row, now);
    var a, b := PlayerRow(once, later), PlayerRow(row, later);
    assert a.Keys == b.Keys;
    forall c | c in a.Keys ensures a[c] == b[c] {
      PlayerCellIdempotent(row, c, now, later);
    }
  }

  /**
   * Transforming an already transformed player list changes nothing but the
   * `processed_at` stamp: stripping is idempotent and filled cells are no longer null.
   */
  lemma {:induction false} PlayersIdempotent(t: Table, now: int, later: int)
    requires TransformPlayers(t, now).Success?
    ensures TransformPlayers(TransformPlayers(t, now).value, later) == TransformPlayers(t, later)
  {
    var u := TransformPlayers(t, now).value;
    PlayersReadsKept(t, now);
    forall i | 0 <= i < |u.rows| ensures !Get(u.rows[i], PlayerId).Str? {
      PlayersRows(t, now, i);
      PlayerRowKeepsId(t.rows[i], now);
    }
    assert !HasText(u.rows, PlayerId);
    var v := TransformPlayers(u, later).value;
    var w := TransformPlayers(t, later).value;
    forall i | 0 <= i < |v.rows| ensures v.rows[i] == w.rows[i] {
      PlayersRows(u, later, i);
      PlayersRows(t, later, i);
      PlayersRows(t, now, i);
      PlayerRowIdempotent(t.rows[i], now, later);
    }
    assert v.rows == w.rows;
    assert v == w;
  }

  /** The cleaned table still has every column the player transform reads. */
  lemma PlayersReadsKept(t: Table, now: int)
    requires TransformPlayers(t, now).Success?
    ensures FirstMissing(TransformPlayers(t, now).value.columns, PlayersReads).None?
  {
    var u := TransformPlayers(t, now).value;
    forall c | c in PlayersReads ensures c in u.columns {
      assert c in t.columns;
    }
  }

  // ----- advanced statistics -----

  /**
   * The columns coerced to numbers and capped, when present: `gp`, `min`,
   * `off_rating`, `def_rating`, `net_rating`, `ast_pct`, `reb_pct`, `usg_pct`,
   * `ts_pct`, `efg_pct` and `pie`.
   */
  predicate Numeric(c: Column)
  {
    || c == Gp || c == Min || c == OffRating || c == DefRating || c == NetRating || c == AstPct
    || c == RebPct || c == UsgPct || c == TsPct || c == EfgPct || c == Pie
  }

  /** The columns `_transform_advanced_stats_data` adds. */
  predicate AdvancedWrites(c: Column)
  {
    c == GamesPlayed || c == MinutesPerGame || c == PlayerEfficiencyRating || c == ProcessedAt
  }

  /** The columns the loops coerce and cap are never among the derived ones. */
  lemma NumericNotDerived(c: Column)
    requires Numeric(c)
    ensures !AdvancedWrites(c)
  {
  }

  /**
   * `pd.to_numeric(cell, errors='coerce')`: numbers stay (as reals), a boolean is 1
   * or 0, a numeral string is read, and anything else becomes null instead of raising.
   */
  function Coerce(v: Value): (r: Value)
    ensures r.Null? || r.Real?
    ensures v.Null? ==> r == Null
    ensures v.Int? ==> r == Real(v.i as real)
    ensures v.Real? ==> r == v
    ensures v.Bool? ==> r == Real(if v.b then 1.0 else 0.0)
    ensures v.Str? ==> (r.Null? <==> ParseNumber(v.s).None?) && (r.Real? ==> ParseNumber(v.s) == Some(r.r))
  {
    match v
    case Null => Null
    case Int(i) => Real(i as real)
    case Real(x) => Real(x)
    case Bool(b) => Real(if b then 1.0 else 0.0)
    case Str(s) => match ParseNumber(s) case Some(x) => Real(x) case None => Null
  }

  /** Coercing a coerced cell changes nothing. */
  lemma CoerceIdempotent(v: Value)
    ensures Coerce(Coerce(v)) == Coerce(v)
  {
  }

  /** An integer written out in decimal coerces to the same number as the integer itself. */
  lemma CoerceShownInt(i: int)
    ensures Coerce(Str(if i < 0 then "-" + ShowNat(-i) else ShowNat(i))) == Coerce(Int(i))
  {
    ParseShownInt(i);
  }

  /** The non-null numbers of a column, in row order: the sample `Series.quantile` reads. */
  function Reals(vs: seq<Value>): (xs: seq<real>)
    ensures |xs| <= |vs|
    ensures forall x | x in xs :: Real(x) in vs
    ensures forall i | 0 <= i < |vs| && vs[i].Real? :: vs[i].r in xs
    ensures forall x :: multiset(xs)[x] == multiset(vs)[Real(x)]
  {
    if |vs| == 0 then []
    else
      var init, last := vs[..|vs| - 1], vs[|vs| - 1];
      assert vs == init + [last];
      Reals(init) + if last.Real? then [last.r] else []
  }

  /** The capping fences of a column, or None when it has no numbers (the quartiles are NaN and nothing is capped). */
  function FencesOf(vs: seq<Value>): Option<Bounds>
  {
    var xs := Reals(vs);
    if |xs| == 0 then None else Some(IqrBounds(xs))
  }

  /** `Series.clip` on one cell: null stays null. */
  function ClipCell(v: Value, fences: Option<Bounds>): Value
  {
    if v.Real? && fences.Some? then Real(Clamp(v.r, fences.value)) else v
  }

  /**
   * The two column loops of `_transform_advanced_stats_data`: each listed column the
   * table has is coerced, and then capped at fences computed from its coerced
   * values. Each pass of either loop reads and writes its own column only, so a
   * cell's result depends on its own column alone.
   */
  function CoercedRow(row: Record, cols: seq<Column>): Record
  {
    map c | c in row :: if Numeric(c) && c in cols then Coerce(row[c]) else row[c]
  }

  function ClippedRow(row: Record, rows: seq<Record>, cols: seq<Column>): Record
  {
    map c | c in row :: if Numeric(c) && c in cols then ClipCell(row[c], FencesOf(ColumnOf(rows, c))) else row[c]
  }

  /** The rows after the coercion loop. */
  function Coerced(t: Table): (rows: seq<Record>)
    ensures |rows| == |t.rows|
  {
    seq(|t.rows|, i requires 0 <= i < |t.rows| => CoercedRow(t.rows[i], t.columns))
  }

  /** The rows after the capping loop. */
  function Clipped(t: Table): (rows: seq<Record>)
    ensures |rows| == |t.rows|
  {
    var coerced := Coerced(t);
    seq(|t.rows|, i requires 0 <= i < |t.rows| => ClippedRow(coerced[i], coerced, t.columns))
  }

  /** `_calculate_per(df)` for one row, with `fillna(0)`: the formula itself is a parameter of the model. */
  function Efficiency(per: Record -> real, row: Record): real
  {
    per(row)
  }

  /** The derived columns: `games_played` and `minutes_per_game` copy `gp` and `min`, then the rating and the stamp. */
  function DerivedRow(row: Record, per: Record -> real, now: int): Record
  {
    var copied := row[GamesPlayed := Get(row, Gp)][MinutesPerGame := Get(row, Min)];
    copied[PlayerEfficiencyRating := Real(Efficiency(per, copied))][ProcessedAt := Int(now)]
  }

  /** The sample the fences of column `c` come from: its coerced, non-null values, before any capping. */
  function Sample(t: Table, c: Column): seq<real>
  {
    Reals(seq(|t.rows|, i requires 0 <= i < |t.rows| => Coerce(Get(t.rows[i], c))))
  }

  /**
   * `_transform_advanced_stats_data(df)`: coercion and capping never drop a row;
   * the copies of `gp` and `min` raise a `KeyError` when the column is missing.
   */
  function TransformAdvanced(t: Table, per: Record -> real, now: int): (r: Result<Table, Error>)
    ensures r.Failure? <==> Gp !in t.columns || Min !in t.columns
    ensures Gp !in t.columns ==> r == Failure(MissingColumn(Gp))
    ensures Gp in t.columns && Min !in t.columns ==> r == Failure(MissingColumn(Min))
    ensures r.Success? ==> |r.value.rows| == |t.rows|
    ensures r.Success? ==> (r.value.columns ==
      AddColumn(AddColumn(AddColumn(AddColumn(t.columns, GamesPlayed), MinutesPerGame), PlayerEfficiencyRating), ProcessedAt))
  {
    var clipped := Clipped(t);
    if Gp !in t.columns then Failure(MissingColumn(Gp))
    else if Min !in t.columns then Failure(MissingColumn(Min))
    else
      Success(Table(
        AddColumn(AddColumn(AddColumn(AddColumn(t.columns, GamesPlayed), MinutesPerGame), PlayerEfficiencyRating), ProcessedAt),
        seq(|t.rows|, i requires 0 <= i < |t.rows| => DerivedRow(clipped[i], per, now))))
  }

  /** `DerivedRow` adds exactly the derived columns. */
  lemma DerivedRowKeys(row: Record, per: Record -> real, now: int)
    ensures forall c :: c in DerivedRow(row, per, now) <==> c in row || AdvancedWrites(c)
  {
  }

  /** The derived cells: the copies of `gp` and `min`, a numeric rating and the stamp. */
  lemma DerivedRowValues(row: Record, per: Record -> real, now: int)
    ensures var r := DerivedRow(row, per, now);
      && GamesPlayed in r && r[GamesPlayed] == Get(row, Gp)
      && MinutesPerGame in r && r[MinutesPerGame] == Get(row, Min)
      && PlayerEfficiencyRating in r && r[PlayerEfficiencyRating].Real?
      && ProcessedAt in r && r[ProcessedAt] == Int(now)
  {
  }

  /** Every other cell of the row is copied. */
  lemma DerivedRowFrame(row: Record, per: Record -> real, now: int)
    ensures forall c | c in row && !AdvancedWrites(c) :: c in DerivedRow(row, per, now) && DerivedRow(row, per, now)[c] == row[c]
  {
  }

  /** The coercion loop leaves each listed column the coerced cells of the input column. */
  lemma CoercedColumn(t: Table, c: Column)
    requires Numeric(c) && c in t.columns
    ensures forall j | 0 <= j < |t.rows| :: Get(Coerced(t)[j], c) == Coerce(Get(t.rows[j], c))
    ensures Reals(ColumnOf(Coerced(t), c)) == Sample(t, c)
  {
    var co := Coerced(t);
    assert ColumnOf(co, c) == seq(|t.rows|, j requires 0 <= j < |t.rows| => Coerce(Get(t.rows[j], c)));
  }

  /** The rows of a successful advanced transform are the capped rows, with the derived columns added. */
  lemma AdvancedRows(t: Table, per: Record -> real, now: int, i: nat)
    requires Gp in t.columns && Min in t.columns && i < |t.rows|
    ensures TransformAdvanced(t, per, now).value.rows[i] == DerivedRow(Clipped(t)[i], per, now)
    ensures Clipped(t)[i].Keys == t.rows[i].Keys
  {
  }

  /**
   * A listed numeric cell: a value that does not coerce (null, or text outside the
   * numeral syntax) comes out null; a number comes out capped at the IQR fences of
   * its column's coerced values, unchanged when it lies between them.
   */
  lemma AdvancedNumeric(t: Table, per: Record -> real, now: int, i: nat, c: Column)
    requires Gp in t.columns && Min in t.columns && i < |t.rows|
    requires Numeric(c) && c in t.columns && c in t.rows[i]
    ensures var row := TransformAdvanced(t, per, now).value.rows[i];
      var x := Coerce(t.rows[i][c]);
      && c in row
      && (x.Null? ==> row[c] == Null)
      && (x.Real? ==>
            && 0 < |Sample(t, c)|
            && var b := IqrBounds(Sample(t, c));
            && row[c] == Real(Clamp(x.r, b))
            && b.lower <= row[c].r <= b.upper
            && (b.lower <= x.r <= b.upper ==> row[c] == x))
  {
    AdvancedRows(t, per, now, i);
    var co := Coerced(t);
    var cl := Clipped(t)[i];
    var row := TransformAdvanced(t, per, now).value.rows[i];
    DerivedRowFrame(cl, per, now);
    CoercedColumn(t, c);
    NumericNotDerived(c);
    var x := Coerce(t.rows[i][c]);
    assert co[i][c] == x;
    assert cl[c] == ClipCell(x, FencesOf(ColumnOf(co, c)));
    assert c in row && row[c] == cl[c];
    if x.Real? {
      assert ColumnOf(co, c)[i] == x;
      assert x.r in Sample(t, c);
      assert FencesOf(ColumnOf(co, c)) == Some(IqrBounds(Sample(t, c)));
    }
  }

  /** `games_played` and `minutes_per_game` are the capped `gp` and `min`; the rating is a number; the stamp is `now`. */
  lemma AdvancedDerived(t: Table, per: Record -> real, now: int, i: nat)
    requires Gp in t.columns && Min in t.columns && i < |t.rows|
    ensures var row := TransformAdvanced(t, per, now).value.rows[i];
      && GamesPlayed in row && row[GamesPlayed] == Get(row, Gp)
      && MinutesPerGame in row && row[MinutesPerGame] == Get(row, Min)
      && PlayerEfficiencyRating in row && row[PlayerEfficiencyRating].Real?
      && ProcessedAt in row && row[ProcessedAt] == Int(now)
  {
    AdvancedRows(t, per, now, i);
    var cl := Clipped(t)[i];
    DerivedRowValues(cl, per, now);
    DerivedRowFrame(cl, per, now);
    var row := TransformAdvanced(t, per, now).value.rows[i];
    assert Get(row, Gp) == Get(cl, Gp) && Get(row, Min) == Get(cl, Min);
  }

  /** Every cell that is neither a listed numeric column nor a derived column is left as it was. */
  lemma AdvancedFrame(t: Table, per: Record -> real, now: int, i: nat)
    requires Gp in t.columns && Min in t.columns && i < |t.rows|
    ensures var row := TransformAdvanced(t, per, now).value.rows[i];
      && (forall c :: c in row <==> c in t.rows[i] || AdvancedWrites(c))
      && forall c | c in t.rows[i] && !AdvancedWrites(c) && !(Numeric(c) && c in t.columns) :: row[c] == t.rows[i][c]
  {
    AdvancedRows(t, per, now, i);
    DerivedRowKeys(Clipped(t)[i], per, now);
    DerivedRowFrame(Clipped(t)[i], per, now);
  }

  /** Capping keeps the order of the numbers within a column. */
  lemma AdvancedOrderKept(t: Table, per: Record -> real, now: int, i: nat, j: nat, c: Column)
    requires Gp in t.columns && Min in t.columns && i < |t.rows| && j < |t.rows|
    requires Numeric(c) && c in t.columns && c in t.rows[i] && c in t.rows[j]
    requires Coerce(t.rows[i][c]).Real? && Coerce(t.rows[j][c]).Real?
    requires Coerce(t.rows[i][c]).r <= Coerce(t.rows[j][c]).r
    ensures var u := TransformAdvanced(t, per, now).value;
      c in u.rows[i] && c in u.rows[j] && u.rows[i][c].Real? && u.rows[j][c].Real? && u.rows[i][c].r <= u.rows[j][c].r
  {
    AdvancedNumeric(t, per, now, i, c);
    AdvancedNumeric(t, per, now, j, c);
    var b := IqrBounds(Sample(t, c));
    ClampMonotone(Coerce(t.rows[i][c]).r, Coerce(t.rows[j][c]).r, b);
  }

  /** The transformed statistics table has the input's columns and the derived ones. */
  lemma AdvancedColumns(t: Table, per: Record -> real, now: int)
    requires Gp in t.columns && Min in t.columns
    ensures forall c :: c in TransformAdvanced(t, per, now).value.columns <==> c in t.columns || AdvancedWrites(c)
    ensures Distinct(t.columns) ==> Distinct(TransformAdvanced(t, per, now).value.columns)
  {
  }

  /** The transformed statistics table is a table again. */
  lemma AdvancedWellFormed(t: Table, per: Record -> real, now: int)
    requires WellFormed(t) && Gp in t.columns && Min in t.columns
    ensures WellFormed(TransformAdvanced(t, per, now).value)
  {
    var u := TransformAdvanced(t, per, now).value;
    AdvancedColumns(t, per, now);
    forall i | 0 <= i < |u.rows| ensures HasColumns(u.rows[i], u.columns) {
      AdvancedFrame(t, per, now, i);
      assert HasColumns(t.rows[i], t.columns);
    }
  }

  // ----- the stage -----

  /** The names of the tables the stage keeps, in the order it produces them. */
  function Kept(raw: DataSet): seq<string>
  {
    (if "players" in Names(raw) then ["players"] else []) + (if "advanced_stats" in Names(raw) then ["advanced_stats"] else [])
  }

  /** The cleaned player list, if the raw data has one: nothing, the one cleaned entry, or the error. */
  function PlayersStep(raw: DataSet, now: int): (r: Result<DataSet, Error>)
    ensures Lookup(raw, "players").None? ==> r == Success([])
    ensures Lookup(raw, "players").Some? ==> (r.Failure? <==> TransformPlayers(Lookup(raw, "players").value, now).Failure?)
    ensures r.Failure? ==> r.error == TransformPlayers(Lookup(raw, "players").value, now).error
    ensures r.Success? ==> Names(r.value) == (if "players" in Names(raw) then ["players"] else [])
    ensures Lookup(raw, "players").Some? && r.Success? ==>
      r.value == [Entry("players", TransformPlayers(Lookup(raw, "players").value, now).value)]
  {
    match Lookup(raw, "players")
    case None => Success([])
    case Some(t) =>
      match TransformPlayers(t, now)
      case Failure(e) => Failure(e)
      case Success(u) => Success([Entry("players", u)])
  }

  /** The transformed statistics, if the raw data has them: nothing, the one transformed entry, or the error. */
  function AdvancedStep(raw: DataSet, per: Record -> real, now: int): (r: Result<DataSet, Error>)
    ensures Lookup(raw, "advanced_stats").None? ==> r == Success([])
    ensures Lookup(raw, "advanced_stats").Some? ==>
      (r.Failure? <==> TransformAdvanced(Lookup(raw, "advanced_stats").value, per, now).Failure?)
    ensures r.Failure? ==> r.error == TransformAdvanced(Lookup(raw, "advanced_stats").value, per, now).error
    ensures r.Success? ==> Names(r.value) == (if "advanced_stats" in Names(raw) then ["advanced_stats"] else [])
    ensures Lookup(raw, "advanced_stats").Some? && r.Success? ==>
      r.value == [Entry("advanced_stats", TransformAdvanced(Lookup(raw, "advanced_stats").value, per, now).value)]
  {
    match Lookup(raw, "advanced_stats")
    case None => Success([])
    case Some(t) =>
      match TransformAdvanced(t, per, now)
      case Failure(e) => Failure(e)
      case Success(u) => Success([Entry("advanced_stats", u)])
  }

  /**
   * `transform_data(raw_data)`: the players table is cleaned if present, then the
   * advanced statistics if present, and any other table is dropped; the quality gate
   * runs on what was produced, and its error (or a transform's) propagates.
   * `playersAt` and `advancedAt` are the two `processed_at` clock readings, and
   * `per` the efficiency rating of a row.
   */
  function TransformData(raw: DataSet, maxMissing: real, per: Record -> real, playersAt: int, advancedAt: int)
    : (r: Result<DataSet, Error>)
    ensures Lookup(raw, "players").Some? && TransformPlayers(Lookup(raw, "players").value, playersAt).Failure? ==>
      r == Failure(TransformPlayers(Lookup(raw, "players").value, playersAt).error)
    ensures
      && (Lookup(raw, "players").None? || TransformPlayers(Lookup(raw, "players").value, playersAt).Success?)
      && Lookup(raw, "advanced_stats").Some?
      && TransformAdvanced(Lookup(raw, "advanced_stats").value, per, advancedAt).Failure?
      ==> r == Failure(TransformAdvanced(Lookup(raw, "advanced_stats").value, per, advancedAt).error)
    ensures r.Success? ==> Validate(r.value, maxMissing).Success?
    ensures r.Success? ==> Names(r.value) == Kept(raw)
    ensures PlayersStep(raw, playersAt).Success? && AdvancedStep(raw, per, advancedAt).Success? ==>
      var out := PlayersStep(raw, playersAt).value + AdvancedStep(raw, per, advancedAt).value;
      && (r.Success? <==> Validate(out, maxMissing).Success?)
      && (r.Success? ==> r.value == out)
      && (r.Failure? ==> r.error == Validate(out, maxMissing).error)
  {
    var players := PlayersStep(raw, playersAt);
    if players.Failure? then Failure(players.error)
    else
      var advanced := AdvancedStep(raw, per, advancedAt);
      if advanced.Failure? then Failure(advanced.error)
      else
        var out := players.value + advanced.value;
        NamesAppend(players.value, advanced.value);
        match Validate(out, maxMissing)
        case Failure(e) => Failure(e)
        case Success(_) => Success(out)
  }

  /**
   * A successful stage saw at least `MinRows` rows in each table it kept: the
   * transforms keep every row, and the gate refuses smaller tables.
   */
  lemma TransformedTablesLargeEnough(raw: DataSet, maxMissing: real, per: Record -> real, playersAt: int, advancedAt: int)
    requires TransformData(raw, maxMissing, per, playersAt, advancedAt).Success?
    ensures "players" in Names(raw) ==> |Lookup(raw, "players").value.rows| >= MinRows
    ensures "advanced_stats" in Names(raw) ==> |Lookup(raw, "advanced_stats").value.rows| >= MinRows
  {
    var out := TransformData(raw, maxMissing, per, playersAt, advancedAt).value;
    var players := PlayersStep(raw, playersAt);
    var advanced := AdvancedStep(raw, per, advancedAt);
    assert out == players.value + advanced.value;
    assert forall k | 0 <= k < |out| :: Check(out[k], maxMissing).None?;
    if "players" in Names(raw) {
      assert out[0] == players.value[0];
    }
    if "advanced_stats" in Names(raw) {
      assert out[|out| - 1] == advanced.value[0];
    }
  }

  /** The number of rows of a table that may be absent. */
  function RowsOf(t: Option<Table>): nat
  {
    if t.Some? then |t.value.rows| else 0
  }

  lemma {:induction false} TotalRowsAppend(a: DataSet, b: DataSet)
    ensures TotalRows(a + b) == TotalRows(a) + TotalRows(b)
    decreases |b|
  {
    if |b| > 0 {
      var n := |b| - 1;
      assert (a + b)[..|a + b| - 1] == a + b[..n];
      TotalRowsAppend(a, b[..n]);
    } else {
      assert a + b == a;
    }
  }

  lemma PlayersStepRows(raw: DataSet, now: int)
    requires PlayersStep(raw, now).Success?
    ensures TotalRows(PlayersStep(raw, now).value) == RowsOf(Lookup(raw, "players"))
  {
    var v := PlayersStep(raw, now).value;
    if |v| == 1 {
      assert v[..0] == [];
    }
  }

  lemma AdvancedStepRows(raw: DataSet, per: Record -> real, now: int)
    requires AdvancedStep(raw, per, now).Success?
    ensures TotalRows(AdvancedStep(raw, per, now).value) == RowsOf(Lookup(raw, "advanced_stats"))
  {
    var v := AdvancedStep(raw, per, now).value;
    if |v| == 1 {
      assert v[..0] == [];
    }
  }

  /** Raw data made of the two known tables, in order, holds exactly their rows. */
  lemma KeptRows(raw: DataSet)
    requires Names(raw) == Kept(raw)
    ensures TotalRows(raw) == RowsOf(Lookup(raw, "players")) + RowsOf(Lookup(raw, "advanced_stats"))
  {
    assert |raw| == |Kept(raw)|;
    assert "players"[0] != "advanced_stats"[0];
    if |raw| == 1 {
      assert raw[..0] == [];
      assert Names(raw) == [raw[0].name];
    } else if |raw| == 2 {
      assert raw[..1][..0] == [];
      assert Names(raw) == [raw[0].name, raw[1].name];
      assert Lookup(raw[..1], "players") == Some(raw[0].table);
    }
  }

  /**
   * When the raw data holds only the two tables the stage knows, in its order, a
   * successful stage returns as many records as it was given: no table is dropped
   * and no row is lost.
   */
  lemma TransformKeepsRecords(raw: DataSet, maxMissing: real, per: Record -> real, playersAt: int, advancedAt: int)
    requires Names(raw) == Kept(raw)
    requires TransformData(raw, maxMissing, per, playersAt, advancedAt).Success?
    ensures TotalRows(TransformData(raw, maxMissing, per, playersAt, advancedAt).value) == TotalRows(raw)
  {
    StageParts(raw, maxMissing, per, playersAt, advancedAt);
    PartsRows(raw, PlayersStep(raw, playersAt).value, AdvancedStep(raw, per, advancedAt).value, playersAt, per, advancedAt);
  }

  /** A successful stage returns the output of the players step followed by that of the statistics step. */
  lemma StageParts(raw: DataSet, maxMissing: real, per: Record -> real, playersAt: int, advancedAt: int)
    requires TransformData(raw, maxMissing, per, playersAt, advancedAt).Success?
    ensures PlayersStep(raw, playersAt).Success? && AdvancedStep(raw, per, advancedAt).Success?
    ensures TransformData(raw, maxMissing, per, playersAt, advancedAt).value
      == PlayersStep(raw, playersAt).value + AdvancedStep(raw, per, advancedAt).value
  {
  }

  lemma PartsRows(raw: DataSet, p: DataSet, a: DataSet, playersAt: int, per: Record -> real, advancedAt: int)
    requires Names(raw) == Kept(raw)
    requires PlayersStep(raw, playersAt) == Success(p) && AdvancedStep(raw, per, advancedAt) == Success(a)
    ensures TotalRows(p + a) == TotalRows(raw)
  {
    TotalRowsAppend(p, a);
    PlayersStepRows(raw, playersAt);
    AdvancedStepRows(raw, per, advancedAt);
    KeptRows(raw);
  }

  /** Every table a successful stage returns has at least `MinRows` rows. */
  lemma TransformedLargeTables(raw: DataSet, maxMissing: real, per: Record -> real, playersAt: int, advancedAt: int)
    requires TransformData(raw, maxMissing, per, playersAt, advancedAt).Success?
    ensures var out := TransformData(raw, maxMissing, per, playersAt, advancedAt).value;
      forall k | 0 <= k < |out| :: |out[k].table.rows| >= MinRows
  {
    var out := TransformData(raw, maxMissing, per, playersAt, advancedAt).value;
    assert forall k | 0 <= k < |out| :: Check(out[k], maxMissing).None?;
  }

  /** A successful stage returns each table under its own name, as a dict would. */
  lemma TransformedNamesUnique(raw: DataSet, maxMissing: real, per: Record -> real, playersAt: int, advancedAt: int)
    requires TransformData(raw, maxMissing, per, playersAt, advancedAt).Success?
    ensures UniqueNames(TransformData(raw, maxMissing, per, playersAt, advancedAt).value)
  {
    KeptUnique(raw, TransformData(raw, maxMissing, per, playersAt, advancedAt).value);
  }

  /** Tables named as the stage names its output have distinct names. */
  lemma KeptUnique(raw: DataSet, out: DataSet)
    requires Names(out) == Kept(raw)
    ensures UniqueNames(out)
  {
    assert "players"[0] != "advanced_stats"[0];
    forall i, j | 0 <= i < j < |out| ensures out[i].name != out[j].name {
      assert Names(out)[i] == out[i].name && Names(out)[j] == out[j].name;
    }
  }
}
