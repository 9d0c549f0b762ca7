/**
 * The collector: three positional parsers from `resultSets[0]['rowSet']` rows to
 * records, each behind one retried request, and `collect_all_data`, which fetches
 * the player list, then the advanced statistics, then saves both as raw files.
 */
module Collector {

  import opened Base
  import opened Data
  import opened Text
  import opened Retry

  const PlayersEndpoint := "commonallplayers"
  const GameLogEndpoint := "playergamelog"
  const AdvancedEndpoint := "leaguedashplayerstats"
  const RegularSeason := "Regular Season"

  /** Where a column's value comes from: a position of the response row, or an argument of the call. */
  datatype Source = At(position: nat) | Given(value: Value)

  /** One key of the dict literal built per row, in the literal's order. */
  datatype Field = Field(column: Column, source: Source)

  type Layout = seq<Field>

  function Columns(layout: Layout): (cs: seq<Column>)
    ensures |cs| == |layout|
    ensures forall k | 0 <= k < |layout| :: cs[k] == layout[k].column
  {
    seq(|layout|, k requires 0 <= k < |layout| => layout[k].column)
  }

  /** Every position the layout reads exists in `row` (otherwise Python raises IndexError). */
  predicate Fits(layout: Layout, row: Row)
  {
    forall k | 0 <= k < |layout| :: layout[k].source.At? ==> layout[k].source.position < |row|
  }

  function Cell(source: Source, row: Row): Value
    requires source.At? ==> source.position < |row|
  {
    match source
    case At(p) => row[p]
    case Given(v) => v
  }

  /** The dict literal of one row: one key per field, later fields overriding earlier ones. */
  function Project(layout: Layout, row: Row): (r: Record)
    requires Fits(layout, row)
    ensures HasColumns(r, Columns(layout))
  {
    if |layout| == 0 then map[]
    else
      var n := |layout| - 1;
      Project(layout[..n], row)[layout[n].column := Cell(layout[n].source, row)]
  }

  /** With distinct column names, every field's value lands under its own key. */
  lemma {:induction false} ProjectCell(layout: Layout, row: Row, k: nat)
    requires Fits(layout, row)
    requires Distinct(Columns(layout))
    requires k < |layout|
    ensures layout[k].column in Project(layout, row)
    ensures Project(layout, row)[layout[k].column] == Cell(layout[k].source, row)
  {
    var n := |layout| - 1;
    if k < n {
      var cs := Columns(layout);
      assert Columns(layout[..n]) == cs[..n];
      assert cs[k] != cs[n];
      ProjectCell(layout[..n], row, k);
    }
  }

  /**
   * `pd.DataFrame([<dict literal of row> for row in rows])`: one record per row, in
   * order. An empty list gives a frame without columns; a short row raises IndexError.
   */
  function RowsToTable(layout: Layout, rows: seq<Row>): (r: Result<Table, Error>)
    ensures r.Success? <==> forall i | 0 <= i < |rows| :: Fits(layout, rows[i])
    ensures r.Failure? ==> r.error == MalformedResponse
  {
    if |rows| == 0 then Success(Table([], []))
    else if exists i | 0 <= i < |rows| :: !Fits(layout, rows[i]) then Failure(MalformedResponse)
    else Success(Table(Columns(layout), seq(|rows|, i requires 0 <= i < |rows| => Project(layout, rows[i]))))
  }

  /** A parsed table has one record per row, in order, and the layout's columns unless there are no rows. */
  lemma ParsedShape(layout: Layout, rows: seq<Row>, t: Table)
    requires RowsToTable(layout, rows) == Success(t)
    ensures |t.rows| == |rows|
    ensures t.columns == if |rows| == 0 then [] else Columns(layout)
    ensures forall i | 0 <= i < |rows| :: Fits(layout, rows[i]) && t.rows[i] == Project(layout, rows[i])
  {
  }

  /** With distinct column names, a parsed table is well formed. */
  lemma ParsedWellFormed(layout: Layout, rows: seq<Row>, t: Table)
    requires RowsToTable(layout, rows) == Success(t)
    requires Distinct(Columns(layout))
    ensures WellFormed(t)
  {
    ParsedShape(layout, rows, t);
  }

  /** With distinct column names, cell `(i, c)` of a parsed table is what the layout says column `c` takes from row `i`. */
  lemma ParsedCell(layout: Layout, rows: seq<Row>, t: Table, i: nat, k: nat)
    requires RowsToTable(layout, rows) == Success(t)
    requires Distinct(Columns(layout))
    requires i < |rows| && k < |layout|
    ensures layout[k].column in t.rows[i]
    ensures t.rows[i][layout[k].column] == Cell(layout[k].source, rows[i])
  {
    ParsedShape(layout, rows, t);
    ProjectCell(layout, rows[i], k);
  }

  /** Cell `(i, cols[k])` of a table parsed with a layout reading `cols` from consecutive positions from `offset`. */
  lemma ConsecutiveCell(pre: Layout, cols: seq<Column>, offset: nat, post: Layout, rows: seq<Row>, t: Table, i: nat, k: nat)
    requires RowsToTable(pre + Consecutive(cols, offset) + post, rows) == Success(t)
    requires Distinct(Columns(pre + Consecutive(cols, offset) + post))
    requires i < |rows| && k < |cols|
    ensures offset + k < |rows[i]|
    ensures cols[k] in t.rows[i] && t.rows[i][cols[k]] == rows[i][offset + k]
  {
    ConsecutiveField(pre, cols, offset, post, k);
    ParsedField(pre + Consecutive(cols, offset) + post, rows, t, i, |pre| + k, cols[k], offset + k);
  }

  /** The cell a parsed row holds under the column of a field that reads position `p`. */
  lemma ParsedField(layout: Layout, rows: seq<Row>, t: Table, i: nat, k: nat, c: Column, p: nat)
    requires RowsToTable(layout, rows) == Success(t)
    requires Distinct(Columns(layout))
    requires i < |rows| && k < |layout| && layout[k] == Field(c, At(p))
    ensures p < |rows[i]| && c in t.rows[i] && t.rows[i][c] == rows[i][p]
  {
    ParsedShape(layout, rows, t);
    ParsedCell(layout, rows, t, i, k);
  }

  lemma ConsecutiveField(pre: Layout, cols: seq<Column>, offset: nat, post: Layout, k: nat)
    requires k < |cols|
    ensures |pre| + k < |pre + Consecutive(cols, offset) + post|
    ensures (pre + Consecutive(cols, offset) + post)[|pre| + k] == Field(cols[k], At(offset + k))
  {
  }

  /**
   * The part of a layout that reads `cols` from consecutive positions from `offset`:
   * every parsed row is long enough, and its cell under `cols[k]` is position `offset + k`.
   */
  lemma ConsecutiveCells(pre: Layout, cols: seq<Column>, offset: nat, post: Layout, rows: seq<Row>, t: Table)
    requires RowsToTable(pre + Consecutive(cols, offset) + post, rows) == Success(t)
    requires Distinct(Columns(pre + Consecutive(cols, offset) + post))
    ensures 0 < |cols| ==> forall i | 0 <= i < |rows| :: offset + |cols| <= |rows[i]|
    ensures forall i, k | 0 <= i < |rows| && 0 <= k < |cols| ::
      offset + k < |rows[i]| && cols[k] in t.rows[i] && t.rows[i][cols[k]] == rows[i][offset + k]
  {
    forall i, k | 0 <= i < |rows| && 0 <= k < |cols|
      ensures offset + k < |rows[i]|
      ensures cols[k] in t.rows[i] && t.rows[i][cols[k]] == rows[i][offset + k]
    {
      ConsecutiveCell(pre, cols, offset, post, rows, t, i, k);
    }
    if 0 < |cols| {
      forall i | 0 <= i < |rows| ensures offset + |cols| <= |rows[i]| {
        ConsecutiveCell(pre, cols, offset, post, rows, t, i, |cols| - 1);
      }
    }
  }

  /** `data['resultSets'][0]['rowSet']` parsed with `layout`. */
  function ParseResponse(response: Response, layout: Layout): (r: Result<Table, Error>)
    ensures |response.resultSets| == 0 ==> r == Failure(MalformedResponse)
    ensures |response.resultSets| > 0 ==> r == RowsToTable(layout, response.resultSets[0].rowSet)
  {
    if |response.resultSets| == 0 then Failure(MalformedResponse)
    else RowsToTable(layout, response.resultSets[0].rowSet)
  }

  /** The rows of the response a successful request returned (empty for anything else). */
  ghost function RowSetOf(o: Outcome): seq<Row>
  {
    if o.Ok? && |o.response.resultSets| > 0 then o.response.resultSets[0].rowSet else []
  }

  /**
   * What one retried request to `endpoint` and the parse of its reply with `layout`
   * leave behind: only the request counter moved, one to `MaxRetries` times; the
   * events are the retry trace; every request but the last failed, and the last is
   * the first that did not fail unless the budget was spent; the result is the parse
   * of the last reply when it is a response, and its exception otherwise.
   */
  ghost predicate Fetched(provider: Provider, w: World, endpoint: string, layout: Layout, r: Run<Table>)
  {
    && r.world == w.(calls := r.world.calls) && w.calls < r.world.calls <= w.calls + MaxRetries
    && RequestTrace(r.events, endpoint)
    && (forall n | w.calls <= n < r.world.calls - 1 :: Reply(provider, n).Fail?)
    && (r.world.calls - w.calls < MaxRetries ==> Reply(provider, r.world.calls - 1).Ok?)
    && (Reply(provider, r.world.calls - 1).Ok? ==>
          r.result == ParseResponse(Reply(provider, r.world.calls - 1).response, layout))
    && (Reply(provider, r.world.calls - 1).Fail? ==>
          r.result == Failure(RequestFailed(Reply(provider, r.world.calls - 1).error)))
    && (r.result.Success? ==>
          && Reply(provider, r.world.calls - 1).Ok?
          && r.result == RowsToTable(layout, RowSetOf(Reply(provider, r.world.calls - 1))))
  }

  /**
   * One retried request followed by parsing: only the request counter moves, the
   * events are the retry trace, a spent retry budget surfaces as `RequestFailed` and a
   * successful table holds one record per row of the last response.
   */
  function FetchTable(provider: Provider, w: World, endpoint: string, layout: Layout): (r: Run<Table>)
    ensures w.calls < r.world.calls <= w.calls + MaxRetries
    ensures r.world == w.(calls := r.world.calls)
    ensures AttemptCount(r.events) == r.world.calls - w.calls
    ensures Fetched(provider, w, endpoint, layout, r)
    ensures r.result.Failure? ==>
      || r.result.error == MalformedResponse
      || (&& r.world.calls - w.calls == MaxRetries
          && Reply(provider, w.calls + MaxRetries - 1).Fail?
          && r.result.error == RequestFailed(Reply(provider, w.calls + MaxRetries - 1).error))
  {
    FetchRunFetched(provider, w, endpoint, layout);
    FetchRunFailure(provider, w, endpoint, layout);
    FetchRun(provider, w, endpoint, layout)
  }

  /** The run of `FetchTable`, before anything is said about it. */
  function FetchRun(provider: Provider, w: World, endpoint: string, layout: Layout): Run<Table>
  {
    var f := Request(provider, endpoint, w.calls);
    var result := match f.result
      case Failure(e) => Failure(RequestFailed(e))
      case Success(response) => ParseResponse(response, layout);
    Run(result, w.(calls := w.calls + f.attempts), f.events)
  }

  lemma FetchRunFetched(provider: Provider, w: World, endpoint: string, layout: Layout)
    ensures var r := FetchRun(provider, w, endpoint, layout);
      && r.world.calls <= w.calls + MaxRetries
      && AttemptCount(r.events) == r.world.calls - w.calls
      && Fetched(provider, w, endpoint, layout, r)
  {
    RequestEvents(provider, endpoint, w.calls);
  }

  lemma FetchRunFailure(provider: Provider, w: World, endpoint: string, layout: Layout)
    ensures var r := FetchRun(provider, w, endpoint, layout);
      r.result.Failure? ==>
        || r.result.error == MalformedResponse
        || (&& r.world.calls - w.calls == MaxRetries
            && Reply(provider, w.calls + MaxRetries - 1).Fail?
            && r.result.error == RequestFailed(Reply(provider, w.calls + MaxRetries - 1).error))
  {
  }

  /** A response to the first request ends the retry loop: one request, and its parse is the result. */
  lemma FetchFirstOk(provider: Provider, w: World, endpoint: string, layout: Layout)
    requires Reply(provider, w.calls).Ok?
    ensures var r := FetchTable(provider, w, endpoint, layout);
      && r.world == w.(calls := w.calls + 1)
      && r.events == [Attempt(endpoint)]
      && r.result == ParseResponse(Reply(provider, w.calls).response, layout)
  {
    var f := Request(provider, endpoint, w.calls);
    assert f.attempts == 1;
  }

  /** Three failed requests in a row spend the budget: the third exception is the error. */
  lemma FetchAllFail(provider: Provider, w: World, endpoint: string, layout: Layout)
    requires forall n | w.calls <= n < w.calls + MaxRetries :: Reply(provider, n).Fail?
    ensures var r := FetchTable(provider, w, endpoint, layout);
      && r.world == w.(calls := w.calls + MaxRetries)
      && r.result == Failure(RequestFailed(Reply(provider, w.calls + MaxRetries - 1).error))
  {
  }

  // ----- the three response layouts -----

  /** `get_players_list`: positions 0, 2, 7, 8 and 1, and the season argument. */
  function PlayersLayout(season: string): Layout
  {
    [ Field(PlayerId, At(0)), Field(PlayerName, At(2)), Field(TeamId, At(7)), Field(TeamName, At(8)),
      Field(Season, Given(Str(season))), Field(IsActive, At(1)) ]
  }

  /** The game-log columns read from positions 2 .. 24, in that order. */
  const GameLogColumns: seq<Column> :=
    [ GameDate, Matchup, Wl, Minutes, Fgm, Fga, FgPct, Fg3m, Fg3a, Fg3Pct, Ftm, Fta, FtPct,
      Oreb, Dreb, Reb, Ast, Stl, Blk, Tov, Pf, Pts, PlusMinus ]

  /** The advanced-statistics columns read from positions 0 .. 24, in that order. */
  const AdvancedStatColumns: seq<Column> :=
    [ PlayerId, PlayerName, TeamId, TeamName, Age, Gp, W, L, WPct, Min, OffRating, DefRating,
      NetRating, AstPct, AstTo, AstRatio, OrebPct, DrebPct, RebPct, TovPct, EfgPct, TsPct,
      UsgPct, Pace, Pie ]

  /** Columns `cols` read from consecutive row positions, the first from `offset`. */
  function Consecutive(cols: seq<Column>, offset: nat): (layout: Layout)
    ensures |layout| == |cols|
    ensures forall k | 0 <= k < |cols| :: layout[k] == Field(cols[k], At(offset + k))
  {
    seq(|cols|, k requires 0 <= k < |cols| => Field(cols[k], At(offset + k)))
  }

  /** `get_player_game_logs`: the player id argument, then positions 2 .. 24. */
  function GameLogLayout(playerId: int): Layout
  {
    [Field(PlayerId, Given(Int(playerId)))] + Consecutive(GameLogColumns, 2)
  }

  /** `get_advanced_stats`: positions 0 .. 24, then the season and season type arguments. */
  function AdvancedLayout(season: string, seasonType: string): Layout
  {
    Consecutive(AdvancedStatColumns, 0) + [Field(Season, Given(Str(season))), Field(SeasonType, Given(Str(seasonType)))]
  }

  lemma ConsecutiveColumns(cols: seq<Column>, offset: nat)
    ensures Columns(Consecutive(cols, offset)) == cols
  {
  }

  lemma {:induction false} ColumnsAppend(a: Layout, b: Layout)
    ensures Columns(a + b) == Columns(a) + Columns(b)
  {
    assert forall k | 0 <= k < |a + b| :: Columns(a + b)[k] == (Columns(a) + Columns(b))[k];
  }

  lemma PlayersColumnsDistinct(season: string)
    ensures Columns(PlayersLayout(season)) == [PlayerId, PlayerName, TeamId, TeamName, Season, IsActive]
    ensures Distinct(Columns(PlayersLayout(season)))
  {
  }

  lemma GameLogColumnsDistinct(playerId: int)
    ensures Columns(GameLogLayout(playerId)) == [PlayerId] + GameLogColumns
    ensures Distinct(Columns(GameLogLayout(playerId)))
  {
    GameLogColumnsOf(playerId);
    GameLogNamesDistinct();
  }

  lemma GameLogColumnsOf(playerId: int)
    ensures Columns(GameLogLayout(playerId)) == [PlayerId] + GameLogColumns
  {
    var head := [Field(PlayerId, Given(Int(playerId)))];
    ThenConsecutive(head, GameLogColumns, 2);
    assert Columns(head) == [PlayerId];
  }

  lemma GameLogNamesDistinct()
    ensures Distinct([PlayerId] + GameLogColumns)
  {
    GameLogStatColumnsDistinct();
    DistinctAppend([PlayerId], GameLogColumns);
  }

  lemma GameLogStatColumnsDistinct()
    ensures Distinct(GameLogColumns)
  {
    var front := [GameDate, Matchup, Wl, Minutes, Fgm, Fga, FgPct, Fg3m, Fg3a, Fg3Pct, Ftm];
    var back := [Fta, FtPct, Oreb, Dreb, Reb, Ast, Stl, Blk, Tov, Pf, Pts, PlusMinus];
    assert GameLogColumns == front + back;
    DistinctLiteral(front, back);
  }

  /** Two halves of a list of columns, each without repetition and with nothing in common. */
  lemma DistinctLiteral(front: seq<Column>, back: seq<Column>)
    requires Distinct(front) && Distinct(back)
    requires forall c | c in front :: c !in back
    ensures Distinct(front + back)
  {
    DistinctAppend(front, back);
  }

  lemma AdvancedColumnsDistinct(season: string, seasonType: string)
    ensures Columns(AdvancedLayout(season, seasonType)) == AdvancedStatColumns + [Season, SeasonType]
    ensures Distinct(Columns(AdvancedLayout(season, seasonType)))
  {
    AdvancedColumnsOf(season, seasonType);
    AdvancedNamesDistinct();
  }

  lemma AdvancedColumnsOf(season: string, seasonType: string)
    ensures Columns(AdvancedLayout(season, seasonType)) == AdvancedStatColumns + [Season, SeasonType]
  {
    var tail := [Field(Season, Given(Str(season))), Field(SeasonType, Given(Str(seasonType)))];
    ConsecutiveThen(AdvancedStatColumns, 0, tail);
    assert Columns(tail) == [Season, SeasonType];
  }

  lemma ConsecutiveThen(cols: seq<Column>, offset: nat, tail: Layout)
    ensures Columns(Consecutive(cols, offset) + tail) == cols + Columns(tail)
  {
    ColumnsAppend(Consecutive(cols, offset), tail);
    ConsecutiveColumns(cols, offset);
  }

  lemma ThenConsecutive(head: Layout, cols: seq<Column>, offset: nat)
    ensures Columns(head + Consecutive(cols, offset)) == Columns(head) + cols
  {
    ColumnsAppend(head, Consecutive(cols, offset));
    ConsecutiveColumns(cols, offset);
  }

  lemma AdvancedNamesDistinct()
    ensures Distinct(AdvancedStatColumns + [Season, SeasonType])
  {
    AdvancedStatColumnsDistinct();
    DistinctAppend(AdvancedStatColumns, [Season, SeasonType]);
  }

  lemma AdvancedStatColumnsDistinct()
    ensures Distinct(AdvancedStatColumns)
  {
    var front := [PlayerId, PlayerName, TeamId, TeamName, Age, Gp, W, L, WPct, Min, OffRating, DefRating];
    var back := [NetRating, AstPct, AstTo, AstRatio, OrebPct, DrebPct, RebPct, TovPct, EfgPct, TsPct, UsgPct, Pace, Pie];
    assert AdvancedStatColumns == front + back;
    DistinctLiteral(front, back);
  }

  /** Every row of a parsed players table, field by field. */
  ghost predicate PlayersRows(t: Table, rows: seq<Row>, season: string)
  {
    && WellFormed(t)
    && |t.rows| == |rows|
    && (|rows| > 0 ==> t.columns == [PlayerId, PlayerName, TeamId, TeamName, Season, IsActive])
    && forall i | 0 <= i < |rows| ::
         && 9 <= |rows[i]|
         && t.rows[i][PlayerId] == rows[i][0] && t.rows[i][PlayerName] == rows[i][2]
         && t.rows[i][TeamId] == rows[i][7] && t.rows[i][TeamName] == rows[i][8]
         && t.rows[i][IsActive] == rows[i][1] && t.rows[i][Season] == Str(season)
  }

  lemma PlayersParsed(season: string, rows: seq<Row>, t: Table)
    requires RowsToTable(PlayersLayout(season), rows) == Success(t)
    ensures PlayersRows(t, rows, season)
  {
    var layout := PlayersLayout(season);
    PlayersLayoutShape(season);
    ParsedWellFormed(layout, rows, t);
    forall i | 0 <= i < |rows|
      ensures 9 <= |rows[i]|
      ensures t.rows[i][PlayerId] == rows[i][0] && t.rows[i][PlayerName] == rows[i][2]
      ensures t.rows[i][TeamId] == rows[i][7] && t.rows[i][TeamName] == rows[i][8]
      ensures t.rows[i][IsActive] == rows[i][1] && t.rows[i][Season] == Str(season)
    {
      PlayerRowParsed(season, layout, rows, t, i);
    }
  }

  /** The fields of the players layout, position by position. */
  ghost predicate PlayersShape(layout: Layout, season: string)
  {
    && |layout| == 6 && Distinct(Columns(layout))
    && layout[0] == Field(PlayerId, At(0)) && layout[1] == Field(PlayerName, At(2))
    && layout[2] == Field(TeamId, At(7)) && layout[3] == Field(TeamName, At(8))
    && layout[4] == Field(Season, Given(Str(season))) && layout[5] == Field(IsActive, At(1))
  }

  lemma PlayersLayoutShape(season: string)
    ensures PlayersShape(PlayersLayout(season), season)
  {
    PlayersColumnsDistinct(season);
  }

  /** Row `i` of a table parsed with the players layout, field by field. */
  lemma PlayerRowParsed(season: string, layout: Layout, rows: seq<Row>, t: Table, i: nat)
    requires PlayersShape(layout, season)
    requires RowsToTable(layout, rows) == Success(t)
    requires i < |rows|
    ensures i < |t.rows| && 9 <= |rows[i]|
    ensures PlayerId in t.rows[i] && t.rows[i][PlayerId] == rows[i][0]
    ensures PlayerName in t.rows[i] && t.rows[i][PlayerName] == rows[i][2]
    ensures TeamId in t.rows[i] && t.rows[i][TeamId] == rows[i][7]
    ensures TeamName in t.rows[i] && t.rows[i][TeamName] == rows[i][8]
    ensures IsActive in t.rows[i] && t.rows[i][IsActive] == rows[i][1]
    ensures Season in t.rows[i] && t.rows[i][Season] == Str(season)
  {
    ParsedField(layout, rows, t, i, 0, PlayerId, 0);
    ParsedField(layout, rows, t, i, 1, PlayerName, 2);
    ParsedField(layout, rows, t, i, 2, TeamId, 7);
    ParsedField(layout, rows, t, i, 3, TeamName, 8);
    ParsedField(layout, rows, t, i, 5, IsActive, 1);
    ParsedCell(layout, rows, t, i, 4);
  }

  /**
   * `get_players_list(season)`: one record per row of the response, in order, with
   * `player_id`, `player_name`, `team_id`, `team_name` and `is_active` taken from
   * positions 0, 2, 7, 8 and 1, and `season` always the argument.
   */
  function GetPlayersList(provider: Provider, w: World, season: string): (r: Run<Table>)
    ensures Fetched(provider, w, PlayersEndpoint, PlayersLayout(season), r)
  {
    FetchTable(provider, w, PlayersEndpoint, PlayersLayout(season))
  }


  /** Every row of a parsed game-log table: the argument id, then positions 2 .. 24. */
  ghost predicate GameLogRows(t: Table, rows: seq<Row>, playerId: int)
  {
    && WellFormed(t)
    && |t.rows| == |rows|
    && (|rows| > 0 ==> t.columns == [PlayerId] + GameLogColumns)
    && (forall i | 0 <= i < |rows| :: 25 <= |rows[i]| && PlayerId in t.rows[i] && t.rows[i][PlayerId] == Int(playerId))
    && forall i, k | 0 <= i < |rows| && 0 <= k < |GameLogColumns| ::
         GameLogColumns[k] in t.rows[i] && t.rows[i][GameLogColumns[k]] == rows[i][k + 2]
  }

  lemma GameLogParsed(playerId: int, rows: seq<Row>, t: Table)
    requires RowsToTable(GameLogLayout(playerId), rows) == Success(t)
    ensures GameLogRows(t, rows, playerId)
  {
    var pre := [Field(PlayerId, Given(Int(playerId)))];
    GameLogColumnsDistinct(playerId);
    assert GameLogLayout(playerId) == pre + Consecutive(GameLogColumns, 2) + [];
    ParsedWellFormed(GameLogLayout(playerId), rows, t);
    ConsecutiveCells(pre, GameLogColumns, 2, [], rows, t);
    forall i | 0 <= i < |rows| ensures 25 <= |rows[i]| && PlayerId in t.rows[i] && t.rows[i][PlayerId] == Int(playerId) {
      ParsedCell(GameLogLayout(playerId), rows, t, i, 0);
    }
  }

  /**
   * `get_player_game_logs(player_id, season, season_type)`: one record per row, in
   * order, `player_id` from the argument and the 23 game columns from positions 2 .. 24.
   */
  function GetPlayerGameLogs(provider: Provider, w: World, playerId: int, season: string, seasonType: string): (r: Run<Table>)
    ensures Fetched(provider, w, GameLogEndpoint, GameLogLayout(playerId), r)
  {
    FetchTable(provider, w, GameLogEndpoint, GameLogLayout(playerId))
  }


  /** Every row of a parsed advanced-statistics table: positions 0 .. 24 one-to-one, then the arguments. */
  ghost predicate AdvancedRows(t: Table, rows: seq<Row>, season: string, seasonType: string)
  {
    && WellFormed(t)
    && |t.rows| == |rows|
    && (|rows| > 0 ==> t.columns == AdvancedStatColumns + [Season, SeasonType])
    && (forall i | 0 <= i < |rows| ::
          && 25 <= |rows[i]|
          && Season in t.rows[i] && t.rows[i][Season] == Str(season)
          && SeasonType in t.rows[i] && t.rows[i][SeasonType] == Str(seasonType))
    && forall i, k | 0 <= i < |rows| && 0 <= k < |AdvancedStatColumns| ::
         AdvancedStatColumns[k] in t.rows[i] && t.rows[i][AdvancedStatColumns[k]] == rows[i][k]
  }

  lemma AdvancedParsed(season: string, seasonType: string, rows: seq<Row>, t: Table)
    requires RowsToTable(AdvancedLayout(season, seasonType), rows) == Success(t)
    ensures AdvancedRows(t, rows, season, seasonType)
  {
    var layout := AdvancedLayout(season, seasonType);
    var post := [Field(Season, Given(Str(season))), Field(SeasonType, Given(Str(seasonType)))];
    AdvancedColumnsDistinct(season, seasonType);
    assert layout == [] + Consecutive(AdvancedStatColumns, 0) + post;
    ParsedWellFormed(layout, rows, t);
    ConsecutiveCells([], AdvancedStatColumns, 0, post, rows, t);
    forall i | 0 <= i < |rows|
      ensures 25 <= |rows[i]|
      ensures Season in t.rows[i] && t.rows[i][Season] == Str(season)
      ensures SeasonType in t.rows[i] && t.rows[i][SeasonType] == Str(seasonType)
    {
      assert layout[25] == post[0] && layout[26] == post[1];
      ParsedCell(layout, rows, t, i, 25);
      ParsedCell(layout, rows, t, i, 26);
    }
  }

  /**
   * `get_advanced_stats(season, season_type)`: one record per row, in order, positions
   * 0 .. 24 onto the 25 statistics columns one-to-one, plus `season` and `season_type`.
   */
  function GetAdvancedStats(provider: Provider, w: World, season: string, seasonType: string): (r: Run<Table>)
    ensures Fetched(provider, w, AdvancedEndpoint, AdvancedLayout(season, seasonType), r)
  {
    FetchTable(provider, w, AdvancedEndpoint, AdvancedLayout(season, seasonType))
  }


  // ----- collect_all_data -----

  /** Every request in `events` went to `endpoint`. */
  ghost predicate AttemptsOnly(events: seq<Event>, endpoint: string)
  {
    forall e | e in events :: e.Attempt? ==> e.endpoint == endpoint
  }

  /** No event is a saved raw file. */
  ghost predicate NoSaves(events: seq<Event>)
  {
    forall e | e in events :: !e.SaveRaw?
  }

  /**
   * The order `collect_all_data` works in: the player list is requested first, no
   * player-list request follows an advanced-statistics request, and no request
   * follows a saved file.
   */
  ghost predicate CollectOrder(events: seq<Event>)
  {
    && 0 < |events|
    && events[0] == Attempt(PlayersEndpoint)
    && (forall i, j | 0 <= i < j < |events| && events[i] == Attempt(AdvancedEndpoint) && events[j].Attempt? ::
          events[j].endpoint == AdvancedEndpoint)
    && (forall i, j | 0 <= i < j < |events| && events[i].SaveRaw? :: !events[j].Attempt?)
  }

  /** What may follow the player-list requests: advanced-statistics requests only, and no request after a saved file. */
  ghost predicate TailOrder(events: seq<Event>)
  {
    && AttemptsOnly(events, AdvancedEndpoint)
    && forall i, j | 0 <= i < j < |events| && events[i].SaveRaw? :: !events[j].Attempt?
  }

  lemma CollectOrderOf(players: seq<Event>, tail: seq<Event>)
    requires RequestTrace(players, PlayersEndpoint)
    requires TailOrder(tail)
    ensures CollectOrder(players + tail)
  {
    var events := players + tail;
    var n := |players|;
    forall k | 0 <= k < n ensures events[k] == Attempt(PlayersEndpoint) || events[k].Sleep? {
      assert events[k] == players[k] && players[k] in players;
    }
    assert forall k | n <= k < |events| :: events[k] == tail[k - n];
    forall i, j | 0 <= i < j < |events| && events[i] == Attempt(AdvancedEndpoint) && events[j].Attempt?
      ensures events[j].endpoint == AdvancedEndpoint
    {
      if n <= i {
        assert tail[j - n] in tail;
      }
    }
    forall i, j | 0 <= i < j < |events| && events[i].SaveRaw?
      ensures !events[j].Attempt?
    {
    }
  }

  /** The raw files `collect_all_data` writes once both tables arrived: the player list, then the advanced statistics. */
  function SaveCollected(raw: map<string, Table>, season: string, players: Table, advanced: Table): (r: map<string, Table>)
    ensures r.Keys == raw.Keys + {RawFileName("players", season), RawFileName("advanced_stats", season)}
    ensures r[RawFileName("players", season)] == players && r[RawFileName("advanced_stats", season)] == advanced
    ensures forall f | f in raw && f != RawFileName("players", season) && f != RawFileName("advanced_stats", season) :: r[f] == raw[f]
  {
    RawFileNamesDiffer(season);
    raw[RawFileName("players", season) := players][RawFileName("advanced_stats", season) := advanced]
  }

  lemma TailOrderOf(attempts: seq<Event>, saves: seq<Event>)
    requires RequestTrace(attempts, AdvancedEndpoint)
    requires forall e | e in saves :: e.SaveRaw?
    ensures TailOrder(attempts + saves)
  {
    var events := attempts + saves;
    forall k | 0 <= k < |attempts| ensures events[k] == Attempt(AdvancedEndpoint) || events[k].Sleep? {
      assert events[k] == attempts[k] && attempts[k] in attempts;
    }
    assert forall k | |attempts| <= k < |events| :: events[k] == saves[k - |attempts|];
    forall i, j | 0 <= i < j < |events| && events[i].SaveRaw?
      ensures !events[j].Attempt?
    {
      if |attempts| <= j {
        assert saves[j - |attempts|] in saves;
      }
    }
  }

  /**
   * The part of `collect_all_data` after the player list arrived: the advanced
   * statistics of the regular season, then, when saving, both raw files in order.
   */
  function CollectAdvanced(provider: Provider, w: World, season: string, players: Table, saveData: bool): (r: Run<DataSet>)
    ensures r.world == w.(calls := r.world.calls, raw := r.world.raw)
    ensures TailOrder(r.events)
    ensures r.result.Failure? ==> r.world.raw == w.raw && NoSaves(r.events)
    ensures !saveData ==> r.world.raw == w.raw && NoSaves(r.events)
    ensures r.result.Success? ==> Names(r.result.value) == ["players", "advanced_stats"]
  {
    var a := GetAdvancedStats(provider, w, season, RegularSeason);
    if a.result.Failure? then
      Unsaved(a.events);
      Run(Failure(a.result.error), a.world, a.events)
    else
      var data := [Entry("players", players), Entry("advanced_stats", a.result.value)];
      assert Names(data) == ["players", "advanced_stats"] by {
        assert data[..1][..0] == [];
      }
      if saveData then
        var saves := [SaveRaw(RawFileName("players", season)), SaveRaw(RawFileName("advanced_stats", season))];
        TailOrderOf(a.events, saves);
        Run(Success(data), a.world.(raw := SaveCollected(a.world.raw, season, players, a.result.value)), a.events + saves)
      else
        Unsaved(a.events);
        Run(Success(data), a.world, a.events)
  }

  /** A request trace alone writes no file and may follow the player-list requests. */
  lemma Unsaved(events: seq<Event>)
    requires RequestTrace(events, AdvancedEndpoint)
    ensures TailOrder(events) && NoSaves(events)
  {
    TailOrderOf(events, []);
    assert events + [] == events;
  }

  /**
   * `collect_all_data(season, save_data)`: the player list, then the advanced
   * statistics of the regular season, returned as `{'players', 'advanced_stats'}`;
   * both raw files are written, in that order, only once both fetches succeeded,
   * and the first exception propagates with nothing saved.
   */
  function CollectAllData(provider: Provider, w: World, season: string, saveData: bool): (r: Run<DataSet>)
    ensures r.world == w.(calls := r.world.calls, raw := r.world.raw)
    ensures CollectOrder(r.events)
    ensures r.result.Failure? ==> r.world.raw == w.raw && NoSaves(r.events)
    ensures !saveData ==> r.world.raw == w.raw && NoSaves(r.events)
    ensures r.result.Success? ==> Names(r.result.value) == ["players", "advanced_stats"]
  {
    var p := GetPlayersList(provider, w, season);
    if p.result.Failure? then
      assert p.events + [] == p.events;
      CollectOrderOf(p.events, []);
      Run(Failure(p.result.error), p.world, p.events)
    else
      var rest := CollectAdvanced(provider, p.world, season, p.result.value, saveData);
      CollectOrderOf(p.events, rest.events);
      Run(rest.result, rest.world, p.events + rest.events)
  }

  /**
   * `collect_all_data` succeeds exactly when both fetches do; it then returns the two
   * parsed tables under their keys and, when saving, writes each to its raw file.
   */
  lemma CollectedTables(provider: Provider, w: World, season: string, saveData: bool)
    ensures var r := CollectAllData(provider, w, season, saveData);
      var p := GetPlayersList(provider, w, season);
      var a := GetAdvancedStats(provider, p.world, season, RegularSeason);
      && (r.result.Success? <==> p.result.Success? && a.result.Success?)
      && (r.result.Success? ==>
            && r.result.value == [Entry("players", p.result.value), Entry("advanced_stats", a.result.value)]
            && r.world.calls == a.world.calls
            && r.world.raw == if saveData then
                 w.raw[RawFileName("players", season) := p.result.value][RawFileName("advanced_stats", season) := a.result.value]
               else w.raw)
  {
  }

  /** A failed player-list fetch is the whole outcome: its exception, and no request to any other endpoint. */
  lemma {:induction false} PlayersFailureStops(provider: Provider, w: World, season: string, saveData: bool)
    requires GetPlayersList(provider, w, season).result.Failure?
    ensures var r := CollectAllData(provider, w, season, saveData);
      && r.result == Failure(GetPlayersList(provider, w, season).result.error)
      && AttemptsOnly(r.events, PlayersEndpoint)
  {
    var p := GetPlayersList(provider, w, season);
    assert CollectAllData(provider, w, season, saveData).events == p.events;
    assert RequestTrace(p.events, PlayersEndpoint);
  }
}
