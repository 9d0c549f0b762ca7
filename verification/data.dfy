/**
 * The data model shared by the collector and the ETL pipeline: scalar cell
 * values, the closed set of column names the system ever produces, tables
 * (a DataFrame: ordered distinct columns, one record per row) and ordered
 * named collections of tables (a Python dict keyed by table name).
 */
module Data {

  import opened Base

  /** A cell: JSON null / NaN, an integer, a float, a string or a boolean. */
  datatype Value = Null | Int(i: int) | Real(r: real) | Str(s: string) | Bool(b: bool)

  /**
   * Every column name the collector and the transforms ever write.
   */
  datatype Column =
    // advanced statistics (positions 0 .. 24), then the season arguments
    | PlayerId | PlayerName | TeamId | TeamName | Age | Gp | W | L | WPct | Min | OffRating
    | DefRating | NetRating | AstPct | AstTo | AstRatio | OrebPct | DrebPct | RebPct | TovPct
    | EfgPct | TsPct | UsgPct | Pace | Pie | Season | SeasonType
    // players list (with the first four and Season above)
    | IsActive
    // game logs (positions 2 .. 24)
    | GameDate | Matchup | Wl | Minutes | Fgm | Fga | FgPct | Fg3m | Fg3a | Fg3Pct | Ftm | Fta
    | FtPct | Oreb | Dreb | Reb | Ast | Stl | Blk | Tov | Pf | Pts | PlusMinus
    // added by the transforms
    | IsValid | ProcessedAt | GamesPlayed | MinutesPerGame | PlayerEfficiencyRating

  type Record = map<Column, Value>

  datatype Table = Table(columns: seq<Column>, rows: seq<Record>)

  /** One `name -> table` pair of a dict of DataFrames. */
  datatype Entry = Entry(name: string, table: Table)

  /** A dict of DataFrames, in insertion order. */
  type DataSet = seq<Entry>

  /** Every error the modelled code can raise. */
  datatype Error =
    | RequestFailed(cause: RequestError)   // the last request exception, re-raised
    | MalformedResponse                    // KeyError / IndexError reading `resultSets[0]['rowSet']`
    | MissingColumn(column: Column)        // KeyError on `df[column]`
    | NotComparable(column: Column)        // TypeError comparing a string with 0
    | InsufficientData(table: string, rows: nat)
    | TooManyMissing(table: string, nulls: nat, cells: nat)
    | WarehouseRejected(tableId: string)
    | NoSuchAttribute(name: string)        // AttributeError on an object without that attribute

  /** A `requests.exceptions.RequestException`; its kind never influences the retry decision. */
  datatype RequestError = HttpStatus(code: int) | ConnectionFailed | TimedOut | TooManyRedirects

  /** The persisted extraction marker of a season (`last_update_<season>.json`). */
  datatype Watermark = Watermark(timestamp: int, season: string, recordsExtracted: nat)

  /**
   * The warehouse behind a client: the tables it holds by table id, and the table
   * ids whose load job fails (a load error of any kind).
   */
  datatype Warehouse = Warehouse(tables: map<string, Table>, rejects: set<string>)

  /**
   * Everything a run can change outside itself: the number of requests made to the
   * remote API so far, the raw and processed table files, the watermark files and the
   * warehouse (None when no client was created).
   */
  datatype World = World(
    calls: nat,
    raw: map<string, Table>,
    watermarks: map<string, Watermark>,
    processed: map<string, Table>,
    warehouse: Option<Warehouse>)

  /** An observable side effect, in the order it happens. Sleeps are in seconds. */
  datatype Event =
    | Attempt(endpoint: string)
    | Sleep(seconds: nat)
    | SaveRaw(file: string)
    | WriteWatermark(file: string)
    | SaveProcessed(file: string)
    | WarehouseLoad(tableId: string)

  /** The outcome of an effectful step: its value or the exception it raised, the world after it, and its events. */
  datatype Run<+T> = Run(result: Result<T, Error>, world: World, events: seq<Event>)

  ghost predicate Distinct<T>(s: seq<T>)
  {
    forall i, j | 0 <= i < j < |s| :: s[i] != s[j]
  }

  /** Two repetition-free sequences with no common element concatenate to a repetition-free one. */
  lemma DistinctAppend<T>(a: seq<T>, b: seq<T>)
    requires Distinct(a) && Distinct(b)
    requires forall x | x in a :: x !in b
    ensures Distinct(a + b)
  {
    forall i, j | 0 <= i < j < |a + b| ensures (a + b)[i] != (a + b)[j] {
      if j < |a| {
        assert (a + b)[i] == a[i] && (a + b)[j] == a[j];
      } else if i < |a| {
        assert (a + b)[i] == a[i] && (a + b)[j] == b[j - |a|];
        assert a[i] in a && b[j - |a|] in b;
      } else {
        assert (a + b)[i] == b[i - |a|] && (a + b)[j] == b[j - |a|];
      }
    }
  }

  /** The keys of `r` are exactly the names in `cs`. */
  ghost predicate HasColumns(r: Record, cs: seq<Column>)
  {
    forall c :: c in r <==> c in cs
  }

  /** `row[c]`, reading a cell the row does not carry as null. */
  function Get(row: Record, c: Column): Value
  {
    if c in row then row[c] else Null
  }

  /** `df[c]` as a sequence of cells, one per row. */
  function ColumnOf(rows: seq<Record>, c: Column): (vs: seq<Value>)
    ensures |vs| == |rows|
    ensures forall i | 0 <= i < |rows| :: vs[i] == Get(rows[i], c)
  {
    seq(|rows|, i requires 0 <= i < |rows| => Get(rows[i], c))
  }

  /** Every row carries exactly the table's columns, and the columns are distinct. */
  ghost predicate WellFormed(t: Table)
  {
    && Distinct(t.columns)
    && forall i | 0 <= i < |t.rows| :: HasColumns(t.rows[i], t.columns)
  }

  function Names(ds: DataSet): (names: seq<string>)
    ensures |names| == |ds|
    ensures forall i | 0 <= i < |ds| :: names[i] == ds[i].name
  {
    seq(|ds|, i requires 0 <= i < |ds| => ds[i].name)
  }

  lemma NamesAppend(a: DataSet, b: DataSet)
    ensures Names(a + b) == Names(a) + Names(b)
  {
    assert forall k | 0 <= k < |a + b| :: Names(a + b)[k] == (Names(a) + Names(b))[k];
  }

  /** No two entries share a name, as in a dict. */
  ghost predicate UniqueNames(ds: DataSet)
  {
    forall i, j | 0 <= i < j < |ds| :: ds[i].name != ds[j].name
  }

  /** `name in d` and `d[name]` of a dict. */
  function Lookup(ds: DataSet, name: string): (r: Option<Table>)
    ensures r.Some? <==> name in Names(ds)
    ensures r.Some? ==> exists i | 0 <= i < |ds| :: ds[i] == Entry(name, r.value)
  {
    if |ds| == 0 then None
    else if ds[|ds| - 1].name == name then Some(ds[|ds| - 1].table)
    else Lookup(ds[..|ds| - 1], name)
  }

  /** `sum(len(df) for df in d.values())`. */
  function TotalRows(ds: DataSet): nat
  {
    if |ds| == 0 then 0 else TotalRows(ds[..|ds| - 1]) + |ds[|ds| - 1].table.rows|
  }
}
