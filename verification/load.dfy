/**
 * The load stage (`load_data`): every transformed table is written to a processed
 * file stamped with the save time, and then, when a warehouse client exists, loaded
 * into the warehouse table `<dataset>.<table>`, replacing its contents.
 */
module Load {

  import opened Base
  import opened Data
  import opened Text

  /** `f"{dataset_id}.{table_name}"`. */
  function TableId(datasetId: string, name: string): string
  {
    datasetId + "." + name
  }

  /** Distinct table names give distinct processed files. */
  lemma ProcessedFileNameInjective(a: string, b: string, stamp: string)
    requires ProcessedFileName(a, stamp) == ProcessedFileName(b, stamp)
    ensures a == b
  {
    var f := ProcessedFileName(a, stamp);
    assert |a| == |b|;
    assert a == f[..|a|] && b == f[..|b|];
  }

  /** Distinct table names give distinct table ids within one dataset. */
  lemma TableIdInjective(datasetId: string, a: string, b: string)
    requires TableId(datasetId, a) == TableId(datasetId, b)
    ensures a == b
  {
    var id := TableId(datasetId, a);
    assert |a| == |b|;
    assert a == id[|datasetId| + 1..] && b == id[|datasetId| + 1..];
  }

  /** The processed files of the tables of `data`. */
  function Files(data: DataSet, stamp: string): (fs: set<string>)
    ensures forall k | 0 <= k < |data| :: ProcessedFileName(data[k].name, stamp) in fs
  {
    if |data| == 0 then {}
    else
      var n := |data| - 1;
      var before := Files(data[..n], stamp);
      assert forall k | 0 <= k < n :: data[..n][k] == data[k];
      before + {ProcessedFileName(data[n].name, stamp)}
  }

  /**
   * `_save_processed_data(data)`: one file `<table>_<stamp>.csv` per table, in order;
   * an existing file of the same name is overwritten.
   */
  function SaveFiles(processed: map<string, Table>, data: DataSet, stamp: string): (r: map<string, Table>)
    ensures r.Keys == processed.Keys + Files(data, stamp)
    ensures forall f | f in processed && f !in Files(data, stamp) :: r[f] == processed[f]
    ensures UniqueNames(data) ==>
      forall k | 0 <= k < |data| :: r[ProcessedFileName(data[k].name, stamp)] == data[k].table
  {
    if |data| == 0 then processed
    else
      var n := |data| - 1;
      var before := SaveFiles(processed, data[..n], stamp);
      var f := ProcessedFileName(data[n].name, stamp);
      LastFileIsNew(data, stamp);
      assert forall k | 0 <= k < n :: data[..n][k] == data[k];
      before[f := data[n].table]
  }

  /** In a dict, the file of the last table is none of the files of the tables before it. */
  lemma LastFileIsNew(data: DataSet, stamp: string)
    requires 0 < |data|
    ensures var n := |data| - 1;
      UniqueNames(data) ==>
        && UniqueNames(data[..n])
        && forall k | 0 <= k < n :: ProcessedFileName(data[k].name, stamp) != ProcessedFileName(data[n].name, stamp)
  {
    var n := |data| - 1;
    if UniqueNames(data) {
      forall k | 0 <= k < n ensures ProcessedFileName(data[k].name, stamp) != ProcessedFileName(data[n].name, stamp) {
        assert data[k].name != data[n].name;
        if ProcessedFileName(data[k].name, stamp) == ProcessedFileName(data[n].name, stamp) {
          ProcessedFileNameInjective(data[k].name, data[n].name, stamp);
        }
      }
      assert forall k | 0 <= k < n :: data[..n][k] == data[k];
    }
  }

  /** The events of saving the processed files, one per table in order. */
  function SaveEvents(data: DataSet, stamp: string): (events: seq<Event>)
    ensures |events| == |data|
    ensures forall k | 0 <= k < |data| :: events[k] == SaveProcessed(ProcessedFileName(data[k].name, stamp))
  {
    seq(|data|, k requires 0 <= k < |data| => SaveProcessed(ProcessedFileName(data[k].name, stamp)))
  }

  /** The position of the first table whose load job fails, or `|data|` when none does. */
  function FirstRejected(data: DataSet, datasetId: string, rejects: set<string>): (m: nat)
    ensures m <= |data|
    ensures forall j | 0 <= j < m :: TableId(datasetId, data[j].name) !in rejects
    ensures m < |data| ==> TableId(datasetId, data[m].name) in rejects
  {
    if |data| == 0 then 0
    else
      var n := |data| - 1;
      var m := FirstRejected(data[..n], datasetId, rejects);
      assert forall j | 0 <= j < n :: data[..n][j] == data[j];
      if m < n then m else if TableId(datasetId, data[n].name) in rejects then n else n + 1
  }

  /** The warehouse table ids of the tables of `data`. */
  function Ids(data: DataSet, datasetId: string): (ids: set<string>)
    ensures forall k | 0 <= k < |data| :: TableId(datasetId, data[k].name) in ids
  {
    if |data| == 0 then {}
    else
      var n := |data| - 1;
      var before := Ids(data[..n], datasetId);
      assert forall k | 0 <= k < n :: data[..n][k] == data[k];
      before + {TableId(datasetId, data[n].name)}
  }

  /** The outcome of the warehouse loads: the first load error or none, the warehouse after them, and the load jobs in order. */
  datatype Loaded = Loaded(result: Result<(), Error>, warehouse: Warehouse, events: seq<Event>)

  /**
   * `_load_to_bigquery(data)`: one `WRITE_TRUNCATE` load job per table, in order;
   * the first job that fails raises, and the tables loaded before it stay loaded.
   */
  function LoadTables(wh: Warehouse, data: DataSet, datasetId: string): (r: Loaded)
    ensures var m := FirstRejected(data, datasetId, wh.rejects);
      && r.warehouse.rejects == wh.rejects
      && (r.result.Success? <==> m == |data|)
      && (r.result.Failure? ==> r.result == Failure(WarehouseRejected(TableId(datasetId, data[m].name))))
      && |r.events| == (if m == |data| then m else m + 1)
      && (forall k | 0 <= k < |r.events| :: r.events[k] == WarehouseLoad(TableId(datasetId, data[k].name)))
  {
    if |data| == 0 then Loaded(Success(()), wh, [])
    else
      var n := |data| - 1;
      var before := LoadTables(wh, data[..n], datasetId);
      var id := TableId(datasetId, data[n].name);
      assert forall k | 0 <= k < n :: data[..n][k] == data[k];
      if before.result.Failure? then before
      else if id in wh.rejects then
        Loaded(Failure(WarehouseRejected(id)), before.warehouse, before.events + [WarehouseLoad(id)])
      else
        Loaded(Success(()), before.warehouse.(tables := before.warehouse.tables[id := data[n].table]),
               before.events + [WarehouseLoad(id)])
  }

  /**
   * `_load_to_bigquery(data)` as written: the job configuration is requested from the
   * client object (`self.bigquery_client.LoadJobConfig`), which has no such
   * attribute, so the first table raises `AttributeError` before any load job
   * starts. `LoadTables` is the load with the configuration taken from the
   * library's module, as evidently intended.
   */
  function LoadTablesAsWritten(wh: Warehouse, data: DataSet, datasetId: string): (r: Loaded)
    ensures r.warehouse == wh && r.events == []
    ensures r.result.Success? <==> |data| == 0
    ensures r.result.Failure? ==> r.result.error == NoSuchAttribute("LoadJobConfig")
  {
    if |data| == 0 then Loaded(Success(()), wh, [])
    else Loaded(Failure(NoSuchAttribute("LoadJobConfig")), wh, [])
  }

  /**
   * The discrepancy: whenever there is a table and the warehouse accepts every
   * job, the intended load runs one job per table and succeeds, while the load as
   * written runs none and fails.
   */
  lemma AsWrittenLoadsNothing(wh: Warehouse, data: DataSet, datasetId: string)
    requires 0 < |data| && FirstRejected(data, datasetId, wh.rejects) == |data|
    ensures LoadTables(wh, data, datasetId).result.Success?
    ensures |LoadTables(wh, data, datasetId).events| == |data|
    ensures LoadTablesAsWritten(wh, data, datasetId).result == Failure(NoSuchAttribute("LoadJobConfig"))
    ensures LoadTablesAsWritten(wh, data, datasetId).events == []
  {
  }

  /**
   * What the warehouse holds after the loads: every table before the first failing
   * one under its id (the last load of an id wins), and every other table as it was.
   */
  ghost predicate Contents(wh: Warehouse, data: DataSet, datasetId: string)
  {
    var r := LoadTables(wh, data, datasetId);
    var m := FirstRejected(data, datasetId, wh.rejects);
    && r.warehouse.tables.Keys == wh.tables.Keys + Ids(data[..m], datasetId)
    && (forall id | id in wh.tables && id !in Ids(data[..m], datasetId) :: r.warehouse.tables[id] == wh.tables[id])
  }

  lemma {:induction false} LoadedContents(wh: Warehouse, data: DataSet, datasetId: string)
    ensures var r := LoadTables(wh, data, datasetId);
      var m := FirstRejected(data, datasetId, wh.rejects);
      && r.warehouse.tables.Keys == wh.tables.Keys + Ids(data[..m], datasetId)
      && (forall id | id in wh.tables && id !in Ids(data[..m], datasetId) :: r.warehouse.tables[id] == wh.tables[id])
  {
    if |data| > 0 {
      var n := |data| - 1;
      LoadedContents(wh, data[..n], datasetId);
      assert Contents(wh, data[..n], datasetId);
      var m := FirstRejected(data, datasetId, wh.rejects);
      if FirstRejected(data[..n], datasetId, wh.rejects) < n {
        ContentsStopped(wh, data, datasetId);
      } else if m == n {
        ContentsRejectedLast(wh, data, datasetId);
      } else {
        ContentsLoadedLast(wh, data, datasetId);
      }
      assert Contents(wh, data, datasetId);
    } else {
      assert data[..0] == data;
    }
  }

  /** A load that failed before the last table is the load of the tables before it. */
  lemma ContentsStopped(wh: Warehouse, data: DataSet, datasetId: string)
    requires 0 < |data| && Contents(wh, data[..|data| - 1], datasetId)
    requires FirstRejected(data[..|data| - 1], datasetId, wh.rejects) < |data| - 1
    ensures Contents(wh, data, datasetId)
  {
    var n := |data| - 1;
    var m := FirstRejected(data, datasetId, wh.rejects);
    assert LoadTables(wh, data, datasetId) == LoadTables(wh, data[..n], datasetId);
    assert data[..n][..m] == data[..m];
  }

  /** A load that fails at the last table leaves the warehouse as the tables before it left it. */
  lemma ContentsRejectedLast(wh: Warehouse, data: DataSet, datasetId: string)
    requires 0 < |data| && Contents(wh, data[..|data| - 1], datasetId)
    requires FirstRejected(data, datasetId, wh.rejects) == |data| - 1
    ensures Contents(wh, data, datasetId)
  {
    var n := |data| - 1;
    assert data[..n][..n] == data[..n];
    assert LoadTables(wh, data, datasetId).warehouse == LoadTables(wh, data[..n], datasetId).warehouse;
  }

  /** A load of the last table adds or replaces its id. */
  lemma ContentsLoadedLast(wh: Warehouse, data: DataSet, datasetId: string)
    requires 0 < |data| && Contents(wh, data[..|data| - 1], datasetId)
    requires FirstRejected(data, datasetId, wh.rejects) == |data|
    ensures Contents(wh, data, datasetId)
  {
    var n := |data| - 1;
    LoadedLast(wh, data, datasetId);
    IdsLast(data, datasetId);
    assert data[..n][..n] == data[..n] && data[..|data|] == data;
    Overwrite(LoadTables(wh, data[..n], datasetId).warehouse.tables, wh.tables, Ids(data[..n], datasetId),
              TableId(datasetId, data[n].name), data[n].table);
  }

  /** When no load fails, the last load writes its table over what the loads before it left. */
  lemma LoadedLast(wh: Warehouse, data: DataSet, datasetId: string)
    requires 0 < |data| && FirstRejected(data, datasetId, wh.rejects) == |data|
    ensures FirstRejected(data[..|data| - 1], datasetId, wh.rejects) == |data| - 1
    ensures LoadTables(wh, data, datasetId).warehouse.tables ==
      LoadTables(wh, data[..|data| - 1], datasetId).warehouse.tables[TableId(datasetId, data[|data| - 1].name) := data[|data| - 1].table]
  {
    var n := |data| - 1;
    assert FirstRejected(data[..n], datasetId, wh.rejects) == n;
    LoadTablesLast(wh, data, datasetId);
  }

  /** The last load job, after the ones before it. */
  lemma LoadTablesLast(wh: Warehouse, data: DataSet, datasetId: string)
    requires 0 < |data|
    ensures var n := |data| - 1;
      var before := LoadTables(wh, data[..n], datasetId);
      var id := TableId(datasetId, data[n].name);
      before.result.Success? && id !in wh.rejects ==>
        LoadTables(wh, data, datasetId).warehouse.tables == before.warehouse.tables[id := data[n].table]
  {
  }

  lemma IdsLast(data: DataSet, datasetId: string)
    requires 0 < |data|
    ensures Ids(data, datasetId) == Ids(data[..|data| - 1], datasetId) + {TableId(datasetId, data[|data| - 1].name)}
  {
  }

  /** Writing one more id over a map that extends `base` by `ids` extends it by `ids` and that id. */
  lemma Overwrite(before: map<string, Table>, base: map<string, Table>, ids: set<string>, id: string, t: Table)
    requires before.Keys == base.Keys + ids
    requires forall x | x in base && x !in ids :: before[x] == base[x]
    ensures before[id := t].Keys == base.Keys + (ids + {id})
    ensures forall x | x in base && x !in ids + {id} :: before[id := t][x] == base[x]
  {
  }

  /** Every id in `Ids(data)` is the id of one of the tables. */
  lemma {:induction false} IdsMembers(data: DataSet, datasetId: string, id: string)
    requires id in Ids(data, datasetId)
    ensures exists k | 0 <= k < |data| :: id == TableId(datasetId, data[k].name)
  {
    var n := |data| - 1;
    if id != TableId(datasetId, data[n].name) {
      IdsMembers(data[..n], datasetId, id);
      var k :| 0 <= k < n && id == TableId(datasetId, data[..n][k].name);
      assert data[..n][k] == data[k];
    }
  }

  /** Each table loaded before the first failure is what its warehouse table holds afterwards. */
  ghost predicate Values(wh: Warehouse, data: DataSet, datasetId: string)
  {
    var r := LoadTables(wh, data, datasetId);
    forall k | 0 <= k < FirstRejected(data, datasetId, wh.rejects) ::
      TableId(datasetId, data[k].name) in r.warehouse.tables && r.warehouse.tables[TableId(datasetId, data[k].name)] == data[k].table
  }

  /** With distinct table names, each table loaded before the first failure is what its warehouse table holds afterwards. */
  lemma {:induction false} LoadedValues(wh: Warehouse, data: DataSet, datasetId: string)
    requires UniqueNames(data)
    ensures var r := LoadTables(wh, data, datasetId);
      forall k | 0 <= k < FirstRejected(data, datasetId, wh.rejects) ::
        TableId(datasetId, data[k].name) in r.warehouse.tables && r.warehouse.tables[TableId(datasetId, data[k].name)] == data[k].table
  {
    if |data| > 0 {
      var n := |data| - 1;
      assert UniqueNames(data[..n]) by {
        assert forall k | 0 <= k < n :: data[..n][k] == data[k];
      }
      LoadedValues(wh, data[..n], datasetId);
      assert Values(wh, data[..n], datasetId);
      var m := FirstRejected(data, datasetId, wh.rejects);
      if FirstRejected(data[..n], datasetId, wh.rejects) < n {
        ValuesStopped(wh, data, datasetId);
      } else if m == n {
        ValuesRejectedLast(wh, data, datasetId);
      } else {
        ValuesLoadedLast(wh, data, datasetId);
      }
      assert Values(wh, data, datasetId);
    }
  }

  lemma ValuesStopped(wh: Warehouse, data: DataSet, datasetId: string)
    requires 0 < |data| && Values(wh, data[..|data| - 1], datasetId)
    requires FirstRejected(data[..|data| - 1], datasetId, wh.rejects) < |data| - 1
    ensures Values(wh, data, datasetId)
  {
    var n := |data| - 1;
    assert LoadTables(wh, data, datasetId) == LoadTables(wh, data[..n], datasetId);
    assert forall k | 0 <= k < n :: data[..n][k] == data[k];
  }

  lemma ValuesRejectedLast(wh: Warehouse, data: DataSet, datasetId: string)
    requires 0 < |data| && Values(wh, data[..|data| - 1], datasetId)
    requires FirstRejected(data, datasetId, wh.rejects) == |data| - 1
    ensures Values(wh, data, datasetId)
  {
    var n := |data| - 1;
    assert LoadTables(wh, data, datasetId).warehouse == LoadTables(wh, data[..n], datasetId).warehouse;
    assert forall k | 0 <= k < n :: data[..n][k] == data[k];
  }

  lemma ValuesLoadedLast(wh: Warehouse, data: DataSet, datasetId: string)
    requires 0 < |data| && UniqueNames(data) && Values(wh, data[..|data| - 1], datasetId)
    requires FirstRejected(data, datasetId, wh.rejects) == |data|
    ensures Values(wh, data, datasetId)
  {
    var after := LoadTables(wh, data, datasetId).warehouse.tables;
    forall k | 0 <= k < |data| ensures TableId(datasetId, data[k].name) in after && after[TableId(datasetId, data[k].name)] == data[k].table {
      LastLoadKeeps(wh, data, datasetId, k);
    }
  }

  /** When no load fails, each table holds the value it was loaded with after the last load. */
  lemma LastLoadKeeps(wh: Warehouse, data: DataSet, datasetId: string, k: nat)
    requires 0 < |data| && UniqueNames(data) && Values(wh, data[..|data| - 1], datasetId)
    requires FirstRejected(data, datasetId, wh.rejects) == |data|
    requires k < |data|
    ensures var after := LoadTables(wh, data, datasetId).warehouse.tables;
      TableId(datasetId, data[k].name) in after && after[TableId(datasetId, data[k].name)] == data[k].table
  {
    LoadedLast(wh, data, datasetId);
    if k < |data| - 1 {
      EarlierLoaded(wh, data, datasetId, k);
      EarlierValueKept(data, datasetId, LoadTables(wh, data[..|data| - 1], datasetId).warehouse.tables, k);
    }
  }

  /** Each table before the last was loaded by the loads before the last one. */
  lemma EarlierLoaded(wh: Warehouse, data: DataSet, datasetId: string, k: nat)
    requires 0 < |data| && Values(wh, data[..|data| - 1], datasetId)
    requires FirstRejected(data[..|data| - 1], datasetId, wh.rejects) == |data| - 1
    requires k < |data| - 1
    ensures var before := LoadTables(wh, data[..|data| - 1], datasetId).warehouse.tables;
      TableId(datasetId, data[k].name) in before && before[TableId(datasetId, data[k].name)] == data[k].table
  {
    assert data[..|data| - 1][k] == data[k];
  }

  /** Loading the last of distinctly named tables keeps the value an earlier one was loaded with. */
  lemma EarlierValueKept(data: DataSet, datasetId: string, before: map<string, Table>, k: nat)
    requires k < |data| - 1 && UniqueNames(data)
    requires TableId(datasetId, data[k].name) in before && before[TableId(datasetId, data[k].name)] == data[k].table
    ensures var last := data[|data| - 1];
      before[TableId(datasetId, last.name) := last.table][TableId(datasetId, data[k].name)] == data[k].table
  {
    var n := |data| - 1;
    assert data[k].name != data[n].name;
    if TableId(datasetId, data[k].name) == TableId(datasetId, data[n].name) {
      TableIdInjective(datasetId, data[k].name, data[n].name);
    }
  }

  /**
   * `WRITE_TRUNCATE`: loading the same distinctly named tables again into the
   * warehouse a successful load produced leaves it as it is.
   */
  lemma LoadTwice(wh: Warehouse, data: DataSet, datasetId: string)
    requires UniqueNames(data) && LoadTables(wh, data, datasetId).result.Success?
    ensures var once := LoadTables(wh, data, datasetId).warehouse;
      LoadTables(once, data, datasetId) == Loaded(Success(()), once, LoadTables(wh, data, datasetId).events)
  {
    var once := LoadTables(wh, data, datasetId);
    var twice := LoadTables(once.warehouse, data, datasetId);
    ReloadKeepsTables(wh, data, datasetId);
    assert twice.warehouse == once.warehouse;
    assert twice.events == once.events;
  }

  /** Loading the same distinctly named tables again leaves the warehouse tables as the first load left them. */
  lemma ReloadKeepsTables(wh: Warehouse, data: DataSet, datasetId: string)
    requires UniqueNames(data) && LoadTables(wh, data, datasetId).result.Success?
    ensures var once := LoadTables(wh, data, datasetId).warehouse;
      LoadTables(once, data, datasetId).warehouse.tables == once.tables
  {
    var once := LoadTables(wh, data, datasetId).warehouse;
    var twice := LoadTables(once, data, datasetId).warehouse;
    ReloadKeys(wh, data, datasetId);
    forall id | id in twice.tables ensures twice.tables[id] == once.tables[id] {
      ReloadValue(wh, data, datasetId, id);
    }
    SameMaps(twice.tables, once.tables);
  }

  /** A second successful load adds no table id to the warehouse. */
  lemma ReloadKeys(wh: Warehouse, data: DataSet, datasetId: string)
    requires LoadTables(wh, data, datasetId).result.Success?
    ensures var once := LoadTables(wh, data, datasetId).warehouse;
      LoadTables(once, data, datasetId).warehouse.tables.Keys == once.tables.Keys
  {
    var once := LoadTables(wh, data, datasetId).warehouse;
    LoadedContents(wh, data, datasetId);
    LoadedContents(once, data, datasetId);
    assert data[..|data|] == data;
    assert FirstRejected(data, datasetId, once.rejects) == |data|;
  }

  /** A second successful load of distinctly named tables writes each id with the value it already holds. */
  lemma ReloadValue(wh: Warehouse, data: DataSet, datasetId: string, id: string)
    requires UniqueNames(data) && LoadTables(wh, data, datasetId).result.Success?
    requires id in LoadTables(wh, data, datasetId).warehouse.tables
    ensures var once := LoadTables(wh, data, datasetId).warehouse;
      var twice := LoadTables(once, data, datasetId).warehouse;
      id in twice.tables && twice.tables[id] == once.tables[id]
  {
    var once := LoadTables(wh, data, datasetId).warehouse;
    assert FirstRejected(data, datasetId, once.rejects) == |data|;
    assert data[..|data|] == data;
    LoadedContents(once, data, datasetId);
    if id in Ids(data, datasetId) {
      IdsMembers(data, datasetId, id);
      LoadedValues(wh, data, datasetId);
      LoadedValues(once, data, datasetId);
    }
  }

  lemma SameMaps<K, V>(a: map<K, V>, b: map<K, V>)
    requires a.Keys == b.Keys && forall k | k in a :: a[k] == b[k]
    ensures a == b
  {
  }

  /**
   * `load_data(data)`: the processed files are written first, whatever happens
   * next; then, when a warehouse client exists (`datasetId` is the configured
   * dataset), the tables are loaded into it and the first failing job raises.
   */
  function LoadData(w: World, data: DataSet, datasetId: string, stamp: string): (r: Run<()>)
    ensures r.world == w.(processed := r.world.processed, warehouse := r.world.warehouse)
    ensures r.world.processed.Keys == w.processed.Keys + Files(data, stamp)
    ensures forall f | f in w.processed && f !in Files(data, stamp) :: r.world.processed[f] == w.processed[f]
    ensures UniqueNames(data) ==>
      forall k | 0 <= k < |data| :: r.world.processed[ProcessedFileName(data[k].name, stamp)] == data[k].table
    ensures w.warehouse.None? ==> r.result.Success? && r.world.warehouse.None? && |r.events| == |data|
    ensures w.warehouse.Some? ==>
      && r.world.warehouse.Some?
      && (r.result.Success? <==> FirstRejected(data, datasetId, w.warehouse.value.rejects) == |data|)
    ensures r.result.Failure? ==> r.result.error.WarehouseRejected?
  {
    var saved := w.(processed := SaveFiles(w.processed, data, stamp));
    var events := SaveEvents(data, stamp);
    match w.warehouse
    case None => Run(Success(()), saved, events)
    case Some(wh) =>
      var loaded := LoadTables(wh, data, datasetId);
      Run(loaded.result, saved.(warehouse := Some(loaded.warehouse)), events + loaded.events)
  }

  /** The processed files are all written before the first warehouse load job starts. */
  lemma SavedBeforeLoaded(w: World, data: DataSet, datasetId: string, stamp: string)
    ensures var r := LoadData(w, data, datasetId, stamp);
      && |data| <= |r.events| && r.events[..|data|] == SaveEvents(data, stamp)
      && forall k | |data| <= k < |r.events| :: r.events[k].WarehouseLoad?
  {
    var r := LoadData(w, data, datasetId, stamp);
    var saves := SaveEvents(data, stamp);
    if w.warehouse.Some? {
      var loaded := LoadTables(w.warehouse.value, data, datasetId);
      assert r.events == saves + loaded.events;
      assert r.events[..|data|] == saves;
      forall k | |data| <= k < |r.events| ensures r.events[k].WarehouseLoad? {
        assert r.events[k] == loaded.events[k - |data|];
      }
    } else {
      assert r.events == saves;
      assert r.events[..|data|] == saves;
    }
  }

  /**
   * After a successful load of distinctly named tables, each table is in its
   * processed file and, when there is a warehouse, in its warehouse table.
   */
  lemma LoadedOutputs(w: World, data: DataSet, datasetId: string, stamp: string)
    requires UniqueNames(data) && LoadData(w, data, datasetId, stamp).result.Success?
    ensures var r := LoadData(w, data, datasetId, stamp);
      forall k | 0 <= k < |data| ::
        && r.world.processed[ProcessedFileName(data[k].name, stamp)] == data[k].table
        && (w.warehouse.Some? ==>
              && TableId(datasetId, data[k].name) in r.world.warehouse.value.tables
              && r.world.warehouse.value.tables[TableId(datasetId, data[k].name)] == data[k].table)
  {
    if w.warehouse.Some? {
      LoadedValues(w.warehouse.value, data, datasetId);
    }
  }
}
