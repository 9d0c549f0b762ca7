/**
 * The extract stage (`extract_data`): either a full collection, or the incremental
 * strategy that skips the API while the season's watermark is younger than the
 * lookback period, reads the raw files back instead, and otherwise collects and
 * then records a new watermark.
 */
module Extract {

  import opened Base
  import opened Data
  import opened Text
  import opened Retry
  import opened Collector

  const SecondsPerDay: int := 86400

  /**
   * The part of the pipeline configuration the modelled code reads: the quality
   * gate's null fraction, the warehouse switch and dataset, and the incremental
   * switch and lookback.
   */
  datatype Config = Config(
    maxMissingPct: real,
    bigqueryEnabled: bool,
    datasetId: string,
    incrementalEnabled: bool,
    lookbackDays: int)

  /** The defaults used when no configuration file is read. */
  const DefaultConfig := Config(0.1, false, "nba_analytics", true, 7)

  /** How an extraction obtains its data. */
  datatype Strategy =
    | LoadStored        // the watermark is fresh: read the raw files back
    | CollectTracked    // incremental: collect, then write a new watermark
    | CollectUntracked  // full: collect, no watermark

  /** The season's watermark exists and is younger than the lookback period at time `now` (in seconds). */
  predicate Fresh(watermarks: map<string, Watermark>, season: string, lookbackDays: int, now: int)
  {
    var f := WatermarkFileName(season);
    f in watermarks && now - watermarks[f].timestamp < lookbackDays * SecondsPerDay
  }

  function ChooseStrategy(config: Config, incremental: bool, watermarks: map<string, Watermark>, season: string, now: int)
    : Strategy
  {
    if !(incremental && config.incrementalEnabled) then CollectUntracked
    else if Fresh(watermarks, season, config.lookbackDays, now) then LoadStored
    else CollectTracked
  }

  /**
   * `_load_existing_data(season)`: each of the two raw files of the season that
   * exists is read back under its key; a missing file is skipped, not an error.
   */
  function LoadExisting(raw: map<string, Table>, season: string): (r: DataSet)
    ensures |r| <= 2
    ensures forall k | 0 <= k < |r| ::
      (r[k].name == "players" || r[k].name == "advanced_stats")
      && RawFileName(r[k].name, season) in raw && r[k].table == raw[RawFileName(r[k].name, season)]
    ensures "players" in Names(r) <==> RawFileName("players", season) in raw
    ensures "advanced_stats" in Names(r) <==> RawFileName("advanced_stats", season) in raw
    ensures |r| == 2 ==> r[0].name == "players" && r[1].name == "advanced_stats"
  {
    var p := RawFileName("players", season);
    var a := RawFileName("advanced_stats", season);
    assert "players"[1] != "advanced_stats"[1];
    if p in raw && a in raw then
      var r := [Entry("players", raw[p]), Entry("advanced_stats", raw[a])];
      assert Names(r) == ["players", "advanced_stats"];
      r
    else if p in raw then
      var r := [Entry("players", raw[p])];
      assert Names(r) == ["players"];
      r
    else if a in raw then
      var r := [Entry("advanced_stats", raw[a])];
      assert Names(r) == ["advanced_stats"];
      r
    else []
  }

  /** The watermark written after an incremental collection. */
  function Mark(w: World, season: string, later: int, data: DataSet): (r: World)
    ensures r == w.(watermarks := r.watermarks)
    ensures r.watermarks.Keys == w.watermarks.Keys + {WatermarkFileName(season)}
    ensures r.watermarks[WatermarkFileName(season)] == Watermark(later, season, TotalRows(data))
    ensures forall f | f in w.watermarks && f != WatermarkFileName(season) :: r.watermarks[f] == w.watermarks[f]
  {
    w.(watermarks := w.watermarks[WatermarkFileName(season) := Watermark(later, season, TotalRows(data))])
  }

  /**
   * `_extract_incremental_data` past the freshness test: a full collection, then,
   * once it succeeded, the new watermark with the number of records collected.
   */
  function CollectAndMark(provider: Provider, w: World, season: string, later: int): (r: Run<DataSet>)
    ensures r.result == CollectAllData(provider, w, season, true).result
    ensures r.world.raw == CollectAllData(provider, w, season, true).world.raw
    ensures r.world.calls == CollectAllData(provider, w, season, true).world.calls
    ensures r.world.processed == w.processed && r.world.warehouse == w.warehouse
    ensures CollectOrder(r.events)
    ensures r.result.Failure? ==> r.world.raw == w.raw && r.world.watermarks == w.watermarks
    ensures r.result.Success? ==>
      r.world.watermarks == w.watermarks[WatermarkFileName(season) := Watermark(later, season, TotalRows(r.result.value))]
  {
    var c := CollectAllData(provider, w, season, true);
    if c.result.Failure? then c
    else
      var events := c.events + [WriteWatermark(WatermarkFileName(season))];
      MarkedOrder(c.events, WatermarkFileName(season));
      Run(c.result, Mark(c.world, season, later, c.result.value), events)
  }

  /** Writing the watermark after a collection keeps the collection's order. */
  lemma MarkedOrder(events: seq<Event>, file: string)
    requires CollectOrder(events)
    ensures CollectOrder(events + [WriteWatermark(file)])
  {
    var marked := events + [WriteWatermark(file)];
    assert forall k | 0 <= k < |events| :: marked[k] == events[k];
  }

  /**
   * `extract_data(season, incremental)`. `now` is the clock reading compared with the
   * watermark and `later` the one written into the new watermark, both in seconds.
   * A collection failure propagates, and then no watermark is written.
   */
  function ExtractData(provider: Provider, w: World, config: Config, season: string, incremental: bool, now: int, later: int)
    : (r: Run<DataSet>)
    ensures r.world.processed == w.processed && r.world.warehouse == w.warehouse
    ensures ChooseStrategy(config, incremental, w.watermarks, season, now) == LoadStored ==>
      r == Run(Success(LoadExisting(w.raw, season)), w, [])
    ensures ChooseStrategy(config, incremental, w.watermarks, season, now) != LoadStored ==>
      && CollectOrder(r.events)
      && r.result == CollectAllData(provider, w, season, true).result
      && r.world.raw == CollectAllData(provider, w, season, true).world.raw
      && r.world.calls == CollectAllData(provider, w, season, true).world.calls
    ensures ChooseStrategy(config, incremental, w.watermarks, season, now) == CollectTracked && r.result.Success? ==>
      r.world.watermarks == w.watermarks[WatermarkFileName(season) := Watermark(later, season, TotalRows(r.result.value))]
    ensures ChooseStrategy(config, incremental, w.watermarks, season, now) == CollectUntracked ==>
      r.world.watermarks == w.watermarks
    ensures r.world.watermarks != w.watermarks ==>
      && ChooseStrategy(config, incremental, w.watermarks, season, now) == CollectTracked
      && r.result.Success?
      && r.world.watermarks == w.watermarks[WatermarkFileName(season) := Watermark(later, season, TotalRows(r.result.value))]
    ensures r.result.Failure? ==> r.world.raw == w.raw && r.world.watermarks == w.watermarks
  {
    match ChooseStrategy(config, incremental, w.watermarks, season, now)
    case LoadStored => Run(Success(LoadExisting(w.raw, season)), w, [])
    case CollectUntracked => CollectAllData(provider, w, season, true)
    case CollectTracked => CollectAndMark(provider, w, season, later)
  }

  /** An extraction makes no request exactly when the incremental strategy finds a fresh watermark. */
  lemma SkipsRequestsIffFresh(provider: Provider, w: World, config: Config, season: string, incremental: bool, now: int, later: int)
    ensures var r := ExtractData(provider, w, config, season, incremental, now, later);
      (r.events == [] && r.world == w) <==>
        incremental && config.incrementalEnabled && Fresh(w.watermarks, season, config.lookbackDays, now)
  {
  }

  /** Collecting with `save_data` and then loading the raw files back gives the collected tables. */
  lemma SavedDataLoadsBack(provider: Provider, w: World, season: string)
    requires CollectAllData(provider, w, season, true).result.Success?
    ensures var c := CollectAllData(provider, w, season, true);
      LoadExisting(c.world.raw, season) == c.result.value
  {
    CollectedTables(provider, w, season, true);
    var c := CollectAllData(provider, w, season, true);
    var r := LoadExisting(c.world.raw, season);
    RawFileNamesDiffer(season);
    assert |r| == 2;
  }

  /**
   * A second incremental extraction within the lookback period of a first one that
   * collected makes no request and returns the data the first one collected.
   */
  lemma RepeatWithinLookback(provider: Provider, w: World, config: Config, season: string,
                             now: int, later: int, provider': Provider, now': int, later': int)
    requires config.incrementalEnabled
    requires ExtractData(provider, w, config, season, true, now, later).result.Success?
    requires !Fresh(w.watermarks, season, config.lookbackDays, now)
    requires now' - later < config.lookbackDays * SecondsPerDay
    ensures var r := ExtractData(provider, w, config, season, true, now, later);
      var r' := ExtractData(provider', r.world, config, season, true, now', later');
      r'.events == [] && r'.result == r.result
  {
    var r := ExtractData(provider, w, config, season, true, now, later);
    var c := CollectAllData(provider, w, season, true);
    assert Fresh(r.world.watermarks, season, config.lookbackDays, now');
    SavedDataLoadsBack(provider, w, season);
    assert r.world.raw == c.world.raw;
  }
}
