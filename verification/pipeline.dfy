/**
 * `NBAETLPipeline`: the warehouse client it may create, and `run_pipeline`, which
 * runs extract, transform and load in order, stops at the first exception and
 * reports what was completed instead of raising.
 */
module Pipeline {

  import opened Base
  import opened Data
  import opened Text
  import opened Retry
  import opened Collector
  import opened Quality
  import opened Transform
  import opened Extract
  import opened Load

  /**
   * The warehouse client of a pipeline: none unless the configuration enables the
   * warehouse, and none when initialising it fails (`service` is None); the failure
   * is logged, not raised.
   */
  function Connect(config: Config, service: Option<Warehouse>): (client: Option<Warehouse>)
    ensures client.Some? <==> config.bigqueryEnabled && service.Some?
    ensures client.Some? ==> client == service
  {
    if config.bigqueryEnabled then service else None
  }

  datatype StepName = ExtractStep | TransformStep | LoadStep

  const AllSteps: seq<StepName> := [ExtractStep, TransformStep, LoadStep]

  datatype Status = Completed | Failed

  /**
   * The clock readings of one run, in seconds: the start, the freshness test and the
   * new watermark of an incremental extraction, the two `processed_at` stamps, the
   * stamp of the processed files (already formatted) and the end.
   */
  datatype Clock = Clock(start: int, checked: int, marked: int, playersAt: int, advancedAt: int, savedAt: string, end: int)

  /**
   * The results dictionary of `run_pipeline`; a record count is None while its key
   * is absent, and `errors` holds the exception of a failed run.
   */
  datatype Report = Report(
    season: string,
    startTime: int,
    incremental: bool,
    status: Status,
    stepsCompleted: seq<StepName>,
    errors: seq<Error>,
    recordsExtracted: Option<nat>,
    recordsTransformed: Option<nat>,
    endTime: int,
    durationSeconds: int)

  datatype PipelineRun = PipelineRun(report: Report, world: World, events: seq<Event>)

  /** The report of a run that completed `steps` and then stopped with `failure` (None when it completed). */
  function Finish(season: string, incremental: bool, clock: Clock, steps: seq<StepName>, failure: Option<Error>,
                  extracted: Option<nat>, transformed: Option<nat>): (r: Report)
    ensures r.status == Completed <==> failure.None?
    ensures r.errors == (if failure.Some? then [failure.value] else [])
    ensures r.stepsCompleted == steps && r.recordsExtracted == extracted && r.recordsTransformed == transformed
    ensures r.season == season && r.incremental == incremental
    ensures r.startTime == clock.start && r.endTime == clock.end && r.durationSeconds == clock.end - clock.start
  {
    Report(season, clock.start, incremental, if failure.Some? then Failed else Completed, steps,
           if failure.Some? then [failure.value] else [], extracted, transformed, clock.end, clock.end - clock.start)
  }

  /**
   * What every report says about itself: the completed steps are a prefix of
   * extract, transform, load; the run completed exactly when all three did, with no
   * error, and failed with exactly one; each record count is present exactly once
   * its step completed; and the duration is the time between start and end.
   */
  ghost predicate Consistent(rep: Report)
  {
    && |rep.stepsCompleted| <= 3 && rep.stepsCompleted == AllSteps[..|rep.stepsCompleted|]
    && (rep.status == Completed <==> rep.stepsCompleted == AllSteps)
    && (rep.status == Completed ==> rep.errors == [])
    && (rep.status == Failed ==> |rep.errors| == 1)
    && (rep.recordsExtracted.Some? <==> 1 <= |rep.stepsCompleted|)
    && (rep.recordsTransformed.Some? <==> 2 <= |rep.stepsCompleted|)
    && rep.durationSeconds == rep.endTime - rep.startTime
  }

  /** The load step and the report after it. */
  function LoadStage(x: Run<DataSet>, out: DataSet, config: Config, season: string, incremental: bool, clock: Clock)
    : (r: PipelineRun)
    requires x.result.Success?
    ensures Consistent(r.report) && 2 <= |r.report.stepsCompleted|
    ensures r.report.season == season && r.report.incremental == incremental
    ensures r.report.startTime == clock.start && r.report.endTime == clock.end
    ensures r.report.recordsExtracted == Some(TotalRows(x.result.value)) && r.report.recordsTransformed == Some(TotalRows(out))
    ensures var l := LoadData(x.world, out, config.datasetId, clock.savedAt);
      && r.world == l.world
      && (r.report.status == Completed <==> l.result.Success?)
      && (l.result.Failure? ==> r.report.errors == [l.result.error])
    ensures |r.report.stepsCompleted| == 2 ==> x.world.warehouse.Some? && r.report.errors[0].WarehouseRejected?
  {
    var l := LoadData(x.world, out, config.datasetId, clock.savedAt);
    var steps := if l.result.Success? then AllSteps else [ExtractStep, TransformStep];
    var failure := if l.result.Failure? then Some(l.result.error) else None;
    PipelineRun(Finish(season, incremental, clock, steps, failure, Some(TotalRows(x.result.value)), Some(TotalRows(out))),
                l.world, x.events + l.events)
  }

  /** The transform and load steps and the report after them. */
  function TransformStage(x: Run<DataSet>, config: Config, season: string, incremental: bool, per: Record -> real, clock: Clock)
    : (r: PipelineRun)
    requires x.result.Success?
    ensures Consistent(r.report) && 1 <= |r.report.stepsCompleted|
    ensures r.report.season == season && r.report.incremental == incremental
    ensures r.report.startTime == clock.start && r.report.endTime == clock.end
    ensures r.report.recordsExtracted == Some(TotalRows(x.result.value))
    ensures var t := TransformData(x.result.value, config.maxMissingPct, per, clock.playersAt, clock.advancedAt);
      && (t.Failure? ==> r.report.stepsCompleted == [ExtractStep] && r.report.errors == [t.error] && r.world == x.world)
      && (t.Success? ==> r == LoadStage(x, t.value, config, season, incremental, clock))
    ensures |r.report.stepsCompleted| < 2 ==> r.world == x.world
    ensures |r.report.stepsCompleted| == 2 ==> x.world.warehouse.Some? && r.report.errors[0].WarehouseRejected?
  {
    match TransformData(x.result.value, config.maxMissingPct, per, clock.playersAt, clock.advancedAt)
    case Failure(e) =>
      PipelineRun(Finish(season, incremental, clock, [ExtractStep], Some(e), Some(TotalRows(x.result.value)), None),
                  x.world, x.events)
    case Success(out) => LoadStage(x, out, config, season, incremental, clock)
  }

  /**
   * `run_pipeline(season, incremental)` on a pipeline with configuration `config`
   * whose warehouse client is `w.warehouse`; `per` is the efficiency rating of a row.
   */
  function RunPipeline(provider: Provider, w: World, config: Config, season: string, incremental: bool,
                       per: Record -> real, clock: Clock): (r: PipelineRun)
    ensures r.report.season == season && r.report.incremental == incremental
    ensures r.report.startTime == clock.start && r.report.endTime == clock.end
    ensures r.report.durationSeconds == r.report.endTime - r.report.startTime
    ensures |r.report.stepsCompleted| <= 3 && r.report.stepsCompleted == AllSteps[..|r.report.stepsCompleted|]
    ensures r.report.status == Completed <==> r.report.stepsCompleted == AllSteps
    ensures r.report.status == Completed ==> r.report.errors == []
    ensures r.report.status == Failed ==> |r.report.errors| == 1
    ensures r.report.recordsExtracted.Some? <==> 1 <= |r.report.stepsCompleted|
    ensures r.report.recordsTransformed.Some? <==> 2 <= |r.report.stepsCompleted|
    ensures var x := ExtractData(provider, w, config, season, incremental, clock.checked, clock.marked);
      && (x.result.Failure? ==> r.report.stepsCompleted == [] && r.report.errors == [x.result.error] && r.world == x.world)
      && (x.result.Success? ==> r == TransformStage(x, config, season, incremental, per, clock))
    ensures |r.report.stepsCompleted| < 2 ==> r.world.processed == w.processed && r.world.warehouse == w.warehouse
    ensures |r.report.stepsCompleted| == 2 ==> w.warehouse.Some? && r.report.errors[0].WarehouseRejected?
  {
    var x := ExtractData(provider, w, config, season, incremental, clock.checked, clock.marked);
    if x.result.Failure? then
      PipelineRun(Finish(season, incremental, clock, [], Some(x.result.error), None, None), x.world, x.events)
    else TransformStage(x, config, season, incremental, per, clock)
  }

  /**
   * After a completed run every transformed table is in its processed file and,
   * when a warehouse client exists, in the warehouse table of the same name.
   */
  lemma CompletedOutputs(x: Run<DataSet>, out: DataSet, config: Config, season: string, incremental: bool, clock: Clock)
    requires x.result.Success? && UniqueNames(out)
    requires LoadStage(x, out, config, season, incremental, clock).report.status == Completed
    ensures var r := LoadStage(x, out, config, season, incremental, clock);
      forall k | 0 <= k < |out| ::
        && r.world.processed[ProcessedFileName(out[k].name, clock.savedAt)] == out[k].table
        && (x.world.warehouse.Some? ==>
              && TableId(config.datasetId, out[k].name) in r.world.warehouse.value.tables
              && r.world.warehouse.value.tables[TableId(config.datasetId, out[k].name)] == out[k].table)
  {
    var r := LoadStage(x, out, config, season, incremental, clock);
    LoadedOutputs(x.world, out, config.datasetId, clock.savedAt);
    forall k | 0 <= k < |out|
      ensures r.world.processed[ProcessedFileName(out[k].name, clock.savedAt)] == out[k].table
      ensures x.world.warehouse.Some? ==> r.world.warehouse.value.tables[TableId(config.datasetId, out[k].name)] == out[k].table
    {
    }
  }

  /** The raw tables read back from disk are the known tables in the stage's order. */
  lemma StoredTablesKept(raw: map<string, Table>, season: string)
    ensures Names(LoadExisting(raw, season)) == Kept(LoadExisting(raw, season))
  {
    var r := LoadExisting(raw, season);
    assert "players"[0] != "advanced_stats"[0];
    if |r| == 1 {
      assert Names(r) == [r[0].name];
    } else if |r| == 2 {
      assert Names(r) == [r[0].name, r[1].name];
    }
  }

  /** Whatever the strategy, an extraction yields the known tables in the stage's order. */
  lemma ExtractedKept(provider: Provider, w: World, config: Config, season: string, incremental: bool, now: int, later: int)
    requires ExtractData(provider, w, config, season, incremental, now, later).result.Success?
    ensures var raw := ExtractData(provider, w, config, season, incremental, now, later).result.value;
      Names(raw) == Kept(raw)
  {
    if ChooseStrategy(config, incremental, w.watermarks, season, now) == LoadStored {
      StoredTablesKept(w.raw, season);
    }
  }

  /**
   * Once the transform step completed, the report counts as many transformed
   * records as extracted ones: the extracted tables are exactly the ones the
   * transform keeps, and it keeps every row.
   */
  lemma RecordsAgree(provider: Provider, w: World, config: Config, season: string, incremental: bool,
                     per: Record -> real, clock: Clock)
    ensures var r := RunPipeline(provider, w, config, season, incremental, per, clock);
      r.report.recordsTransformed.Some? ==> r.report.recordsTransformed == r.report.recordsExtracted
  {
    var x := ExtractData(provider, w, config, season, incremental, clock.checked, clock.marked);
    if x.result.Success? {
      var t := TransformData(x.result.value, config.maxMissingPct, per, clock.playersAt, clock.advancedAt);
      if t.Success? {
        ExtractedKept(provider, w, config, season, incremental, clock.checked, clock.marked);
        TransformKeepsRecords(x.result.value, config.maxMissingPct, per, clock.playersAt, clock.advancedAt);
      }
    }
  }

  /**
   * After a completed run every table the transform step produced is in its
   * processed file and, when a warehouse client exists, in the warehouse table of
   * the same name.
   */
  lemma CompletedRunOutputs(provider: Provider, w: World, config: Config, season: string, incremental: bool,
                            per: Record -> real, clock: Clock)
    requires RunPipeline(provider, w, config, season, incremental, per, clock).report.status == Completed
    ensures var x := ExtractData(provider, w, config, season, incremental, clock.checked, clock.marked);
      && x.result.Success?
      && var t := TransformData(x.result.value, config.maxMissingPct, per, clock.playersAt, clock.advancedAt);
      && t.Success?
      && var r := RunPipeline(provider, w, config, season, incremental, per, clock);
      forall k | 0 <= k < |t.value| ::
        && r.world.processed[ProcessedFileName(t.value[k].name, clock.savedAt)] == t.value[k].table
        && (w.warehouse.Some? ==>
              && TableId(config.datasetId, t.value[k].name) in r.world.warehouse.value.tables
              && r.world.warehouse.value.tables[TableId(config.datasetId, t.value[k].name)] == t.value[k].table)
  {
    var x := ExtractData(provider, w, config, season, incremental, clock.checked, clock.marked);
    var t := TransformData(x.result.value, config.maxMissingPct, per, clock.playersAt, clock.advancedAt);
    TransformedNamesUnique(x.result.value, config.maxMissingPct, per, clock.playersAt, clock.advancedAt);
    CompletedOutputs(x, t.value, config, season, incremental, clock);
  }
}
