/**
 * Enactment through a template and a reload script: `configureRoutes` in
 * main.go loads a template, creates the configuration file, renders the
 * routes into it and runs the reload script, giving up at the first step
 * that fails. The template engine, the file system and the script are
 * outside the model; each step's success is an input, and the model records
 * the actions attempted.
 */
module Enactor {
  import opened Routes

  /** The settings `configureRoutes` uses: template path, output path, reload script path. */
  datatype Config = Config(tmplFile: string, configFile: string, reloadScript: string)

  /** Whether each external step succeeds if it is attempted. */
  datatype StepOutcomes = StepOutcomes(
    templateLoads: bool,
    fileCreated: bool,
    renderSucceeds: bool,
    reloadSucceeds: bool)

  /** An external action taken by `configureRoutes`. */
  datatype Action =
    | LoadTemplate(path: string)
    | CreateFile(path: string)
    | Render(target: string, bindings: map<string, seq<Route>>)
    | RunReload(script: string)

  /** The log line a call ends with: the first failing step, or how the reload went. */
  datatype Report = TemplateFailed | CreateFailed | RenderFailed | ReloadFailed | Reloaded

  /** The one name the template sees. */
  const RoutesBinding: string := "routes"

  /** The four actions in the order `configureRoutes` attempts them. */
  function Pipeline(routes: seq<Route>, cfg: Config): (p: seq<Action>)
    ensures |p| == 4
  {
    [ LoadTemplate(cfg.tmplFile),
      CreateFile(cfg.configFile),
      Render(cfg.configFile, map[RoutesBinding := routes]),
      RunReload(cfg.reloadScript) ]
  }

  /** Success of the four steps, in pipeline order. */
  function Successes(o: StepOutcomes): (s: seq<bool>)
    ensures |s| == 4
  {
    [o.templateLoads, o.fileCreated, o.renderSucceeds, o.reloadSucceeds]
  }

  /** Whether the steps before step `k` all succeed. */
  predicate EarlierSucceed(o: StepOutcomes, k: nat)
    requires k <= 4
  {
    forall m :: 0 <= m < k ==> Successes(o)[m]
  }

  /** The number of steps attempted: every step up to and including the first failure. */
  function Attempted(o: StepOutcomes): nat
  {
    if !o.templateLoads then 1
    else if !o.fileCreated then 2
    else if !o.renderSucceeds then 3
    else 4
  }

  /** The actions one call of `configureRoutes` performs. */
  function PlannedTrace(routes: seq<Route>, cfg: Config, o: StepOutcomes): seq<Action>
  {
    Pipeline(routes, cfg)[..Attempted(o)]
  }

  function ReportOf(o: StepOutcomes): Report
  {
    if !o.templateLoads then TemplateFailed
    else if !o.fileCreated then CreateFailed
    else if !o.renderSucceeds then RenderFailed
    else if !o.reloadSucceeds then ReloadFailed
    else Reloaded
  }

  /**
   * `configureRoutes`: each step is attempted only when the previous one
   * succeeded; a failed reload is reported and the call returns normally.
   */
  method ConfigureRoutes(routes: seq<Route>, cfg: Config, o: StepOutcomes)
    returns (trace: seq<Action>, report: Report)
    ensures trace == PlannedTrace(routes, cfg, o)
    ensures report == ReportOf(o)
  {
    trace := [LoadTemplate(cfg.tmplFile)];
    if !o.templateLoads {
      return trace, TemplateFailed;
    }
    trace := trace + [CreateFile(cfg.configFile)];
    if !o.fileCreated {
      return trace, CreateFailed;
    }
    var conf := map[RoutesBinding := routes];
    trace := trace + [Render(cfg.configFile, conf)];
    if !o.renderSucceeds {
      return trace, RenderFailed;
    }
    trace := trace + [RunReload(cfg.reloadScript)];
    if o.reloadSucceeds {
      report := Reloaded;
    } else {
      report := ReloadFailed;
    }
  }

  /**
   * The actions are a prefix of the pipeline, and step `k` is performed if
   * and only if every step before it succeeded: the first failure stops
   * everything after it.
   */
  lemma StepRunsIffEarlierSucceed(routes: seq<Route>, cfg: Config, o: StepOutcomes, k: nat)
    requires k < 4
    ensures PlannedTrace(routes, cfg, o) <= Pipeline(routes, cfg)
    ensures k < |PlannedTrace(routes, cfg, o)| <==> EarlierSucceed(o, k)
  {
    if EarlierSucceed(o, k) {
      if k >= 1 { assert Successes(o)[0]; }
      if k >= 2 { assert Successes(o)[1]; }
      if k >= 3 { assert Successes(o)[2]; }
    } else {
      var m :| 0 <= m < k && !Successes(o)[m];
      assert Attempted(o) <= m + 1;
    }
  }

  /** The reload script runs exactly when template, file and render all succeed. */
  lemma ReloadRunsIffAllSucceed(routes: seq<Route>, cfg: Config, o: StepOutcomes)
    ensures RunReload(cfg.reloadScript) in PlannedTrace(routes, cfg, o)
        <==> o.templateLoads && o.fileCreated && o.renderSucceeds
  {
    var p := PlannedTrace(routes, cfg, o);
    if RunReload(cfg.reloadScript) in p {
      var i :| 0 <= i < |p| && p[i] == RunReload(cfg.reloadScript);
      assert i == 3;
    }
    if o.templateLoads && o.fileCreated && o.renderSucceeds {
      assert p[3] == RunReload(cfg.reloadScript);
    }
  }

  /**
   * Rendering, when it happens, sees exactly one binding, "routes", bound to
   * the whole route sequence as given; it never happens without a created file.
   */
  lemma RenderBindsOnlyRoutes(routes: seq<Route>, cfg: Config, o: StepOutcomes, a: Action)
    requires a in PlannedTrace(routes, cfg, o) && a.Render?
    ensures a.bindings.Keys == {RoutesBinding} && a.bindings[RoutesBinding] == routes
    ensures a.target == cfg.configFile
    ensures CreateFile(cfg.configFile) in PlannedTrace(routes, cfg, o)
  {
    var p := PlannedTrace(routes, cfg, o);
    var i :| 0 <= i < |p| && p[i] == a;
    assert i == 2;
    assert p[1] == CreateFile(cfg.configFile);
  }

  /**
   * A reload failure changes only the report: the same actions are taken
   * and the call returns normally either way.
   */
  lemma ReloadFailureOnlyReported(routes: seq<Route>, cfg: Config, o: StepOutcomes)
    ensures PlannedTrace(routes, cfg, o.(reloadSucceeds := false))
         == PlannedTrace(routes, cfg, o.(reloadSucceeds := true))
    ensures ReportOf(o.(reloadSucceeds := false)) == ReloadFailed
        <==> o.templateLoads && o.fileCreated && o.renderSucceeds
  {
  }
}
