/** Which configuration an instance has, its handler works with and a restart of the process brings back. */
module LifecycleConfigs {
  import opened Wrappers
  import opened Config
  import opened Lifecycle
  import opened LifecycleProofs

  // ---------- an acknowledged configuration survives a restart ----------

  /** A restart now would give each entry with a row the configuration it has. */
  ghost predicate Durable(s: Sys)
    requires Sound(s)
  {
    forall id | id in s.mem.entries && id in s.mem.rows ::
      Object(s.mem, id).config == Restored(s.mem.defaults, s.mem.rows[id].columns)
  }

  /** Every configuration written has a filter list that survives, and no update loses its store call. */
  ghost predicate Survives(d: InstanceConfig, step: Step) {
    && (step.CreateStep? ==> SurvivesRestart(d, Prepared(d, step.cfg).eventFilters))
    && (step.UpdateStep? ==> step.saveOk && SurvivesRestart(d, Prepared(d, step.cfg).eventFilters))
  }

  lemma StepKeepsDurable(s: Sys, step: Step)
    requires Sound(s) && Durable(s) && Survives(s.mem.defaults, step)
    ensures Durable(Apply(s, step))
  {
    match step {
      case CreateStep(_, _, _, _) => CreateKeepsDurable(s, step);
      case UpdateStep(_, _, _) => UpdateKeepsDurable(s, step);
      case RestartStep(_, _) => RestartKeepsDurable(s, step);
      case RebootStep(_) =>
      case BeginStep(_, _) => DeleteKeepsDurable(s, step);
      case TeardownStep(_, _) => DeleteKeepsDurable(s, step);
      case EndStep(_) => DeleteKeepsDurable(s, step);
      case _ => ServiceKeepsDurable(s, step);
    }
  }

  lemma CreateKeepsDurable(s: Sys, step: Step)
    requires Sound(s) && Durable(s) && step.CreateStep? && Survives(s.mem.defaults, step)
    ensures Durable(Apply(s, step))
  {
    RestartKeepsConfigIff(s.mem.defaults, step.cfg);
  }

  lemma UpdateKeepsDurable(s: Sys, step: Step)
    requires Sound(s) && Durable(s) && step.UpdateStep? && Survives(s.mem.defaults, step)
    ensures Durable(Apply(s, step))
  {
    RestartKeepsConfigIff(s.mem.defaults, step.cfg);
  }

  lemma RestartKeepsDurable(s: Sys, step: Step)
    requires Sound(s) && Durable(s) && step.RestartStep?
    ensures Durable(Apply(s, step))
  {
  }

  lemma ServiceKeepsDurable(s: Sys, step: Step)
    requires Sound(s) && Durable(s) && (step.RebuildStep? || step.DeviceStep?)
    ensures Durable(Apply(s, step))
  {
  }

  lemma DeleteKeepsDurable(s: Sys, step: Step)
    requires Sound(s) && Durable(s) && (step.BeginStep? || step.TeardownStep? || step.EndStep?)
    ensures Durable(Apply(s, step))
  {
    var r := Apply(s, step);
    DeleteKeepsConfigs(s, step);
    forall id | id in r.mem.entries && id in r.mem.rows
      ensures Object(r.mem, id).config == Restored(r.mem.defaults, r.mem.rows[id].columns)
    {
      assert Object(s.mem, id).config == Restored(s.mem.defaults, s.mem.rows[id].columns);
    }
  }

  lemma DeleteKeepsConfigs(s: Sys, step: Step)
    requires Sound(s) && (step.BeginStep? || step.TeardownStep? || step.EndStep?)
    ensures var r := Apply(s, step);
            && (forall id | id in r.mem.entries ::
                  id in s.mem.entries && Object(r.mem, id).config == Object(s.mem, id).config)
            && (forall id | id in r.mem.rows :: id in s.mem.rows && r.mem.rows[id] == s.mem.rows[id])
  {
  }

  lemma {:induction false} RunKeepsDurable(s: Sys, steps: seq<Step>)
    requires Sound(s) && Durable(s)
    requires forall n | 0 <= n < |steps| :: Survives(s.mem.defaults, steps[n])
    ensures Durable(Run(s, steps))
  {
    if steps != [] {
      var n := |steps| - 1;
      RunKeepsDurable(s, steps[..n]);
      StepKeepsDurable(Run(s, steps[..n]), steps[n]);
    }
  }

  /** Whatever ran before, with any interleaved deletes and earlier restarts: a crash and a restart give
      every entry that has a row the same configuration again, and it is visible. */
  lemma RestartKeepsConfigs(d: InstanceConfig, rows: map<string, Row>, steps: seq<Step>,
                            started: set<string>, restarted: set<string>, id: string)
    requires forall n | 0 <= n < |steps| :: Survives(d, steps[n])
    ensures var s := Run(Boot(d, rows, started), steps);
            var r := Apply(s, RebootStep(restarted));
            id in s.mem.entries && id in s.mem.rows ==>
              Visible(r.mem, id) && Object(r.mem, id).config == Object(s.mem, id).config
  {
    RunKeepsDurable(Boot(d, rows, started), steps);
    var s := Run(Boot(d, rows, started), steps);
    if id in s.mem.rows {
      RebootReadsRows(s, restarted, id);
    }
  }

  lemma RebootReadsRows(s: Sys, restarted: set<string>, id: string)
    requires Sound(s) && id in s.mem.rows
    ensures var r := Apply(s, RebootStep(restarted));
            Visible(r.mem, id) && Object(r.mem, id).config == Restored(s.mem.defaults, s.mem.rows[id].columns)
  {
  }

  // ---------- which configuration, over a run ----------

  /** What the last of the first n steps that updated the instance asked for; before any, what it had at the
      start. */
  ghost function LastAsked(states: seq<Sys>, steps: seq<Step>, id: string, n: nat): InstanceConfig
    requires IsTrace(states, steps) && n <= |steps| && id in states[0].mem.entries
  {
    if n == 0 then Object(states[0].mem, id).config
    else if Updates(states[n - 1], steps[n - 1], id) then Prepared(states[n - 1].mem.defaults, steps[n - 1].cfg)
    else LastAsked(states, steps, id, n - 1)
  }

  /** What the last of them whose store call worked has written; before any, what was stored at the start. */
  ghost function LastStored(states: seq<Sys>, steps: seq<Step>, id: string, n: nat): Columns
    requires IsTrace(states, steps) && n <= |steps| && id in states[0].mem.rows
  {
    if n == 0 then states[0].mem.rows[id].columns
    else if Updates(states[n - 1], steps[n - 1], id) && steps[n - 1].saveOk then
      ToColumns(Prepared(states[n - 1].mem.defaults, steps[n - 1].cfg))
    else LastStored(states, steps, id, n - 1)
  }

  /** Entry and row are there all along, in one process. */
  ghost predicate Stays(states: seq<Sys>, steps: seq<Step>, id: string)
    requires IsTrace(states, steps)
  {
    && (forall n | 0 <= n < |states| :: id in states[n].mem.entries && id in states[n].mem.rows)
    && (forall n | 0 <= n < |steps| :: !steps[n].RebootStep?)
  }

  lemma StepConfig(s: Sys, step: Step, id: string)
    requires Sound(s) && id in s.mem.entries && id in Apply(s, step).mem.entries && !step.RebootStep?
    ensures Object(Apply(s, step).mem, id).config ==
            if Updates(s, step, id) then Prepared(s.mem.defaults, step.cfg) else Object(s.mem, id).config
  {
  }

  lemma StepColumns(s: Sys, step: Step, id: string)
    requires Sound(s) && id in s.mem.entries && id in s.mem.rows && id in Apply(s, step).mem.rows
    ensures Apply(s, step).mem.rows[id].columns ==
            if Updates(s, step, id) && step.saveOk then ToColumns(Prepared(s.mem.defaults, step.cfg))
            else s.mem.rows[id].columns
  {
  }

  lemma {:induction false} ConfigOverRun(states: seq<Sys>, steps: seq<Step>, id: string, n: nat)
    requires IsTrace(states, steps) && Stays(states, steps, id) && n <= |steps|
    ensures Object(states[n].mem, id).config == LastAsked(states, steps, id, n)
  {
    if n > 0 {
      ConfigOverRun(states, steps, id, n - 1);
      assert Follows(states, steps, n - 1);
      StepConfig(states[n - 1], steps[n - 1], id);
    }
  }

  lemma {:induction false} RowOverRun(states: seq<Sys>, steps: seq<Step>, id: string, n: nat)
    requires IsTrace(states, steps) && Stays(states, steps, id) && n <= |steps|
    ensures states[n].mem.rows[id].columns == LastStored(states, steps, id, n)
  {
    if n > 0 {
      RowOverRun(states, steps, id, n - 1);
      assert Follows(states, steps, n - 1);
      StepColumns(states[n - 1], steps[n - 1], id);
    }
  }

  lemma {:induction false} DefaultsKept(states: seq<Sys>, steps: seq<Step>, n: nat)
    requires IsTrace(states, steps) && n <= |steps|
    ensures states[n].mem.defaults == states[0].mem.defaults
  {
    if n > 0 {
      DefaultsKept(states, steps, n - 1);
      assert Follows(states, steps, n - 1);
    }
  }

  /** An update changes the instance even when its store call fails and it reports an error. So over any run
      of steps, on this instance and others, a restart of the process gives back what the last saved update has
      stored, read under the defaults; it is the configuration in use exactly when the last update of all asked
      for just that. */
  lemma RestartBringsBackIff(states: seq<Sys>, steps: seq<Step>, id: string, restarted: set<string>)
    requires IsTrace(states, steps) && Stays(states, steps, id)
    ensures var s := states[|steps|];
            var r := Apply(s, RebootStep(restarted));
            var back := Restored(states[0].mem.defaults, LastStored(states, steps, id, |steps|));
            && Visible(r.mem, id) && Object(r.mem, id).config == back
            && (Object(r.mem, id).config == Object(s.mem, id).config <==> back == LastAsked(states, steps, id, |steps|))
  {
    ConfigOverRun(states, steps, id, |steps|);
    RowOverRun(states, steps, id, |steps|);
    DefaultsKept(states, steps, |steps|);
    RebootReadsRows(states[|steps|], restarted, id);
  }

  /** When the last update of all was saved, that is exactly when its filter list survives storage. */
  lemma SavedUpdateComesBackIff(states: seq<Sys>, steps: seq<Step>, id: string, k: nat, restarted: set<string>)
    requires IsTrace(states, steps) && Stays(states, steps, id)
    requires k < |steps| && Updates(states[k], steps[k], id) && steps[k].saveOk
    requires forall n | k < n < |steps| :: !Updates(states[n], steps[n], id)
    ensures var s := states[|steps|];
            var r := Apply(s, RebootStep(restarted));
            Visible(r.mem, id)
            && (Object(r.mem, id).config == Object(s.mem, id).config
                <==> SurvivesRestart(s.mem.defaults, Object(s.mem, id).config.eventFilters))
  {
    LastUpdate(states, steps, id, k, |steps|);
    DefaultsKept(states, steps, k);
    DefaultsKept(states, steps, |steps|);
    ConfigOverRun(states, steps, id, |steps|);
    RestartBringsBackIff(states, steps, id, restarted);
    RestartKeepsConfigIff(states[0].mem.defaults, steps[k].cfg);
  }

  lemma {:induction false} LastUpdate(states: seq<Sys>, steps: seq<Step>, id: string, k: nat, n: nat)
    requires IsTrace(states, steps) && Stays(states, steps, id)
    requires k < n <= |steps| && Updates(states[k], steps[k], id) && steps[k].saveOk
    requires forall m | k < m < |steps| :: !Updates(states[m], steps[m], id)
    ensures LastAsked(states, steps, id, n) == Prepared(states[k].mem.defaults, steps[k].cfg)
    ensures LastStored(states, steps, id, n) == ToColumns(Prepared(states[k].mem.defaults, steps[k].cfg))
  {
    if k + 1 < n {
      LastUpdate(states, steps, id, k, n - 1);
    }
  }

  function WithKey(key: string): InstanceConfig {
    InstanceConfig(key, "", "", [], None, None)
  }

  /** A create and an update whose save fails: the new key is in use until a restart brings back the old one. */
  lemma FailedUpdateIsLost(d: InstanceConfig)
    ensures var steps := [CreateStep("a", WithKey("old"), true, true), UpdateStep("a", WithKey("new"), false)];
            var s := Run(Boot(d, map[], {}), steps);
            var r := Apply(s, RebootStep({"a"}));
            && Visible(s.mem, "a") && Object(s.mem, "a").config.apiKey == "new"
            && Visible(r.mem, "a") && Object(r.mem, "a").config.apiKey == "old"
  {
    var s0 := Boot(d, map[], {});
    var create, update := CreateStep("a", WithKey("old"), true, true), UpdateStep("a", WithKey("new"), false);
    RunTwo(s0, create, update);
    Created(s0, "a", "old");
    Updated(Apply(s0, create), "a", "new", false);
    RebootReadsRows(Apply(Apply(s0, create), update), {"a"}, "a");
  }

  lemma Created(s: Sys, id: string, key: string)
    requires Sound(s) && id !in s.mem.entries && key != ""
    ensures var r := Apply(s, CreateStep(id, WithKey(key), true, true));
            && Visible(r.mem, id) && Object(r.mem, id).config.apiKey == key
            && Object(r.mem, id).handler == Some(Object(r.mem, id).config)
            && id in r.mem.rows && r.mem.rows[id].columns.apiKey == key
  {
  }

  lemma Updated(s: Sys, id: string, key: string, saveOk: bool)
    requires Sound(s) && Visible(s.mem, id) && key != ""
    ensures var r := Apply(s, UpdateStep(id, WithKey(key), saveOk));
            && Visible(r.mem, id) && Object(r.mem, id).config.apiKey == key
            && Object(r.mem, id).handler == Object(s.mem, id).handler
            && (!saveOk ==> r.mem.rows == s.mem.rows)
  {
  }

  // ---------- the event handler's configuration ----------

  /** The handler of the entry, if it has one, works with the entry's configuration. */
  ghost predicate HandlerCurrent(s: Sys, id: string)
    requires Sound(s)
  {
    id in s.mem.entries && Object(s.mem, id).handler.Some? ==>
      Object(s.mem, id).handler.value == Object(s.mem, id).config
  }

  /** This step gives the instance a service, if it can be started; its handler captures the configuration of
      that moment. */
  ghost predicate StartsService(s: Sys, step: Step, id: string)
    requires Sound(s)
  {
    match step
    case CreateStep(i, _, saveOk, _) => i == id && id !in s.mem.entries && saveOk
    case RestartStep(i, _) => i == id && Visible(s.mem, id)
    case RebuildStep(i, initOk) => i == id && Visible(s.mem, id) && initOk
    case RebootStep(_) => true
    case _ => false
  }

  predicate CanStart(step: Step, id: string) {
    match step
    case CreateStep(_, _, _, initOk) => initOk
    case RestartStep(_, initOk) => initOk
    case RebuildStep(_, initOk) => initOk
    case RebootStep(started) => id in started
    case _ => false
  }

  /** The instance then has a handler exactly when the service could be started, and the handler is current. */
  lemma StartedIsCurrent(s: Sys, step: Step, id: string)
    requires Sound(s) && StartsService(s, step, id)
    ensures HandlerCurrent(Apply(s, step), id)
    ensures id in Apply(s, step).mem.entries ==> (Object(Apply(s, step).mem, id).handler.Some? <==> CanStart(step, id))
  {
    if step.RebootStep? {
      RestoreMeaning(s.mem.defaults, s.mem.rows, s.mem.next, step.started);
    }
  }

  /** Any other step leaves the handler alone; only an update of the instance changes its configuration. */
  lemma StepKeepsHandler(s: Sys, step: Step, id: string)
    requires Sound(s) && !StartsService(s, step, id) && id in Apply(s, step).mem.entries
    ensures id in s.mem.entries && Object(Apply(s, step).mem, id).handler == Object(s.mem, id).handler
    ensures Object(Apply(s, step).mem, id).config ==
            if Updates(s, step, id) then Prepared(s.mem.defaults, step.cfg) else Object(s.mem, id).config
  {
    StepKeepsEntry(s, step, id);
    StepConfig(s, step, id);
  }

  lemma StepKeepsEntry(s: Sys, step: Step, id: string)
    requires Sound(s) && !StartsService(s, step, id) && id in Apply(s, step).mem.entries
    ensures id in s.mem.entries && Object(Apply(s, step).mem, id).handler == Object(s.mem, id).handler
  {
  }

  /** Over every run, whatever happens to other instances: with no update of its own, an instance's handler
      stays current. */
  lemma {:induction false} HandlerStaysCurrent(states: seq<Sys>, steps: seq<Step>, id: string, n: nat)
    requires IsTrace(states, steps) && n <= |steps| && HandlerCurrent(states[0], id)
    requires forall k | 0 <= k < |steps| :: !Updates(states[k], steps[k], id)
    ensures HandlerCurrent(states[n], id)
  {
    if n > 0 {
      HandlerStaysCurrent(states, steps, id, n - 1);
      assert Follows(states, steps, n - 1);
      if StartsService(states[n - 1], steps[n - 1], id) {
        StartedIsCurrent(states[n - 1], steps[n - 1], id);
      } else if id in states[n].mem.entries {
        StepKeepsHandler(states[n - 1], steps[n - 1], id);
      }
    }
  }

  lemma {:induction false} HandlerOverRun(states: seq<Sys>, steps: seq<Step>, id: string, n: nat)
    requires IsTrace(states, steps) && n <= |steps| && id in states[n].mem.entries
    requires forall k | 0 <= k < n :: !StartsService(states[k], steps[k], id)
    ensures id in states[0].mem.entries && Object(states[n].mem, id).handler == Object(states[0].mem, id).handler
    ensures Object(states[n].mem, id).config == LastAsked(states, steps, id, n)
  {
    if n > 0 {
      assert Follows(states, steps, n - 1);
      StepKeepsHandler(states[n - 1], steps[n - 1], id);
      HandlerOverRun(states, steps, id, n - 1);
    }
  }

  /** An update does not reach a running handler. Over any run after its service was started, the handler is
      current exactly when the last update asked for the configuration the service was started with. */
  lemma HandlerCurrentIff(states: seq<Sys>, steps: seq<Step>, id: string)
    requires IsTrace(states, steps) && id in states[0].mem.entries && id in states[|steps|].mem.entries
    requires Object(states[0].mem, id).handler == Some(Object(states[0].mem, id).config)
    requires forall k | 0 <= k < |steps| :: !StartsService(states[k], steps[k], id)
    ensures HandlerCurrent(states[|steps|], id)
            <==> LastAsked(states, steps, id, |steps|) == Object(states[0].mem, id).config
  {
    HandlerOverRun(states, steps, id, |steps|);
  }

  /** A create and an update that works: the running handler still has the old configuration. */
  lemma UpdateLeavesHandlerStale(d: InstanceConfig)
    ensures var steps := [CreateStep("a", WithKey("old"), true, true), UpdateStep("a", WithKey("new"), true)];
            var s := Run(Boot(d, map[], {}), steps);
            && Visible(s.mem, "a") && !HandlerCurrent(s, "a")
            && Object(s.mem, "a").handler.Some? && Object(s.mem, "a").handler.value.apiKey == "old"
  {
    var s0 := Boot(d, map[], {});
    var create, update := CreateStep("a", WithKey("old"), true, true), UpdateStep("a", WithKey("new"), true);
    RunTwo(s0, create, update);
    Created(s0, "a", "old");
    Updated(Apply(s0, create), "a", "new", true);
  }
}
