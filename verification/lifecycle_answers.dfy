/** What the callers of the lifecycle are told, and that the table holds exactly what has been acknowledged. */
module LifecycleAnswers {
  import opened Wrappers
  import opened Filters
  import opened Config
  import opened Lifecycle
  import opened LifecycleConfigs

  // ---------- the answers ----------

  function ErrorOf<T>(r: Result<T, Error>): Option<Error> {
    if r.Err? then Some(r.error) else None
  }

  /** The error the caller of a step gets, if any. */
  ghost function Answer(s: Sys, step: Step): Option<Error>
    requires Sound(s)
  {
    match step
    case CreateStep(id, cfg, saveOk, initOk) => ErrorOf(Create(s.mem, id, cfg, saveOk, initOk).1)
    case BeginStep(_, id) => ErrorOf(BeginDelete(s.mem, id).1)
    case UpdateStep(id, cfg, saveOk) => ErrorOf(Update(s.mem, id, cfg, saveOk).1)
    case RestartStep(id, initOk) => ErrorOf(Restart(s.mem, id, initOk).1)
    case _ => None
  }

  /** Which error it is, from what the caller can see and the answer of the store. */
  lemma AnswerIs(s: Sys, step: Step)
    requires Sound(s)
    ensures Answer(s, step) ==
            match step
            case CreateStep(id, _, saveOk, _) =>
              if Visible(s.mem, id) then Some(AlreadyExists)
              else if id in s.mem.entries then Some(BeingDeleted)
              else if saveOk then None
              else Some(StoreFailed)
            case BeginStep(_, id) => if id in s.mem.entries && !Visible(s.mem, id) then Some(BeingDeleted) else None
            case UpdateStep(id, _, saveOk) =>
              if !Visible(s.mem, id) then Some(NotFound) else if saveOk then None else Some(StoreFailed)
            case RestartStep(id, _) => if Visible(s.mem, id) then None else Some(NotFound)
            case _ => None
  {
  }

  /** A step that is refused changes nothing, except that an update whose save fails has changed the instance. */
  lemma RefusedChangesNothing(s: Sys, step: Step)
    requires Sound(s) && Answer(s, step).Some?
    ensures Apply(s, step).mem.rows == s.mem.rows
    ensures !(step.UpdateStep? && Answer(s, step) == Some(StoreFailed)) ==> Apply(s, step) == s
  {
    AnswerIs(s, step);
  }

  // ---------- what the table holds ----------

  /** A create or an update of the id that its caller was told has worked. */
  ghost predicate Acknowledged(s: Sys, step: Step, id: string)
    requires Sound(s)
  {
    (step.CreateStep? || step.UpdateStep?) && step.id == id && Answer(s, step) == None
  }

  /** Each column is the value asked for, or the default's when that is empty; the filters without system events. */
  ghost predicate HoldsAsked(r: Columns, d: InstanceConfig, c: InstanceConfig) {
    && r.apiKey == (if c.apiKey != "" then c.apiKey else d.apiKey)
    && r.webhookURL == (if c.webhookURL != "" then c.webhookURL else d.webhookURL)
    && r.signingSecret == (if c.signingSecret != "" then c.signingSecret else d.signingSecret)
    && r.eventFilters == Join(Stripped(if c.eventFilters != [] then c.eventFilters else d.eventFilters))
    && r.historySync == (if c.historySync != None then c.historySync else d.historySync)
    && r.publishEvents == (if c.publishEvents != None then c.publishEvents else d.publishEvents)
  }

  lemma AcknowledgedStores(s: Sys, step: Step, id: string)
    requires Sound(s) && Acknowledged(s, step, id)
    ensures var r := Apply(s, step);
            && Visible(r.mem, id) && id in r.mem.rows
            && HoldsAsked(r.mem.rows[id].columns, s.mem.defaults, step.cfg)
            && ToColumns(Object(r.mem, id).config) == r.mem.rows[id].columns
  {
  }

  lemma AcknowledgedAt(states: seq<Sys>, steps: seq<Step>, id: string, k: nat)
    requires IsTrace(states, steps) && k < |steps| && Acknowledged(states[k], steps[k], id)
    ensures id in states[k + 1].mem.rows
            && HoldsAsked(states[k + 1].mem.rows[id].columns, states[0].mem.defaults, steps[k].cfg)
  {
    DefaultsKept(states, steps, k);
    assert Follows(states, steps, k);
    AcknowledgedStores(states[k], steps[k], id);
  }

  lemma UnacknowledgedKeeps(s: Sys, step: Step, id: string)
    requires Sound(s) && !Acknowledged(s, step, id) && id in Apply(s, step).mem.rows
    ensures id in s.mem.rows && Apply(s, step).mem.rows[id].columns == s.mem.rows[id].columns
  {
  }

  /** From a state on, no create or update of the id was acknowledged. */
  ghost predicate NoneAcknowledged(states: seq<Sys>, steps: seq<Step>, id: string, since: nat, n: nat)
    requires IsTrace(states, steps) && n <= |steps|
  {
    forall k | since <= k < n :: !Acknowledged(states[k], steps[k], id)
  }

  /** Whatever runs meanwhile, failed updates and crashes included: without an acknowledged write the row's columns
      stay, and no row comes into being. */
  lemma {:induction false} ColumnsKept(states: seq<Sys>, steps: seq<Step>, id: string, since: nat, n: nat)
    requires IsTrace(states, steps) && since <= n <= |steps| && NoneAcknowledged(states, steps, id, since, n)
    requires id in states[n].mem.rows
    ensures id in states[since].mem.rows
    ensures states[n].mem.rows[id].columns == states[since].mem.rows[id].columns
    decreases n - since
  {
    if since < n {
      assert Follows(states, steps, n - 1);
      UnacknowledgedKeeps(states[n - 1], steps[n - 1], id);
      ColumnsKept(states, steps, id, since, n - 1);
    }
  }

  lemma RestartReadsRow(states: seq<Sys>, steps: seq<Step>, id: string, n: nat, restarted: set<string>)
    requires IsTrace(states, steps) && n <= |steps| && id in states[n].mem.rows
    ensures var r := Apply(states[n], RebootStep(restarted));
            Visible(r.mem, id)
            && Object(r.mem, id).config == Restored(states[0].mem.defaults, states[n].mem.rows[id].columns)
  {
    DefaultsKept(states, steps, n);
    RebootReadsRows(states[n], restarted, id);
  }

  /** The table holds what has been acknowledged, over any run: for as long as a row is there, its columns are those
      asked for by the last create or update of the id that was answered without an error, however many were
      refused or failed since; and a restart of the process gives the instance these columns read back. */
  lemma AcknowledgedIsStored(states: seq<Sys>, steps: seq<Step>, id: string, k: nat, n: nat, restarted: set<string>)
    requires IsTrace(states, steps) && k < n <= |steps| && Acknowledged(states[k], steps[k], id)
    requires NoneAcknowledged(states, steps, id, k + 1, n) && id in states[n].mem.rows
    ensures HoldsAsked(states[n].mem.rows[id].columns, states[0].mem.defaults, steps[k].cfg)
    ensures var r := Apply(states[n], RebootStep(restarted));
            Visible(r.mem, id)
            && Object(r.mem, id).config == Restored(states[0].mem.defaults, states[n].mem.rows[id].columns)
  {
    AcknowledgedAt(states, steps, id, k);
    ColumnsKept(states, steps, id, k + 1, n);
    RestartReadsRow(states, steps, id, n, restarted);
  }
}
