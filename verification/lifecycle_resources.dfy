/** The publisher and the dedup set of each instance over whole runs: what closes them and what opens them again. */
module LifecycleResources {
  import opened Wrappers
  import opened Config
  import opened Lifecycle
  import opened LifecycleProofs
  import opened LifecycleOutcomes

  // ---------- the history of an object ----------

  /** This step is the middle section of a delete that has found h, with this answer of the store. */
  ghost predicate TearsDown(s: Sys, step: Step, h: Handle, storeOk: bool) {
    && step.TeardownStep? && step.storeOk == storeOk && step.ticket in s.inflight
    && s.inflight[step.ticket].phase.Pending? && s.inflight[step.ticket].found == Some(h)
  }

  lemma {:induction false} TraceKeepsMarkersOwned(states: seq<Sys>, steps: seq<Step>, n: nat)
    requires IsTrace(states, steps) && MarkersOwned(states[0]) && n < |states|
    ensures MarkersOwned(states[n])
  {
    if n > 0 {
      TraceKeepsMarkersOwned(states, steps, n - 1);
      MarkersOwnedNext(states, steps, n - 1);
    }
  }

  lemma MarkersOwnedNext(states: seq<Sys>, steps: seq<Step>, n: nat)
    requires IsTrace(states, steps) && n < |steps| && MarkersOwned(states[n])
    ensures MarkersOwned(states[n + 1])
  {
    assert Follows(states, steps, n);
    StepKeepsMarkersOwned(states[n], steps[n]);
  }

  /** In the first `end` steps a delete has torn h down. */
  ghost predicate TornDown(states: seq<Sys>, steps: seq<Step>, end: nat, h: Handle, storeOk: bool)
    requires IsTrace(states, steps) && end <= |steps|
  {
    exists n: nat :: n < end && TearsDown(states[n], steps[n], h, storeOk)
  }

  /** Step n has torn h down, and no update after it has found its instance. */
  ghost predicate LastTornDown(states: seq<Sys>, steps: seq<Step>, end: nat, h: Handle, n: nat)
    requires IsTrace(states, steps) && n < end <= |steps|
  {
    && TearsDownAny(states[n], steps[n], h)
    && forall m | n < m < end :: !Updates(states[m], steps[m], h.id)
  }

  /** A delete has torn h down, and no update has found its instance since. */
  ghost predicate Unrenewed(states: seq<Sys>, steps: seq<Step>, end: nat, h: Handle)
    requires IsTrace(states, steps) && end <= |steps|
  {
    exists n: nat :: n < end && LastTornDown(states, steps, end, h, n)
  }

  lemma UnrenewedNext(states: seq<Sys>, steps: seq<Step>, end: nat, h: Handle)
    requires IsTrace(states, steps) && end < |steps|
    ensures Unrenewed(states, steps, end + 1, h) <==>
            TearsDownAny(states[end], steps[end], h)
            || (Unrenewed(states, steps, end, h) && !Updates(states[end], steps[end], h.id))
  {
    if TearsDownAny(states[end], steps[end], h) {
      assert LastTornDown(states, steps, end + 1, h, end);
    } else if Unrenewed(states, steps, end, h) && !Updates(states[end], steps[end], h.id) {
      var n: nat :| n < end && LastTornDown(states, steps, end, h, n);
      assert LastTornDown(states, steps, end + 1, h, n);
    }
    if Unrenewed(states, steps, end + 1, h) {
      var n: nat :| n < end + 1 && LastTornDown(states, steps, end + 1, h, n);
      assert n < end ==> LastTornDown(states, steps, end, h, n);
    }
  }

  ghost predicate TearsDownAny(s: Sys, step: Step, h: Handle) {
    TearsDown(s, step, h, true) || TearsDown(s, step, h, false)
  }

  // ---------- one step ----------

  /** What a step does to the resources of an entry: those of an object that stays change only by a teardown
      or an update; an object that is new starts with both open. */
  ghost predicate Accounts(s: Sys, step: Step, r: Sys, id: string)
    requires Sound(s) && Sound(r) && id in r.mem.entries
  {
    var h := r.mem.entries[id];
    if id in s.mem.entries && s.mem.entries[id] == h then
      && (!Object(r.mem, id).dedupOpen <==> !Object(s.mem, id).dedupOpen || TearsDownAny(s, step, h))
      && (!Object(r.mem, id).publisherOpen <==>
            TearsDownAny(s, step, h) || (!Object(s.mem, id).publisherOpen && !Updates(s, step, id)))
    else
      h !in s.mem.objects && Object(r.mem, id).dedupOpen && Object(r.mem, id).publisherOpen
  }

  lemma StepAccounts(s: Sys, step: Step, id: string)
    requires Sound(s) && id in Apply(s, step).mem.entries
    ensures Accounts(s, step, Apply(s, step), id)
  {
    match step {
      case CreateStep(_, _, _, _) => BuildAccounts(s, step, id);
      case RestartStep(_, _) => BuildAccounts(s, step, id);
      case RebootStep(_) => RebootAccounts(s, step, id);
      case TeardownStep(t, _) => TeardownAccounts(s, step, id);
      case EndStep(t) => EndAccounts(s, step, id);
      case UpdateStep(_, _, _) => UpdateAccounts(s, step, id);
      case _ =>
    }
  }

  lemma BuildAccounts(s: Sys, step: Step, id: string)
    requires Sound(s) && (step.CreateStep? || step.RestartStep?) && id in Apply(s, step).mem.entries
    ensures Accounts(s, step, Apply(s, step), id)
  {
  }

  lemma RebootAccounts(s: Sys, step: Step, id: string)
    requires Sound(s) && step.RebootStep? && id in Apply(s, step).mem.entries
    ensures Accounts(s, step, Apply(s, step), id)
  {
    RestoreMeaning(s.mem.defaults, s.mem.rows, s.mem.next, step.started);
    assert Apply(s, step).mem.entries[id].stamp == s.mem.next;
  }

  lemma TeardownAccounts(s: Sys, step: Step, id: string)
    requires Sound(s) && step.TeardownStep? && id in Apply(s, step).mem.entries
    ensures Accounts(s, step, Apply(s, step), id)
  {
  }

  lemma EndAccounts(s: Sys, step: Step, id: string)
    requires Sound(s) && step.EndStep? && id in Apply(s, step).mem.entries
    ensures Accounts(s, step, Apply(s, step), id)
  {
  }

  lemma UpdateAccounts(s: Sys, step: Step, id: string)
    requires Sound(s) && step.UpdateStep? && id in Apply(s, step).mem.entries
    ensures Accounts(s, step, Apply(s, step), id)
  {
  }

  /** A delete in flight that found h has deleted the row. */
  ghost predicate RowTaken(s: Sys, h: Handle) {
    exists t :: Owns(s, t, h) && s.inflight[t].phase == Done(Gone)
  }

  /** Such a delete stays in flight for as long as h is an entry. */
  lemma StepKeepsRowTaken(s: Sys, step: Step, id: string)
    requires Sound(s) && id in Apply(s, step).mem.entries && id in s.mem.entries
    requires Apply(s, step).mem.entries[id] == s.mem.entries[id]
    requires var h := s.mem.entries[id]; RowTaken(s, h) || TearsDown(s, step, h, true)
    ensures RowTaken(Apply(s, step), s.mem.entries[id])
  {
    var h, r := s.mem.entries[id], Apply(s, step);
    if TearsDown(s, step, h, true) {
      assert Owns(r, step.ticket, h) && r.inflight[step.ticket].phase == Done(Gone);
    } else {
      var t :| Owns(s, t, h) && s.inflight[t].phase == Done(Gone);
      RebootIsFresh(s, step, id);
      StepKeepsDone(s, step, t, h);
      assert Owns(r, t, h) && r.inflight[t].phase == Done(Gone);
    }
  }

  lemma RebootIsFresh(s: Sys, step: Step, id: string)
    requires Sound(s) && id in s.mem.entries && id in Apply(s, step).mem.entries
    ensures step.RebootStep? ==> Apply(s, step).mem.entries[id] != s.mem.entries[id]
  {
  }

  lemma StepKeepsDone(s: Sys, step: Step, t: nat, h: Handle)
    requires Sound(s) && Owns(s, t, h) && s.inflight[t].phase == Done(Gone) && !step.RebootStep?
    requires h.id in Apply(s, step).mem.entries
    ensures t in Apply(s, step).inflight && Apply(s, step).inflight[t] == s.inflight[t]
  {
  }

  // ---------- over runs ----------

  /** An entry's resources, from whether a delete has torn its object down and deleted the row, has torn it
      down and failed, and whether it has torn it down with no update since. */
  ghost predicate Explains(s: Sys, id: string, gone: bool, failed: bool, unrenewed: bool)
    requires Sound(s) && id in s.mem.entries
  {
    && (!Object(s.mem, id).dedupOpen <==> gone || failed)
    && (!Object(s.mem, id).publisherOpen <==> unrenewed)
    && (gone ==> RowTaken(s, s.mem.entries[id]))
  }

  lemma ExplainsNext(s: Sys, step: Step, id: string, gone: bool, failed: bool, unrenewed: bool)
    requires Sound(s) && id in Apply(s, step).mem.entries
    requires id in s.mem.entries && Apply(s, step).mem.entries[id] == s.mem.entries[id]
             && Explains(s, id, gone, failed, unrenewed)
    ensures var h := s.mem.entries[id];
            Explains(Apply(s, step), id, gone || TearsDown(s, step, h, true), failed || TearsDown(s, step, h, false),
                     TearsDownAny(s, step, h) || (unrenewed && !Updates(s, step, id)))
  {
    var h := s.mem.entries[id];
    StepAccounts(s, step, id);
    if gone || TearsDown(s, step, h, true) {
      StepKeepsRowTaken(s, step, id);
    }
  }

  lemma ExplainsNew(s: Sys, step: Step, id: string)
    requires Sound(s) && id in Apply(s, step).mem.entries
    requires id in s.mem.entries ==> Apply(s, step).mem.entries[id] != s.mem.entries[id]
    ensures Apply(s, step).mem.entries[id].stamp >= s.mem.next && Explains(Apply(s, step), id, false, false, false)
  {
    StepAccounts(s, step, id);
  }

  ghost predicate Recorded(states: seq<Sys>, steps: seq<Step>, end: nat, id: string)
    requires IsTrace(states, steps) && end <= |steps| && id in states[end].mem.entries
  {
    var h := states[end].mem.entries[id];
    Explains(states[end], id, TornDown(states, steps, end, h, true), TornDown(states, steps, end, h, false),
             Unrenewed(states, steps, end, h))
  }

  lemma {:induction false} TraceRecorded(states: seq<Sys>, steps: seq<Step>, end: nat, id: string)
    requires IsTrace(states, steps) && end <= |steps| && id in states[end].mem.entries
    requires forall i | i in states[0].mem.entries :: Explains(states[0], i, false, false, false)
    ensures Recorded(states, steps, end, id)
  {
    if end > 0 {
      var s := states[end - 1];
      if id in s.mem.entries && s.mem.entries[id] == states[end].mem.entries[id] {
        TraceRecorded(states, steps, end - 1, id);
        RecordedKept(states, steps, end - 1, id);
      } else {
        RecordedNew(states, steps, end - 1, id);
      }
    }
  }

  lemma RecordedKept(states: seq<Sys>, steps: seq<Step>, end: nat, id: string)
    requires IsTrace(states, steps) && end < |steps| && id in states[end].mem.entries
             && id in states[end + 1].mem.entries
    requires states[end + 1].mem.entries[id] == states[end].mem.entries[id] && Recorded(states, steps, end, id)
    ensures Recorded(states, steps, end + 1, id)
  {
    var h := states[end].mem.entries[id];
    TraceExplains(states, steps, end, id, TornDown(states, steps, end, h, true), TornDown(states, steps, end, h, false),
                  Unrenewed(states, steps, end, h));
    TornDownNext(states, steps, end, h, true);
    TornDownNext(states, steps, end, h, false);
    UnrenewedNext(states, steps, end, h);
  }

  lemma TraceExplains(states: seq<Sys>, steps: seq<Step>, n: nat, id: string, gone: bool, failed: bool, unrenewed: bool)
    requires IsTrace(states, steps) && n < |steps| && id in states[n].mem.entries && id in states[n + 1].mem.entries
    requires states[n + 1].mem.entries[id] == states[n].mem.entries[id]
             && Explains(states[n], id, gone, failed, unrenewed)
    ensures var h := states[n].mem.entries[id];
            Explains(states[n + 1], id, gone || TearsDown(states[n], steps[n], h, true),
                     failed || TearsDown(states[n], steps[n], h, false),
                     TearsDownAny(states[n], steps[n], h) || (unrenewed && !Updates(states[n], steps[n], id)))
  {
    assert Follows(states, steps, n);
    ExplainsNext(states[n], steps[n], id, gone, failed, unrenewed);
  }

  lemma RecordedNew(states: seq<Sys>, steps: seq<Step>, end: nat, id: string)
    requires IsTrace(states, steps) && end < |steps| && id in states[end + 1].mem.entries
    requires id in states[end].mem.entries ==> states[end + 1].mem.entries[id] != states[end].mem.entries[id]
    ensures Recorded(states, steps, end + 1, id)
  {
    var h := states[end + 1].mem.entries[id];
    assert Follows(states, steps, end);
    ExplainsNew(states[end], steps[end], id);
    NewIsNotTornDown(states, steps, end, h);
    TornDownNext(states, steps, end, h, true);
    TornDownNext(states, steps, end, h, false);
    UnrenewedNext(states, steps, end, h);
  }

  lemma TornDownNext(states: seq<Sys>, steps: seq<Step>, end: nat, h: Handle, ok: bool)
    requires IsTrace(states, steps) && end < |steps|
    ensures TornDown(states, steps, end + 1, h, ok) <==>
            TornDown(states, steps, end, h, ok) || TearsDown(states[end], steps[end], h, ok)
  {
  }

  lemma {:induction false} StampsGrow(states: seq<Sys>, steps: seq<Step>, n: nat, end: nat)
    requires IsTrace(states, steps) && n <= end <= |steps|
    ensures states[n].mem.next <= states[end].mem.next
  {
    if n < end {
      StampsGrow(states, steps, n, end - 1);
      assert Follows(states, steps, end - 1);
    }
  }

  lemma TornDownExists(s: Sys, step: Step, h: Handle)
    requires Sound(s)
    ensures TearsDownAny(s, step, h) ==> h.stamp < s.mem.next
  {
    assert TearsDownAny(s, step, h) ==> h in s.mem.objects;
  }

  lemma NewIsNotTornDown(states: seq<Sys>, steps: seq<Step>, end: nat, h: Handle)
    requires IsTrace(states, steps) && end <= |steps| && h.stamp >= states[end].mem.next
    ensures !TornDown(states, steps, end, h, true) && !TornDown(states, steps, end, h, false)
    ensures !Unrenewed(states, steps, end, h)
    ensures end < |steps| ==> !TearsDownAny(states[end], steps[end], h)
  {
    forall n: nat | n < |steps| && n <= end ensures !TearsDownAny(states[n], steps[n], h) {
      StampsGrow(states, steps, n, end);
      TornDownExists(states[n], steps[n], h);
    }
  }

  /** In every run from every store, for every visible instance: its dedup set is closed exactly when a delete
      whose store call failed has torn this object down, and its publisher exactly when no update has
      found the instance since the last such delete. */
  lemma ClosedIff(d: InstanceConfig, rows: map<string, Row>, started: set<string>,
                  states: seq<Sys>, steps: seq<Step>, id: string)
    requires IsTrace(states, steps) && states[0] == Boot(d, rows, started)
    ensures var end := |steps|;
            var s := states[end];
            Visible(s.mem, id) ==>
              && (!Object(s.mem, id).dedupOpen <==> TornDown(states, steps, end, s.mem.entries[id], false))
              && (!Object(s.mem, id).publisherOpen <==> Unrenewed(states, steps, end, s.mem.entries[id]))
              && !TornDown(states, steps, end, s.mem.entries[id], true)
              && (Object(s.mem, id).dedupOpen ==> Object(s.mem, id).publisherOpen)
  {
    var end := |steps|;
    var s := states[end];
    BootIsOpen(d, rows, started);
    TraceKeepsMarkersOwned(states, steps, end);
    if Visible(s.mem, id) {
      var h := s.mem.entries[id];
      TraceRecorded(states, steps, end, id);
      assert !RowTaken(s, h) by {
        assert forall t | Owns(s, t, h) :: Marked(s, h);
      }
    }
  }

  lemma BootIsOpen(d: InstanceConfig, rows: map<string, Row>, started: set<string>)
    ensures var s := Boot(d, rows, started);
            MarkersOwned(s) && forall id | id in s.mem.entries :: Explains(s, id, false, false, false)
  {
    RestoreMeaning(d, rows, 0, started);
  }

  /** So while the deletes of an instance's own id find the store working, it has both open when visible. */
  lemma OpenWhileDeletesWork(d: InstanceConfig, rows: map<string, Row>, started: set<string>,
                             states: seq<Sys>, steps: seq<Step>, id: string)
    requires IsTrace(states, steps) && states[0] == Boot(d, rows, started)
    requires forall n | 0 <= n < |steps| && Touches(states[n], steps[n], id) && steps[n].TeardownStep? ::
               steps[n].storeOk
    ensures var s := states[|steps|];
            Visible(s.mem, id) ==> Object(s.mem, id).dedupOpen && Object(s.mem, id).publisherOpen
  {
    ClosedIff(d, rows, started, states, steps, id);
    var s := states[|steps|];
    if Visible(s.mem, id) {
      var h := s.mem.entries[id];
      forall n: nat | n < |steps| ensures !TearsDown(states[n], steps[n], h, false) {
        TearsDownTouches(states[n], steps[n], h);
      }
    }
  }

  lemma TearsDownTouches(s: Sys, step: Step, h: Handle)
    requires Sound(s)
    ensures TearsDownAny(s, step, h) ==> Touches(s, step, h.id)
  {
  }

  /** A delete whose store call fails, whatever runs on other ids between its sections, leaves the instance
      visible, with its entry, row and configuration, and both resources closed. An update then opens the
      publisher only; a restart of the instance opens both. */
  lemma FailedDeleteCloses(s: Sys, id: string, t: nat, a: seq<Step>, b: seq<Step>)
    requires Sound(s) && Visible(s.mem, id) && t !in s.inflight
    requires Avoids(Apply(s, BeginStep(t, id)), a, id)
    requires Avoids(Apply(Run(Apply(s, BeginStep(t, id)), a), TeardownStep(t, false)), b, id)
    ensures var s2 := Apply(Run(Apply(s, BeginStep(t, id)), a), TeardownStep(t, false));
            var r := Apply(Run(s2, b), EndStep(t));
            && Visible(r.mem, id) && r.mem.entries[id] == s.mem.entries[id]
            && Object(r.mem, id) == Closed(Object(s.mem, id))
            && (id in r.mem.rows <==> id in s.mem.rows) && (id in s.mem.rows ==> r.mem.rows[id] == s.mem.rows[id])
            && (forall cfg, saveOk ::
                  var q := Apply(r, UpdateStep(id, cfg, saveOk));
                  Visible(q.mem, id) && Object(q.mem, id).publisherOpen && !Object(q.mem, id).dedupOpen)
            && (forall initOk ::
                  var q := Apply(r, RestartStep(id, initOk));
                  Visible(q.mem, id) && Object(q.mem, id).publisherOpen && Object(q.mem, id).dedupOpen)
  {
    var h := s.mem.entries[id];
    var s1 := Apply(s, BeginStep(t, id));
    AvoidingRunKeeps(s1, a, id);
    var q1 := Run(s1, a);
    assert q1.inflight[t] == Delete(id, Some(h), Pending);
    var s2 := Apply(q1, TeardownStep(t, false));
    assert s2.inflight[t] == Delete(id, Some(h), Done(Failed));
    AvoidingRunKeeps(s2, b, id);
    var q2 := Run(s2, b);
    EndsFailed(q2, id, t, h);
    var r := Apply(q2, EndStep(t));
    assert Object(s2.mem, id) == Closed(Object(s.mem, id)).(deleting := true);
    assert Object(q2.mem, id) == Object(s2.mem, id);
    forall cfg, saveOk
      ensures var q := Apply(r, UpdateStep(id, cfg, saveOk));
              Visible(q.mem, id) && Object(q.mem, id).publisherOpen && !Object(q.mem, id).dedupOpen
    {
      UpdateOpensPublisher(r, id, cfg, saveOk);
    }
    forall initOk
      ensures var q := Apply(r, RestartStep(id, initOk));
              Visible(q.mem, id) && Object(q.mem, id).publisherOpen && Object(q.mem, id).dedupOpen
    {
      RestartOpensBoth(r, id, initOk);
    }
  }

  lemma EndsFailed(s: Sys, id: string, t: nat, h: Handle)
    requires Sound(s) && t in s.inflight && s.inflight[t] == Delete(id, Some(h), Done(Failed))
    requires id in s.mem.entries && s.mem.entries[id] == h
    ensures var r := Apply(s, EndStep(t));
            && r.mem.entries == s.mem.entries && r.mem.rows == s.mem.rows
            && Visible(r.mem, id) && Object(r.mem, id) == Object(s.mem, id).(deleting := false)
  {
  }

  lemma UpdateOpensPublisher(s: Sys, id: string, cfg: InstanceConfig, saveOk: bool)
    requires Sound(s) && Visible(s.mem, id)
    ensures var r := Apply(s, UpdateStep(id, cfg, saveOk));
            && Visible(r.mem, id) && Object(r.mem, id).publisherOpen
            && Object(r.mem, id).dedupOpen == Object(s.mem, id).dedupOpen
  {
  }

  /** A restart of the instance closes the old object's resources and makes a new object with both open. */
  lemma RestartOpensBoth(s: Sys, id: string, initOk: bool)
    requires Sound(s) && Visible(s.mem, id)
    ensures var r, was := Apply(s, RestartStep(id, initOk)), s.mem.entries[id];
            && Visible(r.mem, id) && r.mem.entries[id] !in s.mem.objects
            && Object(r.mem, id).publisherOpen && Object(r.mem, id).dedupOpen
            && Object(r.mem, id).config == Object(s.mem, id).config
            && was in r.mem.objects && !r.mem.objects[was].publisherOpen && !r.mem.objects[was].dedupOpen
  {
  }
}
