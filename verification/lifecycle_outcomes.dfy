/** What callers of the lifecycle can rely on: deletes converge, ids do not disturb each other,
    an acknowledged configuration survives a restart, and where the code falls short of that. */
module LifecycleOutcomes {
  import opened Lifecycle
  import opened LifecycleProofs

  // ---------- ids are independent ----------

  ghost predicate Touches(s: Sys, step: Step, id: string) {
    match step
    case TeardownStep(t, _) => t in s.inflight && s.inflight[t].id == id
    case EndStep(t) => t in s.inflight && s.inflight[t].id == id
    case RebootStep(_) => true
    case _ => step.id == id
  }

  /** Everything about one id is the same: its entry, its objects, its row and its deletes in flight. */
  ghost predicate SameFor(s: Sys, r: Sys, id: string) {
    && (id in s.mem.entries <==> id in r.mem.entries)
    && (id in s.mem.entries ==> r.mem.entries[id] == s.mem.entries[id])
    && (forall h: Handle | h.id == id :: h in s.mem.objects <==> h in r.mem.objects)
    && (forall h: Handle | h.id == id && h in s.mem.objects :: r.mem.objects[h] == s.mem.objects[h])
    && (id in s.mem.rows <==> id in r.mem.rows)
    && (id in s.mem.rows ==> r.mem.rows[id] == s.mem.rows[id])
    && (forall t | t in s.inflight && s.inflight[t].id == id :: t in r.inflight && r.inflight[t] == s.inflight[t])
    && (forall t | t in r.inflight && r.inflight[t].id == id :: t in s.inflight && s.inflight[t].id == id)
  }

  /** A step about one id changes nothing about another. */
  lemma OtherIdsUntouched(s: Sys, step: Step, id: string)
    requires Sound(s) && !Touches(s, step, id)
    ensures SameFor(s, Apply(s, step), id)
  {
    match step {
      case CreateStep(_, _, _, _) => CreateIsLocal(s, step, id);
      case UpdateStep(_, _, _) => UpdateIsLocal(s, step, id);
      case RestartStep(_, _) => RestartIsLocal(s, step, id);
      case RebuildStep(_, _) => ServiceIsLocal(s, step, id);
      case DeviceStep(_, _, _) => ServiceIsLocal(s, step, id);
      case BeginStep(_, _) => BeginIsLocal(s, step, id);
      case TeardownStep(_, _) => TeardownIsLocal(s, step, id);
      case EndStep(_) => EndIsLocal(s, step, id);
    }
  }

  lemma CreateIsLocal(s: Sys, step: Step, id: string)
    requires Sound(s) && step.CreateStep? && step.id != id
    ensures SameFor(s, Apply(s, step), id)
  {
  }

  lemma UpdateIsLocal(s: Sys, step: Step, id: string)
    requires Sound(s) && step.UpdateStep? && step.id != id
    ensures SameFor(s, Apply(s, step), id)
  {
  }

  lemma RestartIsLocal(s: Sys, step: Step, id: string)
    requires Sound(s) && step.RestartStep? && step.id != id
    ensures SameFor(s, Apply(s, step), id)
  {
  }

  lemma ServiceIsLocal(s: Sys, step: Step, id: string)
    requires Sound(s) && (step.RebuildStep? || step.DeviceStep?) && step.id != id
    ensures SameFor(s, Apply(s, step), id)
  {
  }

  lemma BeginIsLocal(s: Sys, step: Step, id: string)
    requires Sound(s) && step.BeginStep? && step.id != id
    ensures SameFor(s, Apply(s, step), id)
  {
    if step.ticket in s.inflight {
      assert Apply(s, step) == s;
    }
  }

  lemma TeardownIsLocal(s: Sys, step: Step, id: string)
    requires Sound(s) && step.TeardownStep? && !Touches(s, step, id)
    ensures SameFor(s, Apply(s, step), id)
  {
  }

  lemma EndIsLocal(s: Sys, step: Step, id: string)
    requires Sound(s) && step.EndStep? && !Touches(s, step, id)
    ensures SameFor(s, Apply(s, step), id)
  {
  }

  /** No step of the run is about this id. */
  ghost predicate Avoids(s: Sys, steps: seq<Step>, id: string)
    requires Sound(s)
  {
    forall n | 0 <= n < |steps| :: !Touches(Run(s, steps[..n]), steps[n], id)
  }

  lemma {:induction false} AvoidingRunKeeps(s: Sys, steps: seq<Step>, id: string)
    requires Sound(s) && Avoids(s, steps, id)
    ensures SameFor(s, Run(s, steps), id)
  {
    if steps != [] {
      var n := |steps| - 1;
      forall k | 0 <= k < n ensures !Touches(Run(s, steps[..n][..k]), steps[..n][k], id) {
        assert steps[..n][..k] == steps[..k];
      }
      AvoidingRunKeeps(s, steps[..n], id);
      OtherIdsUntouched(Run(s, steps[..n]), steps[n], id);
    }
  }

  // ---------- deletes converge ----------

  ghost predicate Idle(s: Sys, id: string) {
    forall t | t in s.inflight :: s.inflight[t].id != id
  }

  /** From every state with no delete of the id in flight (after failed deletes, with a row and no entry, or
      with neither) a delete whose store call works leaves neither row nor entry, whatever runs on other
      ids between its three sections. */
  lemma DeleteConverges(s: Sys, id: string, t: nat, a: seq<Step>, b: seq<Step>)
    requires Sound(s) && MarkersOwned(s) && Idle(s, id) && t !in s.inflight
    requires Avoids(Apply(s, BeginStep(t, id)), a, id)
    requires Avoids(Apply(Run(Apply(s, BeginStep(t, id)), a), TeardownStep(t, true)), b, id)
    ensures var s1 := Apply(s, BeginStep(t, id));
            var s2 := Apply(Run(s1, a), TeardownStep(t, true));
            var s3 := Apply(Run(s2, b), EndStep(t));
            t in s1.inflight && id !in s3.mem.rows && id !in s3.mem.entries && Idle(s3, id)
  {
    var s1 := Apply(s, BeginStep(t, id));
    BeginAccepted(s, id, t);
    AvoidingRunKeeps(s1, a, id);
    var q1 := Run(s1, a);
    assert forall u | u in q1.inflight && q1.inflight[u].id == id :: u == t;
    var s2 := Apply(q1, TeardownStep(t, true));
    assert id !in s2.mem.rows && s2.inflight[t].phase == Done(Gone);
    AvoidingRunKeeps(s2, b, id);
  }

  lemma BeginAccepted(s: Sys, id: string, t: nat)
    requires Sound(s) && MarkersOwned(s) && Idle(s, id) && t !in s.inflight
    ensures var r := Apply(s, BeginStep(t, id));
            t in r.inflight && r.inflight[t].id == id && r.inflight[t].phase == Pending
    ensures forall u | u in Apply(s, BeginStep(t, id)).inflight && u != t :: u in s.inflight
              && Apply(s, BeginStep(t, id)).inflight[u] == s.inflight[u]
  {
  }

  /** Run on its own, that delete leaves every other id as it was. */
  lemma DeleteLeavesOthers(s: Sys, id: string, t: nat, other: string)
    requires Sound(s) && MarkersOwned(s) && Idle(s, id) && t !in s.inflight && other != id
    ensures SameFor(s, Apply(Apply(Apply(s, BeginStep(t, id)), TeardownStep(t, true)), EndStep(t)), other)
  {
    BeginAccepted(s, id, t);
    var s1 := Apply(s, BeginStep(t, id));
    OtherIdsUntouched(s, BeginStep(t, id), other);
    OtherIdsUntouched(s1, TeardownStep(t, true), other);
    OtherIdsUntouched(Apply(s1, TeardownStep(t, true)), EndStep(t), other);
  }
}
