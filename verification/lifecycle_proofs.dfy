/** Safety of the lifecycle protocol over every interleaving. */
module LifecycleProofs {
  import opened Wrappers
  import opened Config
  import opened Lifecycle

  // ---------- who owns the deleting marker ----------

  /** Delete t in flight found and marked object h. */
  ghost predicate Owns(s: Sys, t: nat, h: Handle) {
    t in s.inflight && s.inflight[t].found == Some(h)
  }

  ghost predicate Marked(s: Sys, h: Handle) {
    h in s.mem.objects && s.mem.objects[h].deleting
  }

  ghost predicate MarkersOwned(s: Sys)
    requires Sound(s)
  {
    && (forall t, h | Owns(s, t, h) :: Marked(s, h))
    && (forall t, u, h | Owns(s, t, h) && Owns(s, u, h) :: t == u)
    && (forall id | id in s.mem.entries && Object(s.mem, id).deleting :: exists t :: Owns(s, t, s.mem.entries[id]))
  }

  /** What create, update, restart, rebuild and a device update have in common: no delete moves, no
      object that exists changes its marker, only visible entries are replaced, and a new row or a new
      entry belongs to a visible id. */
  ghost predicate Quiet(s: Sys, r: Sys, created: set<string>)
    requires Sound(s) && Sound(r)
  {
    && r.inflight == s.inflight
    && (forall h | h in s.mem.objects :: h in r.mem.objects && r.mem.objects[h].deleting == s.mem.objects[h].deleting)
    && created !! s.mem.entries.Keys
    && r.mem.entries.Keys == s.mem.entries.Keys + created
    && (forall id | id in created :: Visible(r.mem, id) && id in r.mem.rows)
    && (forall id | id in s.mem.entries ::
          r.mem.entries[id] == s.mem.entries[id] || (Visible(s.mem, id) && Visible(r.mem, id)))
    && s.mem.rows.Keys <= r.mem.rows.Keys
    && (forall id | id in r.mem.rows && id !in s.mem.rows :: id in r.mem.entries && Visible(r.mem, id))
  }

  ghost predicate IsSection(step: Step) {
    !step.BeginStep? && !step.TeardownStep? && !step.EndStep? && !step.RebootStep?
  }

  ghost function CreatedIds(s: Sys, step: Step): set<string>
    requires Sound(s)
  {
    if step.CreateStep? && Create(s.mem, step.id, step.cfg, step.saveOk, step.initOk).1.Ok? then {step.id} else {}
  }

  lemma CreateIsQuiet(s: Sys, step: Step)
    requires Sound(s) && step.CreateStep?
    ensures Quiet(s, Apply(s, step), CreatedIds(s, step))
  {
  }

  lemma UpdateIsQuiet(s: Sys, step: Step)
    requires Sound(s) && step.UpdateStep?
    ensures Quiet(s, Apply(s, step), {})
  {
  }

  lemma RestartIsQuiet(s: Sys, step: Step)
    requires Sound(s) && step.RestartStep?
    ensures Quiet(s, Apply(s, step), {})
  {
    if Visible(s.mem, step.id) {
      var h, r := Handle(s.mem.next, step.id), Apply(s, step);
      assert h !in s.mem.objects;
      assert r.mem.entries == s.mem.entries[step.id := h] && r.mem.rows == s.mem.rows;
      assert !Object(r.mem, step.id).deleting;
      assert r.mem.objects ==
             s.mem.objects[s.mem.entries[step.id] := Closed(Object(s.mem, step.id))][h := r.mem.objects[h]];
    } else {
      assert Apply(s, step) == s;
    }
  }

  lemma ServiceIsQuiet(s: Sys, step: Step)
    requires Sound(s) && (step.RebuildStep? || step.DeviceStep?)
    ensures Quiet(s, Apply(s, step), {})
  {
  }

  lemma SectionIsQuiet(s: Sys, step: Step)
    requires Sound(s) && IsSection(step)
    ensures Quiet(s, Apply(s, step), CreatedIds(s, step))
  {
    match step {
      case CreateStep(_, _, _, _) => CreateIsQuiet(s, step);
      case UpdateStep(_, _, _) => UpdateIsQuiet(s, step);
      case RestartStep(_, _) => RestartIsQuiet(s, step);
      case _ => ServiceIsQuiet(s, step);
    }
  }

  lemma QuietKeepsMarkersOwned(s: Sys, r: Sys, created: set<string>)
    requires Sound(s) && Sound(r) && MarkersOwned(s) && Quiet(s, r, created)
    ensures MarkersOwned(r)
  {
    assert forall t, h :: Owns(r, t, h) <==> Owns(s, t, h);
    assert forall h | Marked(s, h) :: Marked(r, h);
    forall id | id in r.mem.entries && Object(r.mem, id).deleting
      ensures exists t :: Owns(r, t, r.mem.entries[id])
    {
      assert !Visible(r.mem, id);
      assert id in s.mem.entries && Object(s.mem, id).deleting;
      var t :| Owns(s, t, s.mem.entries[id]);
      assert Owns(r, t, r.mem.entries[id]);
    }
  }

  lemma StepKeepsMarkersOwned(s: Sys, step: Step)
    requires Sound(s) && MarkersOwned(s)
    ensures MarkersOwned(Apply(s, step))
  {
    match step {
      case BeginStep(t, id) => BeginKeepsMarkersOwned(s, t, id);
      case TeardownStep(t, storeOk) => TeardownKeepsMarkersOwned(s, t, storeOk);
      case EndStep(t) => EndKeepsMarkersOwned(s, t);
      case RebootStep(started) => RebootIsCoherent(s, started);
      case _ =>
        SectionIsQuiet(s, step);
        QuietKeepsMarkersOwned(s, Apply(s, step), CreatedIds(s, step));
    }
  }

  lemma BeginKeepsMarkersOwned(s: Sys, t: nat, id: string)
    requires Sound(s) && MarkersOwned(s)
    ensures MarkersOwned(Apply(s, BeginStep(t, id)))
  {
    var r := Apply(s, BeginStep(t, id));
    if r != s {
      assert forall u, h :: Owns(r, u, h) <==> Owns(s, u, h) || (u == t && r.inflight[t].found == Some(h));
      assert forall u, h | Owns(s, u, h) :: Marked(s, h);
      forall id' | id' in r.mem.entries && Object(r.mem, id').deleting
        ensures exists u :: Owns(r, u, r.mem.entries[id'])
      {
        if id' == id {
          assert Owns(r, t, r.mem.entries[id']);
        } else {
          var u :| Owns(s, u, s.mem.entries[id']);
          assert Owns(r, u, r.mem.entries[id']);
        }
      }
    }
  }

  lemma TeardownKeepsMarkersOwned(s: Sys, t: nat, storeOk: bool)
    requires Sound(s) && MarkersOwned(s)
    ensures MarkersOwned(Apply(s, TeardownStep(t, storeOk)))
  {
    var r := Apply(s, TeardownStep(t, storeOk));
    assert forall u, h :: Owns(r, u, h) <==> Owns(s, u, h);
    assert forall h :: Marked(r, h) <==> Marked(s, h);
    forall id | id in r.mem.entries && Object(r.mem, id).deleting
      ensures exists u :: Owns(r, u, r.mem.entries[id])
    {
      var u :| Owns(s, u, s.mem.entries[id]);
      assert Owns(r, u, r.mem.entries[id]);
    }
  }

  lemma EndKeepsMarkersOwned(s: Sys, t: nat)
    requires Sound(s) && MarkersOwned(s)
    ensures MarkersOwned(Apply(s, EndStep(t)))
  {
    var r := Apply(s, EndStep(t));
    if r != s {
      assert forall u, h :: Owns(r, u, h) <==> Owns(s, u, h) && u != t;
      forall u, h | Owns(r, u, h) ensures Marked(r, h) {
        assert Marked(s, h);
        assert s.inflight[t].found == Some(h) ==> Owns(s, t, h);
      }
      forall id | id in r.mem.entries && Object(r.mem, id).deleting
        ensures exists u :: Owns(r, u, r.mem.entries[id])
      {
        assert Marked(s, s.mem.entries[id]);
        var u :| Owns(s, u, s.mem.entries[id]);
        assert u != t;
        assert Owns(r, u, r.mem.entries[id]);
      }
    }
  }

  lemma {:induction false} RunKeepsMarkersOwned(s: Sys, steps: seq<Step>)
    requires Sound(s) && MarkersOwned(s)
    ensures MarkersOwned(Run(s, steps))
  {
    if steps != [] {
      var n := |steps| - 1;
      RunKeepsMarkersOwned(s, steps[..n]);
      StepKeepsMarkersOwned(Run(s, steps[..n]), steps[n]);
    }
  }

  /** In every interleaving, from any store: an entry marked deleting has exactly one delete in flight
      that owns it, an owner's object stays marked, and with nothing in flight every entry is visible. */
  lemma MarkerOwnership(d: InstanceConfig, rows: map<string, Row>, started: set<string>, steps: seq<Step>)
    ensures var s := Run(Boot(d, rows, started), steps);
            && (forall id | id in s.mem.entries && !Visible(s.mem, id) ::
                  exists t :: Owns(s, t, s.mem.entries[id]) && forall u | Owns(s, u, s.mem.entries[id]) :: u == t)
            && (forall t, h | Owns(s, t, h) :: Marked(s, h))
            && (s.inflight == map[] ==> forall id | id in s.mem.entries :: Visible(s.mem, id))
  {
    var s := Run(Boot(d, rows, started), steps);
    RunKeepsMarkersOwned(Boot(d, rows, started), steps);
    forall id | id in s.mem.entries && !Visible(s.mem, id)
      ensures exists t :: Owns(s, t, s.mem.entries[id]) && forall u | Owns(s, u, s.mem.entries[id]) :: u == t
    {
      var t :| Owns(s, t, s.mem.entries[id]);
    }
  }

  // ---------- map and table agree ----------

  /** Every row has an entry, and every visible entry a row. */
  ghost predicate Agreement(s: Sys)
    requires Sound(s)
  {
    && (forall id | id in s.mem.rows :: id in s.mem.entries)
    && (forall id | Visible(s.mem, id) :: id in s.mem.rows)
  }

  /** Delete t of this id began with no entry, and its store call has not failed. */
  ghost predicate Hazard(s: Sys, t: nat, id: string) {
    t in s.inflight && s.inflight[t].id == id && s.inflight[t].found.None? && s.inflight[t].phase != Done(Failed)
  }

  ghost predicate NoHazard(s: Sys, id: string) {
    forall t :: !Hazard(s, t, id)
  }

  /** A create commits only while no delete that began without an entry can still remove the row or the entry. */
  ghost predicate Guarded(s: Sys, step: Step)
    requires Sound(s)
  {
    step.CreateStep? && Create(s.mem, step.id, step.cfg, step.saveOk, step.initOk).1.Ok? ==> NoHazard(s, step.id)
  }

  ghost predicate GuardedRun(s: Sys, steps: seq<Step>)
    requires Sound(s)
  {
    forall n | 0 <= n < |steps| :: Guarded(Run(s, steps[..n]), steps[n])
  }

  /** Agreement with what makes it inductive: an owner's object is still the entry of its id, with the
      row there until the store call succeeds, and a hazard's id has no entry. */
  ghost predicate Coherent(s: Sys)
    requires Sound(s)
  {
    && MarkersOwned(s)
    && Agreement(s)
    && (forall t, h | Owns(s, t, h) :: OwnerInPlace(s, t, h))
    && (forall t, id | Hazard(s, t, id) :: id !in s.mem.entries)
  }

  ghost predicate OwnerInPlace(s: Sys, t: nat, h: Handle)
    requires Owns(s, t, h)
  {
    && h.id in s.mem.entries && s.mem.entries[h.id] == h
    && (h.id in s.mem.rows <==> s.inflight[t].phase != Done(Gone))
  }

  /** A restart of the process heals everything, stranded rows included. */
  lemma RebootIsCoherent(s: Sys, started: set<string>)
    requires Sound(s)
    ensures Coherent(Apply(s, RebootStep(started)))
  {
    RestoreMeaning(s.mem.defaults, s.mem.rows, s.mem.next, started);
    QuiescentIsCoherent(Apply(s, RebootStep(started)));
  }

  /** With no delete in flight, no marker and an entry for exactly the rows, there is nothing to break. */
  lemma QuiescentIsCoherent(s: Sys)
    requires Sound(s) && s.inflight == map[] && s.mem.entries.Keys == s.mem.rows.Keys
    requires forall id | id in s.mem.entries :: Visible(s.mem, id)
    ensures Coherent(s)
  {
  }

  lemma StepKeepsCoherent(s: Sys, step: Step)
    requires Sound(s) && Coherent(s) && Guarded(s, step)
    ensures Coherent(Apply(s, step))
  {
    StepKeepsMarkersOwned(s, step);
    var r := Apply(s, step);
    match step {
      case BeginStep(t, id) => BeginKeepsCoherent(s, t, id);
      case TeardownStep(t, storeOk) => TeardownKeepsCoherent(s, t, storeOk);
      case EndStep(t) => EndKeepsCoherent(s, t);
      case RebootStep(started) => RebootIsCoherent(s, started);
      case _ =>
        SectionIsQuiet(s, step);
        QuietKeepsCoherent(s, r, CreatedIds(s, step));
    }
  }

  lemma QuietKeepsCoherent(s: Sys, r: Sys, created: set<string>)
    requires Sound(s) && Sound(r) && Coherent(s) && Quiet(s, r, created) && MarkersOwned(r)
    requires forall id | id in created :: NoHazard(s, id)
    ensures Coherent(r)
  {
    forall t, h | Owns(r, t, h) ensures OwnerInPlace(r, t, h) {
      assert Owns(s, t, h) && OwnerInPlace(s, t, h) && Marked(s, h);
      assert !Visible(s.mem, h.id);
    }
    forall t, id | Hazard(r, t, id) ensures id !in r.mem.entries {
      assert Hazard(s, t, id);
    }
    forall id | Visible(r.mem, id) ensures id in r.mem.rows {
      assert id in s.mem.entries ==> Visible(s.mem, id);
    }
  }

  lemma BeginKeepsCoherent(s: Sys, t: nat, id: string)
    requires Sound(s) && Coherent(s)
    requires MarkersOwned(Apply(s, BeginStep(t, id)))
    ensures Coherent(Apply(s, BeginStep(t, id)))
  {
    var r := Apply(s, BeginStep(t, id));
    if r != s {
      forall u, h | Owns(r, u, h) ensures OwnerInPlace(r, u, h) {
        if u != t {
          assert Owns(s, u, h) && OwnerInPlace(s, u, h);
        } else {
          assert Visible(s.mem, id);
        }
      }
      forall u, id' | Hazard(r, u, id') ensures id' !in r.mem.entries {
        assert u != t ==> Hazard(s, u, id');
      }
      assert forall id' | Visible(r.mem, id') :: Visible(s.mem, id');
    }
  }

  lemma TeardownKeepsCoherent(s: Sys, t: nat, storeOk: bool)
    requires Sound(s) && Coherent(s)
    requires MarkersOwned(Apply(s, TeardownStep(t, storeOk)))
    ensures Coherent(Apply(s, TeardownStep(t, storeOk)))
  {
    var r := Apply(s, TeardownStep(t, storeOk));
    if r != s {
      var d := s.inflight[t];
      assert d.found.None? ==> Hazard(s, t, d.id);
      assert d.found.Some? ==> Owns(s, t, d.found.value) && OwnerInPlace(s, t, d.found.value);
      forall u, h | Owns(r, u, h) ensures OwnerInPlace(r, u, h) {
        assert Owns(s, u, h) && OwnerInPlace(s, u, h);
        if u != t {
          assert d.found != Some(h) by {
            assert d.found == Some(h) ==> Owns(s, t, h);
          }
          assert h.id != d.id;
        }
      }
      forall u, id | Hazard(r, u, id) ensures id !in r.mem.entries {
        assert Hazard(s, u, id);
      }
      forall id | Visible(r.mem, id) ensures id in r.mem.rows {
        assert Visible(s.mem, id);
        assert d.found.Some? ==> Marked(s, d.found.value);
      }
    }
  }

  lemma EndKeepsCoherent(s: Sys, t: nat)
    requires Sound(s) && Coherent(s)
    requires MarkersOwned(Apply(s, EndStep(t)))
    ensures Coherent(Apply(s, EndStep(t)))
  {
    var r := Apply(s, EndStep(t));
    if r != s {
      var d := s.inflight[t];
      assert d.found.None? && d.phase == Done(Gone) ==> Hazard(s, t, d.id);
      assert d.found.Some? ==> Owns(s, t, d.found.value) && OwnerInPlace(s, t, d.found.value);
      forall u, h | Owns(r, u, h) ensures OwnerInPlace(r, u, h) {
        assert Owns(s, u, h) && OwnerInPlace(s, u, h) && u != t;
        assert d.found != Some(h) by {
          assert d.found == Some(h) ==> Owns(s, t, h);
        }
        assert h.id == d.id ==> d.found.None?;
      }
      forall u, id | Hazard(r, u, id) ensures id !in r.mem.entries {
        assert Hazard(s, u, id);
      }
      forall id | Visible(r.mem, id) ensures id in r.mem.rows {
        assert Visible(s.mem, id) || Owns(s, t, s.mem.entries[id]);
      }
    }
  }

  lemma {:induction false} RunKeepsCoherent(s: Sys, steps: seq<Step>)
    requires Sound(s) && Coherent(s) && GuardedRun(s, steps)
    ensures Coherent(Run(s, steps))
  {
    if steps != [] {
      var n := |steps| - 1;
      forall k | 0 <= k < n ensures Guarded(Run(s, steps[..n][..k]), steps[..n][k]) {
        assert steps[..n][..k] == steps[..k];
        assert Guarded(Run(s, steps[..k]), steps[k]);
      }
      RunKeepsCoherent(s, steps[..n]);
      StepKeepsCoherent(Run(s, steps[..n]), steps[n]);
    }
  }

  /** In every interleaving whose creates are guarded, from any store, with any failures and any number
      of crashes: every row has an entry and every visible entry has a row. */
  lemma MapAgreesWithTable(d: InstanceConfig, rows: map<string, Row>, started: set<string>, steps: seq<Step>)
    requires GuardedRun(Boot(d, rows, started), steps)
    ensures Agreement(Run(Boot(d, rows, started), steps))
  {
    RunKeepsCoherent(Boot(d, rows, started), steps);
  }

  /** The guard is exact. From a coherent state, a create that commits keeps map and table in agreement
      in every guarded continuation if and only if no hazard of its id is in flight. */
  lemma CreateIsSafeIff(s: Sys, id: string, cfg: InstanceConfig, initOk: bool)
    requires Sound(s) && Coherent(s) && id !in s.mem.entries
    ensures var r := Apply(s, CreateStep(id, cfg, true, initOk));
            (forall steps | GuardedRun(r, steps) :: Agreement(Run(r, steps))) <==> NoHazard(s, id)
  {
    var create := CreateStep(id, cfg, true, initOk);
    var r := Apply(s, create);
    if NoHazard(s, id) {
      StepKeepsCoherent(s, create);
      forall steps | GuardedRun(r, steps) ensures Agreement(Run(r, steps)) {
        RunKeepsCoherent(r, steps);
      }
    } else {
      var t :| Hazard(s, t, id);
      var steps := HazardStrands(s, t, id, cfg, initOk);
      assert GuardedRun(r, steps) && !Agreement(Run(r, steps));
    }
  }

  /** One more step of a hazard breaks the agreement: its store call takes the new row from a visible
      entry, or, when that call came first, its last section drops the new entry from the row. */
  lemma {:induction false} HazardStrands(s: Sys, t: nat, id: string, cfg: InstanceConfig, initOk: bool)
      returns (steps: seq<Step>)
    requires Sound(s) && id !in s.mem.entries && Hazard(s, t, id)
    ensures |steps| == 1
    ensures var r := Apply(s, CreateStep(id, cfg, true, initOk));
            GuardedRun(r, steps) && !Agreement(Run(r, steps))
  {
    var r := Apply(s, CreateStep(id, cfg, true, initOk));
    assert Visible(r.mem, id) && id in r.mem.rows && Hazard(r, t, id);
    steps := [if s.inflight[t].phase.Pending? then TeardownStep(t, true) else EndStep(t)];
    assert steps[..0] == [];
    assert Run(r, steps) == Apply(Run(r, steps[..0]), steps[0]);
    var q := Apply(r, steps[0]);
    if s.inflight[t].phase.Pending? {
      assert Visible(q.mem, id) && id !in q.mem.rows;
    } else {
      assert id in q.mem.rows && id !in q.mem.entries;
    }
  }

  /** The stranded state is reachable: a delete of an unknown id gets its store answer, the id is
      created, the delete ends. */
  lemma StrandedRowIsReachable(d: InstanceConfig, cfg: InstanceConfig) returns (steps: seq<Step>)
    ensures var s := Run(Boot(d, map[], {}), steps);
            "a" in s.mem.rows && "a" !in s.mem.entries
  {
    steps := AbsentDeleteThenCreate(Boot(d, map[], {}), 0, "a", cfg);
  }

  lemma AbsentDeleteThenCreate(s: Sys, t: nat, id: string, cfg: InstanceConfig) returns (steps: seq<Step>)
    requires Sound(s) && id !in s.mem.entries && t !in s.inflight
    ensures id in Run(s, steps).mem.rows && id !in Run(s, steps).mem.entries
  {
    var before := [BeginStep(t, id), TeardownStep(t, true)];
    var create, end := CreateStep(id, cfg, true, true), EndStep(t);
    steps := before + [create, end];
    AbsentDeleteSteps(s, t, id);
    RunTwo(s, before[0], before[1]);
    RunConcat(s, before, [create, end]);
    var q := Run(s, before);
    RunTwo(q, create, end);
    CreateThenEnd(q, t, id, cfg);
  }

  lemma CreateThenEnd(s: Sys, t: nat, id: string, cfg: InstanceConfig)
    requires Sound(s) && id !in s.mem.entries && t in s.inflight && s.inflight[t] == Delete(id, None, Done(Gone))
    ensures var r := Apply(Apply(s, CreateStep(id, cfg, true, true)), EndStep(t));
            id in r.mem.rows && id !in r.mem.entries
  {
    var q := Apply(s, CreateStep(id, cfg, true, true));
    assert q.inflight == s.inflight && id in q.mem.rows;
  }

  lemma AbsentDeleteSteps(s: Sys, t: nat, id: string)
    requires Sound(s) && id !in s.mem.entries && t !in s.inflight
    ensures var r := Apply(Apply(s, BeginStep(t, id)), TeardownStep(t, true));
            && r.mem.entries == s.mem.entries
            && t in r.inflight && r.inflight[t] == Delete(id, None, Done(Gone))
  {
    var q := Apply(s, BeginStep(t, id));
    assert q.inflight[t] == Delete(id, None, Pending);
  }

  lemma RunTwo(s: Sys, a: Step, b: Step)
    requires Sound(s)
    ensures Run(s, [a, b]) == Apply(Apply(s, a), b)
  {
    assert [a, b][..1] == [a] && [a][..0] == [];
    assert Run(s, [a]) == Apply(Run(s, [a][..0]), a);
  }
}
