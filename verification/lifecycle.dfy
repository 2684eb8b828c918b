/** The instance lifecycle as a concurrent protocol.

    Every section of the manager that runs under its lock is one function on `Mem`: the map of
    entries, the instance objects and the store's rows. A delete is three such sections, so `Sys`
    adds the deletes in flight with what each has found and got back. A run is any interleaving
    of steps; every failure of the store or of a service start is a choice made by the step. */
module Lifecycle {
  import opened Wrappers
  import opened Config

  /** The identity of an instance object: no two builds of one id share a stamp. */
  datatype Handle = Handle(stamp: nat, id: string)

  /** `handler` is the configuration captured by the event handler of the current service, if there is one;
      the last two say whether the object's publisher and dedup set are open. */
  datatype Inst = Inst(
    config: InstanceConfig,
    deleting: bool,
    handler: Option<InstanceConfig>,
    publisherOpen: bool,
    dedupOpen: bool)

  /** The device columns of a row; the id is empty when the instance is logged out or was never paired. */
  datatype Device = Device(id: string, loggedInAt: Option<int>, loggedOutAt: Option<int>)

  const NO_DEVICE := Device("", None, None)

  datatype DeviceChange = LoggedIn(deviceID: string, at: int) | LoggedOut(at: int)

  datatype Row = Row(columns: Columns, device: Device)

  datatype Mem = Mem(
    defaults: InstanceConfig,
    entries: map<string, Handle>,
    objects: map<Handle, Inst>,
    rows: map<string, Row>,
    next: nat)

  datatype Error = AlreadyExists | BeingDeleted | NotFound | StoreFailed

  datatype Outcome = Gone | Failed

  ghost predicate WellFormed(m: Mem) {
    && (forall id | id in m.entries :: m.entries[id] in m.objects && m.entries[id].id == id)
    && (forall h | h in m.objects :: h.stamp < m.next)
  }

  // ---------- the locked sections ----------

  /** lookup: an entry whose delete is in progress is not found. */
  ghost predicate Visible(m: Mem, id: string)
    requires WellFormed(m)
  {
    id in m.entries && !m.objects[m.entries[id]].deleting
  }

  ghost function Object(m: Mem, id: string): Inst
    requires WellFormed(m) && id in m.entries
  {
    m.objects[m.entries[id]]
  }

  function Build(cfg: InstanceConfig, initOk: bool): Inst {
    Inst(cfg, false, if initOk then Some(cfg) else None, true, true)
  }

  /** Publisher and dedup set closed. */
  function Closed(o: Inst): Inst {
    o.(publisherOpen := false, dedupOpen := false)
  }

  /** SaveInstance: an upsert of the configuration columns. */
  function Saved(rows: map<string, Row>, id: string, cfg: InstanceConfig): map<string, Row> {
    rows[id := Row(ToColumns(cfg), if id in rows then rows[id].device else NO_DEVICE)]
  }

  ghost function Create(m: Mem, id: string, cfg: InstanceConfig, saveOk: bool, initOk: bool)
      : (Mem, Result<Handle, Error>)
    requires WellFormed(m)
  {
    if id in m.entries then (m, Err(if Object(m, id).deleting then BeingDeleted else AlreadyExists))
    else if !saveOk then (m, Err(StoreFailed))
    else
      var p, h := Prepared(m.defaults, cfg), Handle(m.next, id);
      (m.(entries := m.entries[id := h], objects := m.objects[h := Build(p, initOk)],
          rows := Saved(m.rows, id, p), next := m.next + 1), Ok(h))
  }

  ghost function BeginDelete(m: Mem, id: string): (Mem, Result<Option<Handle>, Error>)
    requires WellFormed(m)
  {
    if id !in m.entries then (m, Ok(None))
    else if Object(m, id).deleting then (m, Err(BeingDeleted))
    else
      var h := m.entries[id];
      (m.(objects := m.objects[h := m.objects[h].(deleting := true)]), Ok(Some(h)))
  }

  ghost function Teardown(m: Mem, id: string, found: Option<Handle>, storeOk: bool): (Mem, Outcome)
    requires found.Some? ==> found.value in m.objects
  {
    var objects := if found.None? then m.objects
                   else m.objects[found.value := Closed(m.objects[found.value])];
    if storeOk then (m.(objects := objects, rows := m.rows - {id}), Gone)
    else (m.(objects := objects), Failed)
  }

  ghost function EndDelete(m: Mem, id: string, found: Option<Handle>, outcome: Outcome): Mem
    requires found.Some? ==> found.value in m.objects
  {
    if outcome.Gone? then m.(entries := m.entries - {id})
    else if found.None? then m
    else m.(objects := m.objects[found.value := m.objects[found.value].(deleting := false)])
  }

  /** The three sections of a delete with nothing in between. */
  ghost function DeleteAlone(m: Mem, id: string, storeOk: bool): (Mem, Result<(), Error>)
    requires WellFormed(m)
  {
    var (m1, begun) := BeginDelete(m, id);
    if begun.Err? then (m1, Err(begun.error))
    else
      var (m2, outcome) := Teardown(m1, id, begun.value, storeOk);
      (EndDelete(m2, id, begun.value, outcome), if outcome.Failed? then Err(StoreFailed) else Ok(()))
  }

  ghost function Update(m: Mem, id: string, cfg: InstanceConfig, saveOk: bool): (Mem, Result<(), Error>)
    requires WellFormed(m)
  {
    if !Visible(m, id) then (m, Err(NotFound))
    else
      var p, h := Prepared(m.defaults, cfg), m.entries[id];
      var changed := m.(objects := m.objects[h := m.objects[h].(config := p, publisherOpen := true)]);
      if saveOk then (changed.(rows := Saved(m.rows, id, p)), Ok(())) else (changed, Err(StoreFailed))
  }

  ghost function Restart(m: Mem, id: string, initOk: bool): (Mem, Result<Handle, Error>)
    requires WellFormed(m)
  {
    if !Visible(m, id) then (m, Err(NotFound))
    else
      var h, closed := Handle(m.next, id), Closed(Object(m, id));
      (m.(entries := m.entries[id := h],
          objects := m.objects[m.entries[id] := closed][h := Build(closed.config, initOk)],
          next := m.next + 1), Ok(h))
  }

  /** rebuildInstanceService: a failed start keeps the old service. */
  ghost function Rebuild(m: Mem, id: string, initOk: bool): Mem
    requires WellFormed(m)
  {
    if !Visible(m, id) || !initOk then m
    else
      var h := m.entries[id];
      m.(objects := m.objects[h := m.objects[h].(handler := Some(m.objects[h].config))])
  }

  function Changed(d: Device, change: DeviceChange): Device {
    match change
    case LoggedIn(deviceID, at) => Device(deviceID, Some(at), None)
    case LoggedOut(at) => Device("", d.loggedInAt, Some(at))
  }

  /** UpdateDeviceState: an UPDATE, so it changes nothing when there is no row. */
  ghost function DeviceState(m: Mem, id: string, change: DeviceChange, storeOk: bool): Mem {
    if !storeOk || id !in m.rows then m
    else m.(rows := m.rows[id := m.rows[id].(device := Changed(m.rows[id].device, change))])
  }

  /** Instances built under one stamp, one per id. */
  ghost function Placed(d: InstanceConfig, rows: map<string, Row>, built: map<string, Inst>, stamp: nat): Mem {
    Mem(d,
        map id | id in built :: Handle(stamp, id),
        map id | id in built :: Handle(stamp, id) := built[id],
        rows,
        stamp + 1)
  }

  /** A new process on the same store: RestoreInstances on an empty manager. */
  ghost function Restore(d: InstanceConfig, rows: map<string, Row>, next: nat, initOk: set<string>): Mem {
    Placed(d, rows, map id | id in rows :: Build(Restored(d, rows[id].columns), id in initOk), next)
  }

  /** A restored manager has one unmarked entry per row, with the row's configuration. */
  lemma RestoreMeaning(d: InstanceConfig, rows: map<string, Row>, next: nat, initOk: set<string>)
    ensures var m := Restore(d, rows, next, initOk);
            && WellFormed(m) && m.entries.Keys == m.rows.Keys == rows.Keys
            && forall id | id in rows ::
                 && Object(m, id) == Build(Object(m, id).config, id in initOk)
                 && FilledIn(Object(m, id).config, FromColumns(rows[id].columns), d)
  {
  }

  // ---------- the system ----------

  datatype Phase = Pending | Done(outcome: Outcome)

  /** A delete in flight: its id, the object it found and marked, and how far it is. */
  datatype Delete = Delete(id: string, found: Option<Handle>, phase: Phase)

  datatype Sys = Sys(mem: Mem, inflight: map<nat, Delete>)

  datatype Step =
    | CreateStep(id: string, cfg: InstanceConfig, saveOk: bool, initOk: bool)
    | BeginStep(ticket: nat, id: string)
    | TeardownStep(ticket: nat, storeOk: bool)
    | EndStep(ticket: nat)
    | UpdateStep(id: string, cfg: InstanceConfig, saveOk: bool)
    | RestartStep(id: string, initOk: bool)
    | RebuildStep(id: string, initOk: bool)
    | DeviceStep(id: string, change: DeviceChange, storeOk: bool)
    | RebootStep(started: set<string>)

  ghost predicate Sound(s: Sys) {
    && WellFormed(s.mem)
    && forall t | t in s.inflight && s.inflight[t].found.Some? ::
      s.inflight[t].found.value in s.mem.objects && s.inflight[t].found.value.id == s.inflight[t].id
  }

  /** One step. A delete step whose ticket is in the wrong place changes nothing. */
  ghost function Apply(s: Sys, step: Step): (r: Sys)
    requires Sound(s)
    ensures Sound(r)
    ensures r.mem.defaults == s.mem.defaults
    ensures s.mem.next <= r.mem.next
  {
    match step
    case CreateStep(id, cfg, saveOk, initOk) => s.(mem := Create(s.mem, id, cfg, saveOk, initOk).0)
    case BeginStep(t, id) =>
      var (m, r) := BeginDelete(s.mem, id);
      if t in s.inflight || r.Err? then s else Sys(m, s.inflight[t := Delete(id, r.value, Pending)])
    case TeardownStep(t, storeOk) =>
      if t !in s.inflight || s.inflight[t].phase.Done? then s
      else
        var d := s.inflight[t];
        var (m, outcome) := Teardown(s.mem, d.id, d.found, storeOk);
        Sys(m, s.inflight[t := d.(phase := Done(outcome))])
    case EndStep(t) =>
      if t !in s.inflight || s.inflight[t].phase.Pending? then s
      else
        var d := s.inflight[t];
        Sys(EndDelete(s.mem, d.id, d.found, d.phase.outcome), s.inflight - {t})
    case UpdateStep(id, cfg, saveOk) => s.(mem := Update(s.mem, id, cfg, saveOk).0)
    case RestartStep(id, initOk) => s.(mem := Restart(s.mem, id, initOk).0)
    case RebuildStep(id, initOk) => s.(mem := Rebuild(s.mem, id, initOk))
    case DeviceStep(id, change, storeOk) => s.(mem := DeviceState(s.mem, id, change, storeOk))
    case RebootStep(started) => Sys(Restore(s.mem.defaults, s.mem.rows, s.mem.next, started), map[])
  }

  ghost function Run(s: Sys, steps: seq<Step>): (r: Sys)
    requires Sound(s)
    ensures Sound(r) && r.mem.defaults == s.mem.defaults
  {
    if steps == [] then s else Apply(Run(s, steps[..|steps| - 1]), steps[|steps| - 1])
  }

  /** The first process on a store with these rows. */
  ghost function Boot(d: InstanceConfig, rows: map<string, Row>, started: set<string>): (s: Sys)
    ensures Sound(s)
  {
    Sys(Restore(d, rows, 0, started), map[])
  }

  lemma {:induction false} RunConcat(s: Sys, a: seq<Step>, b: seq<Step>)
    requires Sound(s)
    ensures Run(s, a + b) == Run(Run(s, a), b)
  {
    if b == [] {
      assert a + b == a;
    } else {
      var n := |b| - 1;
      RunConcat(s, a, b[..n]);
      assert (a + b)[..|a + b| - 1] == a + b[..n];
    }
  }

  // ---------- runs with their states ----------

  /** A run with all its states. */
  ghost predicate IsTrace(states: seq<Sys>, steps: seq<Step>) {
    && |states| == |steps| + 1
    && (forall n | 0 <= n < |states| :: Sound(states[n]))
    && forall n: nat | n < |steps| :: Follows(states, steps, n)
  }

  ghost predicate Follows(states: seq<Sys>, steps: seq<Step>, n: nat)
    requires n < |steps| && n + 1 < |states| && Sound(states[n])
  {
    states[n + 1] == Apply(states[n], steps[n])
  }

  lemma {:induction false} TraceOf(s: Sys, steps: seq<Step>) returns (states: seq<Sys>)
    requires Sound(s)
    ensures IsTrace(states, steps) && states[0] == s && states[|steps|] == Run(s, steps)
  {
    if steps == [] {
      states := [s];
    } else {
      var n := |steps| - 1;
      var before := TraceOf(s, steps[..n]);
      TraceExtended(before, steps[..n], steps[n]);
      states := before + [Run(s, steps)];
      assert steps == steps[..n] + [steps[n]];
    }
  }

  lemma TraceExtended(states: seq<Sys>, steps: seq<Step>, step: Step)
    requires IsTrace(states, steps)
    ensures IsTrace(states + [Apply(states[|steps|], step)], steps + [step])
  {
    var longer := states + [Apply(states[|steps|], step)];
    forall n: nat | n < |steps| + 1 ensures Follows(longer, steps + [step], n) {
      assert n < |steps| ==> Follows(states, steps, n);
    }
  }

  /** This step is an update that finds the instance, and so changes its configuration and its publisher. */
  ghost predicate Updates(s: Sys, step: Step, id: string)
    requires Sound(s)
  {
    step.UpdateStep? && step.id == id && Visible(s.mem, id)
  }
}
