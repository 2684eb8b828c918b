/** The instance manager with its objects: each method is one section under the manager's lock (or, for
    TeardownAndDelete, the unlocked middle of a delete) and is proved to be the protocol's function. */
module InstanceManager {
  import opened Wrappers
  import opened Filters
  import opened Config
  import opened Lifecycle

  /** What an operation does to the outside, in order. StartService names the device the new client is given. */
  datatype Effect =
    | Logout
    | DeleteDevice
    | PublishLoggedOut(reason: string)
    | ClosePublisher
    | CloseDedup
    | CreatePublisher
    | Disconnect
    | StartService(deviceJID: string)

  /** What a logged-in service answers when the delete asks it to log out. */
  datatype Session = NotLoggedIn | LogoutWorks | LogoutFails

  /** What tearing down an instance does, by whether it has a service and what the session answers. */
  function TeardownEffects(hasService: bool, session: Session): seq<Effect> {
    (if !hasService then []
     else match session
       case NotLoggedIn => [DeleteDevice]
       case LogoutWorks => [Logout, PublishLoggedOut("instance_deleted")]
       case LogoutFails => [Logout, DeleteDevice, PublishLoggedOut("instance_deleted")])
    + [ClosePublisher, CloseDedup]
  }

  /** The logged_out event goes out only for a session that was logged in, after the logout, right before the
      publisher and then the dedup set are closed. */
  lemma TeardownAnnounces(hasService: bool, session: Session)
    ensures var effects := TeardownEffects(hasService, session);
            var loggedIn := hasService && !session.NotLoggedIn?;
            var n := |effects|;
            && (Logout in effects <==> loggedIn)
            && (DeleteDevice in effects <==> hasService && !session.LogoutWorks?)
            && n == 2 + (if !hasService then 0 else match session case NotLoggedIn => 1 case LogoutWorks => 2
                                                               case LogoutFails => 3)
            && effects[n - 2..] == [ClosePublisher, CloseDedup]
            && (loggedIn ==> n >= 3 && effects[0] == Logout && effects[n - 3] == PublishLoggedOut("instance_deleted"))
            && (forall i | 0 <= i < n && effects[i].PublishLoggedOut? :: loggedIn && i == n - 3)
  {
  }

  class Instance {
    ghost const stamp: nat
    const id: string
    var config: InstanceConfig
    var service: Option<InstanceConfig>
    var deleting: bool
    var publisherOpen: bool
    var dedupOpen: bool

    ghost function Key(): Handle {
      Handle(stamp, id)
    }

    ghost function Value(): Inst
      reads this
    {
      Inst(config, deleting, service, publisherOpen, dedupOpen)
    }

    /** buildInstance, with initService succeeding or not. */
    constructor (ghost stamp: nat, id: string, cfg: InstanceConfig, initOk: bool)
      ensures Key() == Handle(stamp, id) && this.id == id
      ensures Value() == Build(cfg, initOk)
    {
      this.stamp, this.id, config := stamp, id, cfg;
      service := if initOk then Some(cfg) else None;
      deleting, publisherOpen, dedupOpen := false, true, true;
    }
  }

  /** The wsapi_instances table. `works` is the answer of the database. */
  class InstanceStore {
    var rows: map<string, Row>

    method SaveInstance(id: string, cfg: InstanceConfig, works: bool) returns (ok: bool)
      modifies this
      ensures ok == works
      ensures rows == if works then Saved(old(rows), id, cfg) else old(rows)
    {
      ok := works;
      if works {
        var device := if id in rows then rows[id].device else NO_DEVICE;
        rows := rows[id := Row(ToColumns(cfg), device)];
      }
    }

    /** Err(NotFound) means the row was already gone. */
    method DeleteInstance(id: string, works: bool) returns (r: Result<(), Error>)
      modifies this
      ensures rows == if works then old(rows) - {id} else old(rows)
      ensures r == if !works then Err(StoreFailed) else if id in old(rows) then Ok(()) else Err(NotFound)
    {
      if !works {
        return Err(StoreFailed);
      }
      r := if id in rows then Ok(()) else Err(NotFound);
      rows := rows - {id};
    }

    method UpdateDeviceState(id: string, deviceID: string, loggedIn: bool, now: int, works: bool) returns (ok: bool)
      modifies this
      ensures ok == works
      ensures rows.Keys == old(rows.Keys)
      ensures forall k | k in rows :: rows[k] ==
                if works && k == id then
                  Row(old(rows)[k].columns,
                      if loggedIn then Device(deviceID, Some(now), None)
                      else Device("", old(rows)[k].device.loggedInAt, Some(now)))
                else old(rows)[k]
    {
      ok := works;
      if works && id in rows {
        var device := rows[id].device;
        if loggedIn {
          device := device.(id := deviceID, loggedInAt := Some(now), loggedOutAt := None);
        } else {
          device := device.(id := "", loggedOutAt := Some(now));
        }
        rows := rows[id := rows[id].(device := device)];
      }
    }
  }

  class Manager {
    const defaults: InstanceConfig
    const store: InstanceStore
    var instances: map<string, Instance>
    /** Every instance object built so far; deletes in flight still hold those no longer in the map. */
    ghost var objects: map<Handle, Instance>
    ghost var repr: set<Instance>
    ghost var next: nat

    ghost predicate Valid()
      reads this
    {
      && (forall h | h in objects :: objects[h].Key() == h && h.stamp < next && objects[h] in repr)
      && (forall id | id in instances ::
            instances[id].Key() in objects && objects[instances[id].Key()] == instances[id] && instances[id].id == id)
    }

    ghost function ObjectValues(): map<Handle, Inst>
      requires Valid()
      reads this, repr
    {
      map h | h in objects :: objects[h].Value()
    }

    /** Changing one object changes one value of the view. */
    twostate lemma OneObjectChanged(inst: Instance)
      requires old(Valid()) && Valid() && objects == old(objects)
      requires inst.Key() in objects && objects[inst.Key()] == inst
      requires forall other: Instance | other in old(repr) && other != inst :: other.Value() == old(other.Value())
      ensures ObjectValues() == old(ObjectValues())[inst.Key() := inst.Value()]
    {
    }

    twostate lemma NoObjectChanged()
      requires old(Valid()) && Valid() && objects == old(objects)
      requires forall inst: Instance | inst in old(repr) :: inst.Value() == old(inst.Value())
      ensures ObjectValues() == old(ObjectValues())
    {
    }

    twostate lemma OneObjectAdded(new inst: Instance)
      requires old(Valid()) && Valid() && objects == old(objects)[inst.Key() := inst]
      requires forall other: Instance | other in old(repr) :: other.Value() == old(other.Value())
      ensures ObjectValues() == old(ObjectValues())[inst.Key() := inst.Value()]
    {
    }

    ghost function EntryKeys(): map<string, Handle>
      reads this
    {
      map id | id in instances :: instances[id].Key()
    }

    twostate lemma OneEntryAdded(id: string, new inst: Instance)
      requires instances == old(instances)[id := inst]
      ensures EntryKeys() == old(EntryKeys())[id := inst.Key()]
    {
    }

    twostate lemma OneEntryRemoved(id: string)
      requires instances == old(instances) - {id}
      ensures EntryKeys() == old(EntryKeys()) - {id}
    {
    }

    ghost function View(): (m: Mem)
      requires Valid()
      reads this, store, repr
      ensures WellFormed(m)
    {
      Mem(defaults,
          EntryKeys(),
          ObjectValues(),
          store.rows,
          next)
    }

    constructor (defaults: InstanceConfig, store: InstanceStore)
      ensures Valid() && instances == map[] && objects == map[] && repr == {} && next == 0
      ensures this.defaults == defaults && this.store == store
    {
      this.defaults, this.store := defaults, store;
      instances, objects, repr, next := map[], map[], {}, 0;
    }

    /** lookup */
    method Lookup(id: string) returns (inst: Instance?)
      requires Valid()
      ensures inst != null <==> Visible(View(), id)
      ensures inst != null ==> id in instances && inst == instances[id]
    {
      if id !in instances || instances[id].deleting {
        return null;
      }
      return instances[id];
    }

    /** Puts a newly built instance in the map, in place of any other of its id. */
    method Register(ghost stamp: nat, id: string, cfg: InstanceConfig, initOk: bool) returns (inst: Instance)
      requires Valid() && stamp < next
      modifies this
      ensures Valid() && fresh(inst) && inst.Key() == Handle(stamp, id)
      ensures instances == old(instances)[id := inst]
      ensures View() == old(View()).(entries := old(View()).entries[id := Handle(stamp, id)],
                                     objects := old(View()).objects[Handle(stamp, id) := Build(cfg, initOk)])
      ensures next == old(next)
    {
      inst := new Instance(stamp, id, cfg, initOk);
      instances := instances[id := inst];
      objects := objects[inst.Key() := inst];
      repr := repr + {inst};
      OneObjectAdded(inst);
      OneEntryAdded(id, inst);
    }

    /** Takes a fresh stamp. */
    ghost method TakeStamp() returns (stamp: nat)
      requires Valid()
      modifies this`next
      ensures Valid() && stamp == old(next) && next == stamp + 1
      ensures View() == old(View()).(next := next)
    {
      stamp := next;
      next := next + 1;
    }

    /** The configuration an incoming one becomes: defaults applied, system events stripped. */
    method Prepare(c: InstanceConfig) returns (cfg: InstanceConfig)
      ensures cfg == Prepared(defaults, c)
    {
      cfg := ApplyDefaults(defaults, c);
      var filters := StripSystemEvents(cfg.eventFilters);
      cfg := cfg.(eventFilters := filters);
    }

    method CreateInstance(id: string, c: InstanceConfig, saveOk: bool, initOk: bool)
        returns (r: Result<Instance, Error>, effects: seq<Effect>)
      requires Valid()
      modifies this, store
      ensures Valid()
      ensures effects == if r.Ok? then [CreatePublisher, StartService("")] else []
      ensures r.Ok? <==> id !in old(instances) && saveOk
      ensures r.Err? ==>
                && View() == old(View())
                && r.error == if id !in old(instances) then StoreFailed
                              else if Visible(old(View()), id) then AlreadyExists else BeingDeleted
      ensures var (m, out) := Create(old(View()), id, c, saveOk, initOk);
              && View() == m
              && match out
                 case Ok(h) =>
                   r.Ok? && id in instances && instances[id] == r.value && fresh(r.value) && r.value.Key() == h
                 case Err(e) => r == Err(e)
    {
      effects := [];
      if id in instances {
        if instances[id].deleting {
          return Err(BeingDeleted), effects;
        }
        return Err(AlreadyExists), effects;
      }
      var cfg := Prepare(c);
      var ok := store.SaveInstance(id, cfg, saveOk);
      if !ok {
        return Err(StoreFailed), effects;
      }
      NoObjectChanged();
      ghost var stamp := TakeStamp();
      var inst := Register(stamp, id, cfg, initOk);
      effects := [CreatePublisher, StartService("")];
      r := Ok(inst);
    }

    /** The first locked section of DeleteInstance; None when the id has no entry. */
    method BeginDeleteInstance(id: string) returns (r: Result<Option<Instance>, Error>)
      requires Valid()
      modifies repr
      ensures Valid()
      ensures var (m, out) := BeginDelete(old(View()), id);
              && View() == m
              && match out
                 case Ok(None) => r == Ok(None)
                 case Ok(Some(h)) => r.Ok? && r.value.Some? && h in objects && r.value.value == objects[h]
                 case Err(e) => r == Err(e)
      ensures forall h | h in objects ::
                objects[h].deleting == (old(objects[h].deleting) || r == Ok(Some(objects[h])))
    {
      if id in instances && instances[id].deleting {
        return Err(BeingDeleted);
      }
      if id in instances {
        instances[id].deleting := true;
        OneObjectChanged(instances[id]);
        r := Ok(Some(instances[id]));
      } else {
        r := Ok(None);
      }
    }

    /** Closes the instance's publisher and dedup set. */
    method CloseResources(inst: Instance)
      requires Valid() && inst.Key() in objects && objects[inst.Key()] == inst
      modifies repr
      ensures Valid() && !inst.publisherOpen && !inst.dedupOpen && inst.config == old(inst.config)
      ensures View() == old(View()).(objects := old(View()).objects[inst.Key() := Closed(old(inst.Value()))])
    {
      inst.publisherOpen := false;
      inst.dedupOpen := false;
      OneObjectChanged(inst);
    }

    /** Logs the session out, or deletes its device when it is not logged in or the logout fails. */
    method EndSession(hasService: bool, session: Session) returns (wasLoggedIn: bool, effects: seq<Effect>)
      ensures wasLoggedIn <==> hasService && !session.NotLoggedIn?
      ensures Logout in effects <==> wasLoggedIn
      ensures DeleteDevice in effects <==> hasService && !session.LogoutWorks?
      ensures forall i | 0 <= i < |effects| :: !effects[i].PublishLoggedOut?
      ensures TeardownEffects(hasService, session)
              == effects + (if wasLoggedIn then [PublishLoggedOut("instance_deleted")] else [])
                 + [ClosePublisher, CloseDedup]
    {
      effects, wasLoggedIn := [], false;
      if hasService {
        wasLoggedIn := !session.NotLoggedIn?;
        if wasLoggedIn {
          effects := effects + [Logout];
          if session.LogoutFails? {
            effects := effects + [DeleteDevice];
          }
        } else {
          effects := effects + [DeleteDevice];
        }
      }
    }

    /** The first half of teardownAndDelete. */
    method ReleaseResources(inst: Instance, session: Session) returns (effects: seq<Effect>)
      requires Valid() && inst.Key() in objects && objects[inst.Key()] == inst
      modifies repr
      ensures Valid()
      ensures View() == old(View()).(objects := old(View()).objects[inst.Key() := Closed(old(inst.Value()))])
      ensures effects == TeardownEffects(old(inst.service).Some?, session)
    {
      var wasLoggedIn;
      wasLoggedIn, effects := EndSession(inst.service.Some?, session);
      effects := effects + if wasLoggedIn then [PublishLoggedOut("instance_deleted")] else [];
      CloseResources(inst);
      effects := effects + [ClosePublisher, CloseDedup];
    }

    /** teardownAndDelete: a missing entry does not stop it, the row may still be there. */
    method TeardownAndDelete(id: string, found: Option<Instance>, session: Session, storeOk: bool)
        returns (outcome: Outcome, effects: seq<Effect>)
      requires Valid()
      requires found.Some? ==> found.value.Key() in objects && objects[found.value.Key()] == found.value
      modifies store, repr
      ensures Valid()
      ensures (View(), outcome) == Teardown(old(View()), id, KeyOf(found), storeOk)
      ensures effects == if found.None? then [] else TeardownEffects(old(found.value.service).Some?, session)
    {
      effects := [];
      if found.Some? {
        effects := ReleaseResources(found.value, session);
      }
      label closed:
      var r := store.DeleteInstance(id, storeOk);
      NoObjectChanged@closed();
      outcome := if r.Err? && r.error != NotFound then Failed else Gone;
    }

    /** The last locked section of DeleteInstance. */
    method EndDeleteInstance(id: string, found: Option<Instance>, outcome: Outcome)
      requires Valid()
      requires found.Some? ==> found.value.Key() in objects && objects[found.value.Key()] == found.value
      modifies this`instances, repr
      ensures Valid()
      ensures View() == EndDelete(old(View()), id, KeyOf(found), outcome)
      ensures instances == if outcome.Failed? then old(instances) else old(instances) - {id}
    {
      if outcome.Failed? {
        if found.Some? {
          found.value.deleting := false;
          OneObjectChanged(found.value);
        }
        return;
      }
      instances := instances - {id};
      OneEntryRemoved(id);
      NoObjectChanged();
    }

    /** DeleteInstance with nothing in between its sections. */
    method DeleteInstance(id: string, session: Session, storeOk: bool)
        returns (r: Result<(), Error>, effects: seq<Effect>)
      requires Valid()
      modifies this, store, repr
      ensures Valid()
      ensures (View(), r) == DeleteAlone(old(View()), id, storeOk)
      ensures effects == if !Visible(old(View()), id) then []
                         else TeardownEffects(old(Object(View(), id).handler.Some?), session)
      ensures r.Ok? ==> store.rows == old(store.rows) - {id} && instances == old(instances) - {id}
      ensures r.Err? ==> store.rows == old(store.rows) && instances == old(instances)
      ensures var marked := id in old(instances) && !Visible(old(View()), id);
              r == if marked then Err(BeingDeleted) else if storeOk then Ok(()) else Err(StoreFailed)
    {
      var begun := BeginDeleteInstance(id);
      if begun.Err? {
        return Err(begun.error), [];
      }
      var outcome;
      outcome, effects := TeardownAndDelete(id, begun.value, session, storeOk);
      EndDeleteInstance(id, begun.value, outcome);
      r := if outcome.Failed? then Err(StoreFailed) else Ok(());
    }

    method UpdateInstanceConfig(id: string, c: InstanceConfig, saveOk: bool)
        returns (r: Result<(), Error>, effects: seq<Effect>)
      requires Valid()
      modifies store, repr
      ensures Valid()
      ensures effects == if r == Err(NotFound) then [] else [ClosePublisher, CreatePublisher]
      ensures (View(), r) == Update(old(View()), id, c, saveOk)
      ensures r.Ok? <==> Visible(old(View()), id) && saveOk
      ensures r == Err(NotFound) <==> !Visible(old(View()), id)
      ensures r == Err(NotFound) ==> View() == old(View())
      ensures Visible(old(View()), id) && !saveOk ==> r == Err(StoreFailed) && store.rows == old(store.rows)
      ensures r.Ok? ==> id in store.rows && store.rows[id].columns == ToColumns(Prepared(defaults, c))
    {
      var inst := Lookup(id);
      if inst == null {
        return Err(NotFound), [];
      }
      var cfg;
      cfg, effects := ChangeConfig(inst, c);
      label changed:
      var ok := store.SaveInstance(id, cfg, saveOk);
      NoObjectChanged@changed();
      r := if ok then Ok(()) else Err(StoreFailed);
    }

    /** The part of an update that changes the instance: its publisher is closed and created anew. */
    method ChangeConfig(inst: Instance, c: InstanceConfig) returns (cfg: InstanceConfig, effects: seq<Effect>)
      requires Valid() && inst.Key() in objects && objects[inst.Key()] == inst
      modifies repr
      ensures Valid() && cfg == Prepared(defaults, c) && effects == [ClosePublisher, CreatePublisher]
      ensures View() == old(View()).(objects := old(View()).objects[inst.Key() :=
                                       old(inst.Value()).(config := cfg, publisherOpen := true)])
    {
      inst.publisherOpen := false;
      effects := [ClosePublisher];
      cfg := Prepare(c);
      inst.config := cfg;
      inst.publisherOpen := true;
      effects := effects + [CreatePublisher];
      OneObjectChanged(inst);
    }

    /** `deviceJID` is what the old service answers when asked for its device. */
    method RestartInstance(id: string, deviceJID: string, initOk: bool)
        returns (r: Result<(), Error>, effects: seq<Effect>)
      requires Valid()
      modifies this, repr
      ensures Valid()
      ensures r.Err? ==> effects == []
      ensures r.Ok? ==>
                && Visible(old(View()), id)
                && var hadService := old(Object(View(), id).handler.Some?);
                   effects == (if hadService then [Disconnect] else []) + [ClosePublisher, CloseDedup]
                              + [CreatePublisher, StartService(if hadService then deviceJID else "")]
      ensures r == if Visible(old(View()), id) then Ok(()) else Err(NotFound)
      ensures r.Err? ==> View() == old(View())
      ensures View() == Restart(old(View()), id, initOk).0
    {
      var inst := Lookup(id);
      if inst == null {
        return Err(NotFound), [];
      }
      effects := if inst.service.Some? then [Disconnect] else [];
      effects := effects + [ClosePublisher, CloseDedup];
      effects := effects + [CreatePublisher, StartService(if inst.service.Some? then deviceJID else "")];
      Replace(id, inst, initOk);
      r := Ok(());
    }

    /** Closes a visible instance's resources and builds another with its configuration. */
    method Replace(id: string, inst: Instance, initOk: bool)
      requires Valid() && Visible(View(), id) && instances[id] == inst
      modifies this, repr
      ensures Valid() && View() == Restart(old(View()), id, initOk).0
    {
      ghost var was := View();
      CloseResources(inst);
      ghost var closed := View();
      ghost var stamp := TakeStamp();
      var rebuilt := Register(stamp, id, inst.config, initOk);
      RestartInSteps(was, closed, id, initOk);
    }

    static lemma RestartInSteps(m: Mem, closed: Mem, id: string, initOk: bool)
      requires WellFormed(m) && Visible(m, id)
      requires closed == m.(objects := m.objects[m.entries[id] := Closed(Object(m, id))])
      ensures Restart(m, id, initOk).0 ==
              closed.(entries := m.entries[id := Handle(m.next, id)],
                      objects := closed.objects[Handle(m.next, id) := Build(Object(m, id).config, initOk)],
                      next := m.next + 1)
    {
    }

    /** The old client is disconnected before the new one is tried, which starts with a fresh device. */
    method RebuildInstanceService(id: string, initOk: bool) returns (effects: seq<Effect>)
      requires Valid()
      modifies repr
      ensures Valid()
      ensures View() == Rebuild(old(View()), id, initOk)
      ensures effects == if !Visible(old(View()), id) then []
                         else if old(Object(View(), id).handler.Some?) then [Disconnect, StartService("")]
                         else [StartService("")]
    {
      var inst := Lookup(id);
      if inst == null {
        return [];
      }
      effects := (if inst.service.Some? then [Disconnect] else []) + [StartService("")];
      if initOk {
        inst.service := Some(inst.config);
        OneObjectChanged(inst);
      }
    }

    /** The device update of a logout; an error is only logged. */
    method RecordLogout(id: string, now: int, storeOk: bool)
      requires Valid()
      modifies store
      ensures Valid() && View() == DeviceState(old(View()), id, LoggedOut(now), storeOk)
    {
      var ok := store.UpdateDeviceState(id, "", false, now, storeOk);
      NoObjectChanged();
    }

    static lemma DeviceStateUnseen(m: Mem, id: string, change: DeviceChange, storeOk: bool)
      requires WellFormed(m)
      ensures var r := DeviceState(m, id, change, storeOk);
              WellFormed(r) && Visible(r, id) == Visible(m, id) && (Visible(m, id) ==> Object(r, id) == Object(m, id))
    {
    }

    method PublishLogout(id: string) returns (effects: seq<Effect>)
      requires Valid()
      ensures effects == if Visible(View(), id) then [PublishLoggedOut("api_logout")] else []
    {
      var inst := Lookup(id);
      effects := if inst != null then [PublishLoggedOut("api_logout")] else [];
    }

    method PublishAndRebuild(id: string, initOk: bool) returns (effects: seq<Effect>)
      requires Valid()
      modifies repr
      ensures Valid() && View() == Rebuild(old(View()), id, initOk)
      ensures effects == if !Visible(old(View()), id) then []
                         else if old(Object(View(), id).handler.Some?) then
                           [PublishLoggedOut("api_logout"), Disconnect, StartService("")]
                         else [PublishLoggedOut("api_logout"), StartService("")]
    {
      effects := PublishLogout(id);
      var rebuilding := RebuildInstanceService(id, initOk);
      effects := effects + rebuilding;
    }

    /** The device state is written first, then the logout is published, then the service is rebuilt. */
    method HandleLogout(id: string, now: int, storeOk: bool, initOk: bool) returns (effects: seq<Effect>)
      requires Valid()
      modifies store, repr
      ensures Valid()
      ensures View() == Rebuild(DeviceState(old(View()), id, LoggedOut(now), storeOk), id, initOk)
      ensures effects == if !Visible(old(View()), id) then []
                         else if old(Object(View(), id).handler.Some?) then
                           [PublishLoggedOut("api_logout"), Disconnect, StartService("")]
                         else [PublishLoggedOut("api_logout"), StartService("")]
    {
      DeviceStateUnseen(View(), id, LoggedOut(now), storeOk);
      RecordLogout(id, now, storeOk);
      effects := PublishAndRebuild(id, initOk);
    }

    /** Restoring a row creates its publisher and starts its service on the stored device. */
    static ghost function RestoreEffects(rows: map<string, Row>, ids: seq<string>): seq<Effect>
      requires forall id | id in ids :: id in rows
    {
      if ids == [] then []
      else
        var n := |ids| - 1;
        RestoreEffects(rows, ids[..n]) + [CreatePublisher, StartService(rows[ids[n]].device.id)]
    }

    /** RestoreInstances on a new manager, over the ids the store lists. */
    method RestoreInstances(ids: seq<string>, initOk: set<string>) returns (effects: seq<Effect>)
      requires Valid() && instances == map[] && objects == map[]
      requires forall id :: id in ids <==> id in store.rows
      modifies this
      ensures Valid()
      ensures View() == Restore(defaults, store.rows, old(next), initOk)
      ensures effects == RestoreEffects(store.rows, ids)
    {
      EmptyView();
      ghost var stamp := TakeStamp();
      effects := RestoreRows(stamp, ids, initOk);
      ghost var all := Rebuilt(defaults, store.rows, initOk);
      assert Among(all, ids) == all;
    }

    method RestoreRows(ghost stamp: nat, ids: seq<string>, initOk: set<string>) returns (effects: seq<Effect>)
      requires Valid() && next == stamp + 1 && View() == Placed(defaults, store.rows, map[], stamp)
      requires forall id | id in ids :: id in store.rows
      modifies this
      ensures Valid()
      ensures View() == Placed(defaults, store.rows, Among(Rebuilt(defaults, store.rows, initOk), ids), stamp)
      ensures effects == RestoreEffects(store.rows, ids)
    {
      effects := [];
      ghost var all := Rebuilt(defaults, store.rows, initOk);
      assert Among(all, []) == map[];
      for i := 0 to |ids|
        invariant Valid() && next == stamp + 1
        invariant View() == Placed(defaults, store.rows, Among(all, ids[..i]), stamp)
        invariant effects == RestoreEffects(store.rows, ids[..i])
      {
        AmongNext(all, ids, i);
        RestoreEffectsNext(store.rows, ids, i);
        var restoring := RestoreRow(stamp, ids[i], initOk, Among(all, ids[..i]));
        effects := effects + restoring;
      }
      assert ids[..|ids|] == ids;
    }

    /** The loop body of RestoreInstances. */
    method RestoreRow(ghost stamp: nat, id: string, initOk: set<string>, ghost before: map<string, Inst>)
        returns (effects: seq<Effect>)
      requires Valid() && next == stamp + 1 && id in store.rows
      requires View() == Placed(defaults, store.rows, before, stamp)
      modifies this
      ensures Valid() && next == old(next)
      ensures View() == Placed(defaults, store.rows, before[id := Rebuilt(defaults, store.rows, initOk)[id]], stamp)
      ensures effects == [CreatePublisher, StartService(store.rows[id].device.id)]
    {
      var cfg := RestoredConfig(id, initOk);
      RegisterRestored(stamp, id, cfg, id in initOk, before);
      effects := [CreatePublisher, StartService(store.rows[id].device.id)];
    }

    method RegisterRestored(ghost stamp: nat, id: string, cfg: InstanceConfig, initOk: bool,
                            ghost before: map<string, Inst>)
      requires Valid() && next == stamp + 1 && View() == Placed(defaults, store.rows, before, stamp)
      modifies this
      ensures Valid() && next == old(next)
      ensures View() == Placed(defaults, store.rows, before[id := Build(cfg, initOk)], stamp)
    {
      PlacedNext(defaults, store.rows, before, stamp, id, Build(cfg, initOk));
      var inst := Register(stamp, id, cfg, initOk);
    }

    method RestoredConfig(id: string, ghost initOk: set<string>) returns (cfg: InstanceConfig)
      requires id in store.rows
      ensures Build(cfg, id in initOk) == Rebuilt(defaults, store.rows, initOk)[id]
    {
      cfg := ApplyDefaults(defaults, FromColumns(store.rows[id].columns));
    }

    /** The instances restored from the rows. */
    static ghost function Rebuilt(d: InstanceConfig, rows: map<string, Row>, initOk: set<string>): map<string, Inst> {
      map id | id in rows :: Build(Restored(d, rows[id].columns), id in initOk)
    }

    static ghost function Among(all: map<string, Inst>, ids: seq<string>): map<string, Inst> {
      map id | id in ids && id in all :: all[id]
    }

    /** The service of each row is started on the device its row holds. */
    static lemma {:induction false} RestoreStartsOn(rows: map<string, Row>, ids: seq<string>, k: nat)
      requires k < |ids| && forall id | id in ids :: id in rows
      ensures var effects := RestoreEffects(rows, ids);
              && |effects| == 2 * |ids|
              && effects[2 * k] == CreatePublisher && effects[2 * k + 1] == StartService(rows[ids[k]].device.id)
    {
      var n := |ids| - 1;
      if n == 0 {
        assert ids[..0] == [];
      } else {
        RestoreStartsOn(rows, ids[..n], if k < n then k else 0);
      }
    }

    static lemma RestoreEffectsNext(rows: map<string, Row>, ids: seq<string>, i: nat)
      requires i < |ids| && forall id | id in ids :: id in rows
      ensures RestoreEffects(rows, ids[..i + 1])
              == RestoreEffects(rows, ids[..i]) + [CreatePublisher, StartService(rows[ids[i]].device.id)]
    {
      assert ids[..i + 1][..i] == ids[..i];
    }

    static lemma AmongNext(all: map<string, Inst>, ids: seq<string>, i: nat)
      requires i < |ids| && ids[i] in all
      ensures Among(all, ids[..i + 1]) == Among(all, ids[..i])[ids[i] := all[ids[i]]]
    {
      assert ids[..i + 1] == ids[..i] + [ids[i]];
    }

    lemma EmptyView()
      requires Valid() && instances == map[] && objects == map[]
      ensures View().(next := next + 1) == Placed(defaults, store.rows, map[], next)
    {
    }

    static lemma PlacedNext(d: InstanceConfig, rows: map<string, Row>, built: map<string, Inst>, stamp: nat,
                            id: string, inst: Inst)
      ensures var m, h := Placed(d, rows, built, stamp), Handle(stamp, id);
              Placed(d, rows, built[id := inst], stamp)
              == m.(entries := m.entries[id := h], objects := m.objects[h := inst])
    {
    }

    static ghost function KeyOf(found: Option<Instance>): Option<Handle> {
      if found.None? then None else Some(found.value.Key())
    }
  }
}
