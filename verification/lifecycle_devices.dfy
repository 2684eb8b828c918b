/** The device a row holds over whole runs, and the one a restart of the process starts its service on. */
module LifecycleDevices {
  import opened Wrappers
  import opened Lifecycle
  import opened InstanceManager

  ghost predicate ChangesDevice(step: Step, id: string) {
    step.DeviceStep? && step.id == id && step.storeOk
  }

  lemma StepDevice(s: Sys, step: Step, id: string)
    requires Sound(s) && id in s.mem.rows && id in Apply(s, step).mem.rows
    ensures var was, now := s.mem.rows[id].device, Apply(s, step).mem.rows[id].device;
            if !ChangesDevice(step, id) then now == was
            else
              match step.change
              case LoggedIn(deviceID, at) => now == Device(deviceID, Some(at), None)
              case LoggedOut(at) => now == Device("", was.loggedInAt, Some(at))
  {
  }

  ghost predicate RowStays(states: seq<Sys>, id: string) {
    forall n | 0 <= n < |states| :: id in states[n].mem.rows
  }

  lemma NextDevice(states: seq<Sys>, steps: seq<Step>, id: string, n: nat)
    requires IsTrace(states, steps) && RowStays(states, id) && n < |steps|
    ensures var was, now := states[n].mem.rows[id].device, states[n + 1].mem.rows[id].device;
            if !ChangesDevice(steps[n], id) then now == was
            else
              match steps[n].change
              case LoggedIn(deviceID, at) => now == Device(deviceID, Some(at), None)
              case LoggedOut(at) => now == Device("", was.loggedInAt, Some(at))
  {
    assert Follows(states, steps, n);
    StepDevice(states[n], steps[n], id);
  }

  ghost predicate NoChange(steps: seq<Step>, id: string, n: nat)
    requires n <= |steps|
  {
    forall k | 0 <= k < n :: !ChangesDevice(steps[k], id)
  }

  /** Step k is the last of the first n that stores a device update of the id. */
  ghost predicate LastChange(steps: seq<Step>, id: string, n: nat, k: nat)
    requires n <= |steps|
  {
    k < n && ChangesDevice(steps[k], id) && forall m | k < m < n :: !ChangesDevice(steps[m], id)
  }

  /** And the last of them that stores a login. */
  ghost predicate LastLogin(steps: seq<Step>, id: string, n: nat, k: nat)
    requires n <= |steps|
  {
    && k < n && ChangesDevice(steps[k], id) && steps[k].change.LoggedIn?
    && forall m | k < m < n && ChangesDevice(steps[m], id) :: !steps[m].change.LoggedIn?
  }

  /** With no device update of the id from some state on the device is the one of that state. */
  lemma {:induction false} DeviceKept(states: seq<Sys>, steps: seq<Step>, id: string, since: nat, n: nat)
    requires IsTrace(states, steps) && since <= n <= |steps|
    requires forall k | since <= k <= n :: id in states[k].mem.rows
    requires forall k | since <= k < n :: !ChangesDevice(steps[k], id)
    ensures states[n].mem.rows[id].device == states[since].mem.rows[id].device
    decreases n - since
  {
    if since < n {
      DeviceKept(states, steps, id, since, n - 1);
      assert Follows(states, steps, n - 1);
      StepDevice(states[n - 1], steps[n - 1], id);
    }
  }

  lemma {:induction false} LoginTimeKept(states: seq<Sys>, steps: seq<Step>, id: string, since: nat, n: nat)
    requires IsTrace(states, steps) && RowStays(states, id) && since <= n <= |steps|
    requires forall k | since <= k < n && ChangesDevice(steps[k], id) :: !steps[k].change.LoggedIn?
    ensures states[n].mem.rows[id].device.loggedInAt == states[since].mem.rows[id].device.loggedInAt
    decreases n - since
  {
    if since < n {
      LoginTimeKept(states, steps, id, since, n - 1);
      NextDevice(states, steps, id, n - 1);
    }
  }

  /** Over any run during which the row stays, crashes and deletes of other ids included, the device id and the
      logout time are those of the last device update that was stored; configuration writes keep both. */
  lemma DeviceOverRun(states: seq<Sys>, steps: seq<Step>, id: string, n: nat, k: nat)
    requires IsTrace(states, steps) && RowStays(states, id) && n <= |steps| && LastChange(steps, id, n, k)
    ensures var now := states[n].mem.rows[id].device;
            match steps[k].change
            case LoggedIn(deviceID, _) => now.id == deviceID && now.loggedOutAt == None
            case LoggedOut(at) => now.id == "" && now.loggedOutAt == Some(at)
  {
    NextDevice(states, steps, id, k);
    DeviceKept(states, steps, id, k + 1, n);
  }

  /** The login time is that of the last login that was stored, whatever was logged out since; before any, that of
      the start. */
  lemma LoginTimeOverRun(states: seq<Sys>, steps: seq<Step>, id: string, n: nat)
    requires IsTrace(states, steps) && RowStays(states, id) && n <= |steps|
    ensures forall k: nat | LastLogin(steps, id, n, k) ::
              states[n].mem.rows[id].device.loggedInAt == Some(steps[k].change.at)
    ensures (forall k | 0 <= k < n && ChangesDevice(steps[k], id) :: !steps[k].change.LoggedIn?) ==>
              states[n].mem.rows[id].device.loggedInAt == states[0].mem.rows[id].device.loggedInAt
  {
    forall k: nat | LastLogin(steps, id, n, k)
      ensures states[n].mem.rows[id].device.loggedInAt == Some(steps[k].change.at)
    {
      NextDevice(states, steps, id, k);
      LoginTimeKept(states, steps, id, k + 1, n);
    }
    if forall k | 0 <= k < n && ChangesDevice(steps[k], id) :: !steps[k].change.LoggedIn? {
      LoginTimeKept(states, steps, id, 0, n);
    }
  }

  lemma {:induction false} SomeLastChange(steps: seq<Step>, id: string, n: nat)
    requires n <= |steps|
    ensures (exists k: nat :: LastChange(steps, id, n, k)) || NoChange(steps, id, n)
  {
    if n > 0 {
      var last := n - 1;
      SomeLastChange(steps, id, last);
      if ChangesDevice(steps[last], id) {
        assert LastChange(steps, id, n, last);
      } else if k: nat :| LastChange(steps, id, last, k) {
        assert LastChange(steps, id, n, k);
      }
    }
  }

  /** The device id the row should hold: that of the last stored login unless a logout was stored since, and before
      any device update what the row held at the start. */
  ghost predicate Paired(first: string, steps: seq<Step>, id: string, n: nat, deviceID: string)
    requires n <= |steps|
  {
    (NoChange(steps, id, n) && deviceID == first)
    || exists k: nat :: LastChange(steps, id, n, k)
                        && deviceID == if steps[k].change.LoggedIn? then steps[k].change.deviceID else ""
  }

  /** So over any run the row holds a device exactly when the last stored update was a login on one (before any,
      when it held one at the start), and a restart of the process starts the service on exactly that device. */
  lemma RestartStartsOnPaired(states: seq<Sys>, steps: seq<Step>, id: string, deviceID: string,
                              ids: seq<string>, k: nat)
    requires IsTrace(states, steps) && RowStays(states, id)
    requires (forall i :: i in ids <==> i in states[|steps|].mem.rows) && k < |ids| && ids[k] == id
    ensures var first, rows := states[0].mem.rows[id].device.id, states[|steps|].mem.rows;
            var effects := Manager.RestoreEffects(rows, ids);
            && (rows[id].device.id == deviceID <==> Paired(first, steps, id, |steps|, deviceID))
            && |effects| == 2 * |ids|
            && (effects[2 * k + 1] == StartService(deviceID) <==> Paired(first, steps, id, |steps|, deviceID))
  {
    PairedOverRun(states, steps, id, deviceID);
    Manager.RestoreStartsOn(states[|steps|].mem.rows, ids, k);
  }

  lemma PairedOverRun(states: seq<Sys>, steps: seq<Step>, id: string, deviceID: string)
    requires IsTrace(states, steps) && RowStays(states, id)
    ensures states[|steps|].mem.rows[id].device.id == deviceID
            <==> Paired(states[0].mem.rows[id].device.id, steps, id, |steps|, deviceID)
  {
    SomeLastChange(steps, id, |steps|);
    if NoChange(steps, id, |steps|) {
      DeviceKept(states, steps, id, 0, |steps|);
    } else {
      var k: nat :| LastChange(steps, id, |steps|, k);
      DeviceOverRun(states, steps, id, |steps|, k);
      assert forall m: nat | LastChange(steps, id, |steps|, m) :: m == k;
    }
  }

  lemma CreateDevice(s: Sys, step: Step, id: string)
    requires Sound(s) && step.CreateStep? && step.id == id && id !in s.mem.entries && step.saveOk
    ensures var r := Apply(s, step);
            id in r.mem.rows && r.mem.rows[id].device == if id in s.mem.rows then s.mem.rows[id].device else NO_DEVICE
  {
  }

  /** A create over a row that has no entry takes the row's device over: for as long as nothing is paired or
      logged out, the new instance's row has no device, and so does the service a process restart gives
      it, exactly when there was no row or a row without one. */
  lemma CreatedWithoutDeviceIff(states: seq<Sys>, steps: seq<Step>, id: string)
    requires IsTrace(states, steps) && steps != []
    requires steps[0].CreateStep? && steps[0].id == id && steps[0].saveOk && id !in states[0].mem.entries
    requires forall k | 1 <= k <= |steps| :: id in states[k].mem.rows
    requires forall k | 1 <= k < |steps| :: !ChangesDevice(steps[k], id)
    ensures states[|steps|].mem.rows[id].device == NO_DEVICE
            <==> id !in states[0].mem.rows || states[0].mem.rows[id].device == NO_DEVICE
  {
    assert Follows(states, steps, 0);
    CreateDevice(states[0], steps[0], id);
    DeviceKept(states, steps, id, 1, |steps|);
  }
}
