/** Escalation after app-state sync errors: a full sync first, then a peer recovery request, with a
    48 hour cooldown. Two timestamp maps per event handler, keyed by collection. */
module AppStateRecovery {

  const SECOND := 1_000_000_000
  const COOLDOWN := 48 * 3600 * SECOND

  type Time = int

  /** `checkedAt` is the clock reading the cooldown is tested against, `storedAt` the one recorded. */
  datatype Event =
    | SyncComplete(name: string)
    | SyncError(name: string, fullSync: bool, checkedAt: Time, storedAt: Time)

  datatype Action = Ignore | LaunchFullSync | RequestRecovery

  datatype State = State(fullSyncAt: map<string, Time>, recoveryAt: map<string, Time>)

  const EMPTY := State(map[], map[])

  /** Reading a missing key of a time map gives the zero time. */
  function At(m: map<string, Time>, name: string): Time {
    if name in m then m[name] else 0
  }

  function Step(s: State, e: Event): (State, Action) {
    match e
    case SyncComplete(name) => (State(s.fullSyncAt - {name}, s.recoveryAt - {name}), Ignore)
    case SyncError(name, fullSync, checkedAt, storedAt) =>
      if At(s.recoveryAt, name) != 0 && checkedAt - At(s.recoveryAt, name) < COOLDOWN then (s, Ignore)
      else if !fullSync then
        if At(s.fullSyncAt, name) != 0 then (s, Ignore)
        else (s.(fullSyncAt := s.fullSyncAt[name := storedAt]), LaunchFullSync)
      else (s.(recoveryAt := s.recoveryAt[name := storedAt]), RequestRecovery)
  }

  /** The state one event handler keeps. */
  class Tracker {
    var fullSyncAt: map<string, Time>
    var recoveryAt: map<string, Time>

    function View(): State
      reads this
    {
      State(fullSyncAt, recoveryAt)
    }

    constructor ()
      ensures View() == EMPTY
    {
      fullSyncAt, recoveryAt := map[], map[];
    }

    method OnSyncComplete(name: string)
      modifies this
      ensures View() == Step(old(View()), SyncComplete(name)).0
    {
      fullSyncAt := fullSyncAt - {name};
      recoveryAt := recoveryAt - {name};
    }

    method OnSyncError(name: string, fullSync: bool, checkedAt: Time, storedAt: Time) returns (action: Action)
      modifies this
      ensures (View(), action) == Step(old(View()), SyncError(name, fullSync, checkedAt, storedAt))
    {
      var lastRecovery := At(recoveryAt, name);
      var lastFullSync := At(fullSyncAt, name);
      if lastRecovery != 0 && checkedAt - lastRecovery < COOLDOWN {
        action := Ignore;
      } else if !fullSync {
        if lastFullSync != 0 {
          action := Ignore;
        } else {
          fullSyncAt := fullSyncAt[name := storedAt];
          action := LaunchFullSync;
        }
      } else {
        recoveryAt := recoveryAt[name := storedAt];
        action := RequestRecovery;
      }
    }
  }

  // ---------- runs ----------

  function Run(events: seq<Event>): State {
    if events == [] then EMPTY else Step(Run(events[..|events| - 1]), events[|events| - 1]).0
  }

  /** What the handler does at event n. */
  function ActionAt(events: seq<Event>, n: nat): Action
    requires n < |events|
  {
    Step(Run(events[..n]), events[n]).1
  }

  /** The clock is past the zero time and does not run backwards. */
  ghost predicate Clocked(events: seq<Event>) {
    && (forall i | 0 <= i < |events| && events[i].SyncError? :: 0 < events[i].checkedAt <= events[i].storedAt)
    && (forall i, j | 0 <= i < j < |events| && events[i].SyncError? && events[j].SyncError? ::
          events[i].storedAt <= events[j].checkedAt)
  }

  /** Event k is an error of collection c that is answered with this. */
  predicate Does(events: seq<Event>, c: string, k: nat, action: Action)
    requires k < |events|
  {
    events[k].SyncError? && events[k].name == c && ActionAt(events, k) == action
  }

  /** Event i did this for collection c, and c has not completed a sync since, up to event n. */
  ghost predicate Pending(events: seq<Event>, c: string, i: nat, n: nat, action: Action)
    requires n <= |events|
  {
    && i < n && Does(events, c, i, action)
    && forall k | i < k < n :: events[k] != SyncComplete(c)
  }

  /** The maps are exactly the memory of the run: a time is recorded for c just when a full sync
      (a recovery) of c is pending, and it is the time of the last one. */
  ghost predicate Remembers(events: seq<Event>, c: string, action: Action, at: Time) {
    && (at != 0 <==> exists i: nat :: Pending(events, c, i, |events|, action))
    && (at != 0 ==> exists i: nat :: Pending(events, c, i, |events|, action) && events[i].storedAt == at)
    && (forall i: nat | Pending(events, c, i, |events|, action) :: events[i].storedAt <= at)
  }

  lemma PendingPrefix(events: seq<Event>, c: string, i: nat, action: Action)
    requires events != []
    ensures var n := |events| - 1;
            Pending(events, c, i, |events|, action) <==>
              if i == n then Does(events, c, n, action)
              else Pending(events[..n], c, i, n, action) && events[n] != SyncComplete(c)
  {
    var n := |events| - 1;
    if i < n {
      assert events[..n][..i] == events[..i];
    }
  }

  lemma MapsNext(events: seq<Event>, c: string)
    requires events != []
    ensures var n := |events| - 1;
            && At(Run(events).fullSyncAt, c) == TimeNext(events, c, LaunchFullSync, At(Run(events[..n]).fullSyncAt, c))
            && At(Run(events).recoveryAt, c) == TimeNext(events, c, RequestRecovery, At(Run(events[..n]).recoveryAt, c))
  {
  }

  /** The time kept for c and this action once the last event is done. */
  function TimeNext(events: seq<Event>, c: string, action: Action, before: Time): Time
    requires events != []
  {
    var n := |events| - 1;
    if events[n] == SyncComplete(c) then 0 else if Does(events, c, n, action) then events[n].storedAt else before
  }

  lemma {:induction false} MapsRemember(events: seq<Event>, c: string)
    requires Clocked(events)
    ensures Remembers(events, c, LaunchFullSync, At(Run(events).fullSyncAt, c))
    ensures Remembers(events, c, RequestRecovery, At(Run(events).recoveryAt, c))
  {
    if events != [] {
      var n := |events| - 1;
      MapsRemember(events[..n], c);
      MapsNext(events, c);
      RemembersStep(events, c, LaunchFullSync, At(Run(events[..n]).fullSyncAt, c), At(Run(events).fullSyncAt, c));
      RemembersStep(events, c, RequestRecovery, At(Run(events[..n]).recoveryAt, c), At(Run(events).recoveryAt, c));
    }
  }

  lemma RemembersStep(events: seq<Event>, c: string, action: Action, before: Time, after: Time)
    requires events != [] && Clocked(events) && action != Ignore
    requires Remembers(events[..|events| - 1], c, action, before)
    requires after == TimeNext(events, c, action, before)
    ensures Remembers(events, c, action, after)
  {
    var n := |events| - 1;
    forall i: nat
      ensures Pending(events, c, i, |events|, action) <==>
              if i == n then Does(events, c, n, action)
              else Pending(events[..n], c, i, n, action) && events[n] != SyncComplete(c)
    {
      PendingPrefix(events, c, i, action);
    }
    if Does(events, c, n, action) {
      assert Pending(events, c, n, |events|, action);
    } else if events[n] != SyncComplete(c) && before != 0 {
      var i: nat :| Pending(events[..n], c, i, n, action) && events[i].storedAt == before;
      assert Pending(events, c, i, |events|, action);
    }
  }

  /** The cooldown of c is running at event n: a recovery is pending and less than 48 hours old. */
  ghost predicate CoolingDown(events: seq<Event>, c: string, n: nat)
    requires n < |events| && events[n].SyncError?
  {
    exists i: nat :: Pending(events, c, i, n, RequestRecovery) && events[n].checkedAt - events[i].storedAt < COOLDOWN
  }

  /** Every decision, from the history alone. A full sync is launched on a partial sync's error exactly when
      none is pending and no cooldown runs; a recovery is requested on a full sync's error exactly when no
      cooldown runs. */
  lemma DecisionIff(events: seq<Event>, n: nat)
    requires Clocked(events) && n < |events| && events[n].SyncError?
    ensures var c := events[n].name;
            && (ActionAt(events, n) == LaunchFullSync <==>
                  !events[n].fullSync && !CoolingDown(events, c, n)
                  && !(exists i: nat :: Pending(events, c, i, n, LaunchFullSync)))
            && (ActionAt(events, n) == RequestRecovery <==> events[n].fullSync && !CoolingDown(events, c, n))
  {
    var c := events[n].name;
    var before := events[..n];
    MapsRemember(before, c);
    forall i: nat, action: Action
      ensures Pending(events, c, i, n, action) <==> Pending(before, c, i, n, action)
    {
      if i < n {
        assert before[..i] == events[..i];
      }
    }
  }

  /** Between two completions of a collection at most one full sync is launched for it. */
  lemma OneFullSyncPerCycle(events: seq<Event>, c: string, i: nat, j: nat)
    requires Clocked(events) && i < j < |events|
    requires Does(events, c, i, LaunchFullSync)
    requires Does(events, c, j, LaunchFullSync)
    ensures exists k :: i < k < j && events[k] == SyncComplete(c)
  {
    DecisionIff(events, j);
    if forall k | i < k < j :: events[k] != SyncComplete(c) {
      assert Pending(events, c, i, j, LaunchFullSync);
    }
  }

  lemma RecoveriesApart(events: seq<Event>, c: string, i: nat, j: nat)
    requires Clocked(events) && i < j < |events|
    requires forall k | i <= k <= j :: events[k] != SyncComplete(c)
    requires Does(events, c, i, RequestRecovery)
    requires Does(events, c, j, RequestRecovery)
    ensures events[j].storedAt - events[i].storedAt >= 48 * 3600 * 1_000_000_000
  {
    DecisionIff(events, j);
    assert Pending(events, c, i, j, RequestRecovery);
  }

  function Recoveries(events: seq<Event>, c: string, i: nat, j: nat): nat
    requires i <= j <= |events|
    decreases j - i
  {
    if i == j then 0
    else Recoveries(events, c, i, j - 1)
         + if Does(events, c, j - 1, RequestRecovery) then 1 else 0
  }

  /** k recovery requests of one collection with no completion in between take at least (k - 1) * 48 hours. */
  lemma RecoveryRate(events: seq<Event>, c: string, i: nat, j: nat)
    requires Clocked(events) && i < j <= |events|
    requires forall k | i <= k < j :: events[k] != SyncComplete(c)
    requires events[i].SyncError? && events[j - 1].SyncError?
    ensures (Recoveries(events, c, i, j) - 1) * (48 * 3600 * 1_000_000_000)
            <= events[j - 1].storedAt - events[i].storedAt
  {
    var last := LastRecovery(events, c, i, j);
    if i < last {
      assert events[last - 1].storedAt <= events[j - 1].storedAt;
    }
  }

  lemma OneMoreCooldown(count: nat, span: Time, gap: Time)
    requires (count - 1) * COOLDOWN <= span && gap >= COOLDOWN
    ensures count * COOLDOWN <= span + gap
  {
  }

  /** The last recovery among events i to j, by its successor; i when there is none. */
  lemma {:induction false} LastRecovery(events: seq<Event>, c: string, i: nat, j: nat) returns (last: nat)
    requires Clocked(events) && i <= j <= |events|
    requires i < |events| && events[i].SyncError?
    requires forall k | i <= k < j :: events[k] != SyncComplete(c)
    ensures i <= last <= j
    ensures last == i ==> Recoveries(events, c, i, j) == 0
    ensures i < last ==>
              && Does(events, c, last - 1, RequestRecovery)
              && (Recoveries(events, c, i, j) - 1) * COOLDOWN <= events[last - 1].storedAt - events[i].storedAt
    decreases j - i
  {
    if i == j {
      last := i;
    } else {
      last := LastRecovery(events, c, i, j - 1);
      if Does(events, c, j - 1, RequestRecovery) {
        var count := Recoveries(events, c, i, j - 1);
        var start, end := events[i].storedAt, events[j - 1].storedAt;
        if i < last {
          RecoveriesApart(events, c, last - 1, j - 1);
          OneMoreCooldown(count, events[last - 1].storedAt - start, end - events[last - 1].storedAt);
        }
        assert count * COOLDOWN <= end - start;
        assert Recoveries(events, c, i, j) == count + 1;
        last := j;
      }
    }
  }

  // ---------- collections are independent ----------

  function Only(events: seq<Event>, c: string): seq<Event> {
    if events == [] then []
    else Only(events[..|events| - 1], c) + if events[|events| - 1].name == c then [events[|events| - 1]] else []
  }

  lemma OnlyLast(events: seq<Event>, c: string)
    requires events != []
    ensures var before, last := Only(events[..|events| - 1], c), events[|events| - 1];
            if last.name == c
            then Only(events, c) == before + [last] && Run(Only(events, c)) == Step(Run(before), last).0
            else Only(events, c) == before
  {
    var before, last := Only(events[..|events| - 1], c), events[|events| - 1];
    assert (before + [last])[..|before|] == before;
  }

  /** A step's effect on the times of c depends on the times of c alone. */
  lemma StepOf(s: State, s': State, e: Event, c: string)
    requires At(s.fullSyncAt, c) == At(s'.fullSyncAt, c) && At(s.recoveryAt, c) == At(s'.recoveryAt, c)
    ensures var t, t' := Step(s, e).0, if e.name == c then Step(s', e).0 else s';
            At(t.fullSyncAt, c) == At(t'.fullSyncAt, c) && At(t.recoveryAt, c) == At(t'.recoveryAt, c)
  {
  }

  lemma {:induction false} OnlyKeepsState(events: seq<Event>, c: string)
    ensures At(Run(Only(events, c)).fullSyncAt, c) == At(Run(events).fullSyncAt, c)
    ensures At(Run(Only(events, c)).recoveryAt, c) == At(Run(events).recoveryAt, c)
  {
    if events != [] {
      var n := |events| - 1;
      OnlyKeepsState(events[..n], c);
      OnlyLast(events, c);
      StepOf(Run(events[..n]), Run(Only(events[..n], c)), events[n], c);
    }
  }

  /** Events of other collections never change a decision: dropping them all leaves it the same. */
  lemma CollectionsIndependent(events: seq<Event>, n: nat)
    requires n < |events|
    ensures var only := Only(events[..n + 1], events[n].name);
            only != [] && ActionAt(only, |only| - 1) == ActionAt(events, n)
  {
    var c := events[n].name;
    var upTo := events[..n + 1];
    assert upTo[..n] == events[..n];
    var only := Only(upTo, c);
    assert only[..|only| - 1] == Only(events[..n], c);
    OnlyKeepsState(events[..n], c);
  }
}
