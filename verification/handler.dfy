/** The event handler initService registers: bookkeeping per event, then project, filter, deduplicate, publish. */
module EventHandler {
  import opened Wrappers
  import opened EventTypes
  import Filters
  import AppStateRecovery
  import Dedup
  import opened Publishers

  datatype SyncType = InitialBootstrap | Full | Recent | OnDemand | OtherSync

  datatype WAEvent =
    | HistorySync(syncType: Option<SyncType>, progress: nat, hasMessages: bool)
    | PairSuccess(deviceJID: string)
    | LoggedOut(reason: string)
    | SyncComplete(name: string)
    | SyncError(name: string, fullSync: bool, checkedAt: AppStateRecovery.Time, storedAt: AppStateRecovery.Time)
    | Other(projected: Option<Event>)

  /** An event as the handler meets it: ourJID is empty until the device is paired. */
  datatype Input = Input(event: WAEvent, ourJID: string, now: Dedup.Time)

  /** What the handler captured when it was built; hasStore is false in single-instance mode. */
  datatype Setup = Setup(filters: seq<string>, historySync: bool, hasStore: bool)

  /** What a handler remembers between events. */
  datatype State = State(synced: bool, recovery: AppStateRecovery.State)

  const FRESH := State(false, AppStateRecovery.EMPTY)

  datatype Effect =
    | CacheHistory
    | UpdateDevice(deviceJID: string, loggedIn: bool)
    | Publish(eventType: string, messageID: Option<string>)
    | Rebuild
    | LaunchFullSync(name: string)
    | RequestRecovery(name: string)

  /** No other projector produces the two events the handler publishes itself, and a message is not a system event. */
  predicate WellFormed(e: WAEvent) {
    e.Other? && e.projected.Some? ==>
      && e.projected.value.eventType !in {INITIAL_SYNC_FINISHED, LOGGED_OUT}
      && (e.projected.value.messageID.Some? ==> !IsSystemEvent(e.projected.value.eventType))
  }

  function Project(e: WAEvent): Option<Event> {
    match e
    case HistorySync(syncType, _, hasMessages) =>
      if syncType == Some(OnDemand) && hasMessages then Some(Event(MESSAGE_HISTORY_SYNC, None)) else None
    case PairSuccess(_) => Some(Event(LOGGED_IN, None))
    case LoggedOut(_) => Some(Event(LOGGED_OUT, None))
    case SyncComplete(_) => None
    case SyncError(_, _, _, _) => None
    case Other(projected) => projected
  }

  /** A history sync whose messages are cached. */
  predicate Caches(c: Setup, i: Input) {
    i.ourJID != "" && c.historySync && i.event.HistorySync?
    && i.event.syncType in {Some(InitialBootstrap), Some(Full), Some(Recent)}
  }

  /** The last message-carrying history sync of a pairing. */
  predicate EndsInitialSync(c: Setup, i: Input) {
    Caches(c, i) && i.event.syncType == Some(Recent) && i.event.progress >= 100
  }

  function RecoveryEvent(e: WAEvent): Option<AppStateRecovery.Event> {
    match e
    case SyncComplete(name) => Some(AppStateRecovery.SyncComplete(name))
    case SyncError(name, fullSync, checkedAt, storedAt) =>
      Some(AppStateRecovery.SyncError(name, fullSync, checkedAt, storedAt))
    case _ => None
  }

  function Next(c: Setup, s: State, i: Input): State {
    var r := RecoveryEvent(i.event);
    State(if i.event.PairSuccess? then false else s.synced || EndsInitialSync(c, i),
          if r.None? then s.recovery else AppStateRecovery.Step(s.recovery, r.value).0)
  }

  /** The event that reaches the dedup test and the publisher, past the filters. */
  function Passing(c: Setup, e: WAEvent): Option<Event> {
    var p := Project(e);
    if !e.LoggedOut? && p.Some? && Filters.Delivers(c.filters, p.value.eventType) then p else None
  }

  /** The message ID offered to the dedup set. */
  function Offered(c: Setup, e: WAEvent): Option<string> {
    var p := Passing(c, e);
    if p.Some? then p.value.messageID else None
  }

  /** What tracking the history causes. */
  function HistoryEffects(c: Setup, s: State, i: Input): seq<Effect> {
    (if Caches(c, i) then [CacheHistory] else [])
    + (if EndsInitialSync(c, i) && !s.synced then [Publish(INITIAL_SYNC_FINISHED, None)] else [])
  }

  /** What tracking the device and the app state causes. */
  function DeviceEffects(c: Setup, s: State, i: Input): seq<Effect> {
    match i.event
    case PairSuccess(deviceJID) => if c.hasStore then [UpdateDevice(deviceJID, true)] else []
    case LoggedOut(_) => (if c.hasStore then [UpdateDevice("", false)] else []) + [Publish(LOGGED_OUT, None), Rebuild]
    case SyncError(name, fullSync, checkedAt, storedAt) =>
      (match AppStateRecovery.Step(s.recovery, AppStateRecovery.SyncError(name, fullSync, checkedAt, storedAt)).1
       case Ignore => []
       case LaunchFullSync => [LaunchFullSync(name)]
       case RequestRecovery => [RequestRecovery(name)])
    case _ => []
  }

  /** What projecting the event publishes. */
  function ProjectedEffects(c: Setup, seen: map<string, Dedup.Time>, i: Input): seq<Effect> {
    var p := Passing(c, i.event);
    if p.None? || (p.value.messageID.Some? && p.value.messageID.value in seen) then []
    else [Publish(p.value.eventType, p.value.messageID)]
  }

  /** Everything the event causes, in order. */
  function Effects(c: Setup, s: State, seen: map<string, Dedup.Time>, i: Input): seq<Effect> {
    HistoryEffects(c, s, i) + DeviceEffects(c, s, i) + ProjectedEffects(c, seen, i)
  }

  /** The events published among these effects. */
  function Published(effects: seq<Effect>): seq<Event> {
    if effects == [] then []
    else
      var e := effects[|effects| - 1];
      var before := Published(effects[..|effects| - 1]);
      if e.Publish? then before + [Event(e.eventType, e.messageID)] else before
  }

  lemma {:induction false} PublishedConcat(a: seq<Effect>, b: seq<Effect>)
    ensures Published(a + b) == Published(a) + Published(b)
  {
    if b == [] {
      assert a + b == a;
    } else {
      var n := |b| - 1;
      PublishedConcat(a, b[..n]);
      assert (a + b)[..|a + b| - 1] == a + b[..n];
    }
  }

  function Seen(c: Setup, seen: map<string, Dedup.Time>, i: Input): map<string, Dedup.Time> {
    var id := Offered(c, i.event);
    if id.None? then seen else if id.value in seen then seen else seen[id.value := i.now]
  }

  /** What a handler has done so far: its log, and what has reached its publisher's target. */
  datatype Trail = Trail(log: seq<Effect>, received: seq<Event>)

  /** The trail after these effects: each is logged, and what is published goes through the publisher. */
  function After(t: Trail, systemOnly: bool, effects: seq<Effect>): Trail {
    Trail(t.log + effects, t.received + Forwarded(systemOnly, Published(effects)))
  }

  lemma AfterConcat(t: Trail, systemOnly: bool, a: seq<Effect>, b: seq<Effect>)
    ensures After(After(t, systemOnly, a), systemOnly, b) == After(t, systemOnly, a + b)
  {
    PublishedConcat(a, b);
    ForwardedConcat(systemOnly, Published(a), Published(b));
    var x, y := Forwarded(systemOnly, Published(a)), Forwarded(systemOnly, Published(b));
    assert t.log + a + b == t.log + (a + b);
    assert t.received + x + y == t.received + (x + y);
  }

  lemma AfterNothing(t: Trail, systemOnly: bool)
    ensures After(t, systemOnly, []) == t
  {
    assert t.log + [] == t.log && t.received + [] == t.received;
  }

  lemma AfterOne(t: Trail, systemOnly: bool, e: Effect)
    ensures After(t, systemOnly, [e]) ==
            Trail(t.log + [e],
                  t.received + if e.Publish? then Forwarded(systemOnly, [Event(e.eventType, e.messageID)]) else [])
  {
    assert [e][..0] == [];
    assert Published([]) == [] && Forwarded(systemOnly, []) == [];
  }

  class Handler {
    const setup: Setup
    const tracker: AppStateRecovery.Tracker
    const dedup: Dedup.Set
    const publisher: Publisher
    var initialSyncPublished: bool
    var log: seq<Effect>

    function View(): State
      reads this, tracker
    {
      State(initialSyncPublished, tracker.View())
    }

    function Done(): Trail
      reads this, TargetOf(publisher)
    {
      Trail(log, TargetOf(publisher).received)
    }

    constructor (setup: Setup, dedup: Dedup.Set, publisher: Publisher)
      ensures this.setup == setup && this.dedup == dedup && this.publisher == publisher && fresh(tracker)
      ensures View() == FRESH && log == []
    {
      this.setup, this.dedup, this.publisher, this.log := setup, dedup, publisher, [];
      initialSyncPublished := false;
      tracker := new AppStateRecovery.Tracker();
    }

    /** Records an effect, and publishes it if it is an event. */
    method Do(e: Effect)
      modifies this`log, TargetOf(publisher)
      ensures Done() == After(old(Done()), publisher.SystemOnly?, [e])
    {
      AfterOne(Done(), publisher.SystemOnly?, e);
      log := log + [e];
      if e.Publish? {
        Publishers.Publish(publisher, Event(e.eventType, e.messageID));
      }
    }

    method Handle(i: Input)
      modifies this, tracker, dedup, TargetOf(publisher)
      ensures View() == Next(setup, old(View()), i)
      ensures dedup.entries == Seen(setup, old(dedup.entries), i)
      ensures Done() == After(old(Done()), publisher.SystemOnly?, Effects(setup, old(View()), old(dedup.entries), i))
    {
      ghost var trail, s, seen, systemOnly := Done(), View(), dedup.entries, publisher.SystemOnly?;
      TrackHistory(i);
      var stop := TrackDevice(i);
      AfterConcat(trail, systemOnly, HistoryEffects(setup, s, i), DeviceEffects(setup, s, i));
      if stop {
        AfterNothing(Done(), systemOnly);
      } else {
        ProjectAndPublish(i);
      }
      AfterConcat(trail, systemOnly, HistoryEffects(setup, s, i) + DeviceEffects(setup, s, i),
                  ProjectedEffects(setup, seen, i));
    }

    /** The part that runs only on a paired device, for history syncs. */
    method TrackHistory(i: Input)
      modifies this, TargetOf(publisher)
      ensures initialSyncPublished == (old(initialSyncPublished) || EndsInitialSync(setup, i))
      ensures Done() == After(old(Done()), publisher.SystemOnly?, HistoryEffects(setup, old(View()), i))
    {
      if i.ourJID != "" && i.event.HistorySync? && i.event.syncType.Some? {
        var syncType := i.event.syncType.value;
        if syncType.InitialBootstrap? || syncType.Full? || syncType.Recent? {
          if setup.historySync {
            ghost var first := EndsInitialSync(setup, i) && !initialSyncPublished;
            ghost var finish := if first then [Publish(INITIAL_SYNC_FINISHED, None)] else [];
            AfterConcat(Done(), publisher.SystemOnly?, [CacheHistory], finish);
            Do(CacheHistory);
            FinishSync(syncType.Recent? && i.event.progress >= 100);
            return;
          }
        }
      }
      AfterNothing(Done(), publisher.SystemOnly?);
    }

    /** Announces the end of the initial sync, once. */
    method FinishSync(ends: bool)
      modifies this, TargetOf(publisher)
      ensures initialSyncPublished == (old(initialSyncPublished) || ends)
      ensures Done() == After(old(Done()), publisher.SystemOnly?,
                              if ends && !old(initialSyncPublished) then [Publish(INITIAL_SYNC_FINISHED, None)] else [])
    {
      if ends && !initialSyncPublished {
        initialSyncPublished := true;
        Do(Publish(INITIAL_SYNC_FINISHED, None));
      } else {
        AfterNothing(Done(), publisher.SystemOnly?);
      }
    }

    /** The switch on login, logout and app-state events; a logout is published here and stops the handling. */
    method TrackDevice(i: Input) returns (stop: bool)
      modifies this, tracker, TargetOf(publisher)
      ensures stop <==> i.event.LoggedOut?
      ensures initialSyncPublished == (!i.event.PairSuccess? && old(initialSyncPublished))
      ensures tracker.View() == var r := RecoveryEvent(i.event);
                                if r.None? then old(tracker.View())
                                else AppStateRecovery.Step(old(tracker.View()), r.value).0
      ensures Done() == After(old(Done()), publisher.SystemOnly?, DeviceEffects(setup, old(View()), i))
    {
      AfterNothing(Done(), publisher.SystemOnly?);
      stop := false;
      match i.event {
        case PairSuccess(deviceJID) =>
          initialSyncPublished := false;
          if setup.hasStore {
            Do(UpdateDevice(deviceJID, true));
          }
        case LoggedOut(reason) =>
          AfterConcat(Done(), publisher.SystemOnly?, if setup.hasStore then [UpdateDevice("", false)] else [],
                      [Publish(LOGGED_OUT, None), Rebuild]);
          if setup.hasStore {
            Do(UpdateDevice("", false));
          }
          LogOut();
          stop := true;
        case SyncComplete(name) =>
          tracker.OnSyncComplete(name);
        case SyncError(name, fullSync, checkedAt, storedAt) =>
          var action := tracker.OnSyncError(name, fullSync, checkedAt, storedAt);
          match action {
            case Ignore =>
            case LaunchFullSync => Do(LaunchFullSync(name));
            case RequestRecovery => Do(RequestRecovery(name));
          }
        case _ =>
      }
    }

    /** The logout is published directly, and the rebuild is left to another goroutine. */
    method LogOut()
      modifies this`log, TargetOf(publisher)
      ensures Done() == After(old(Done()), publisher.SystemOnly?, [Publish(LOGGED_OUT, None), Rebuild])
    {
      AfterConcat(Done(), publisher.SystemOnly?, [Publish(LOGGED_OUT, None)], [Rebuild]);
      assert [Publish(LOGGED_OUT, None)] + [Rebuild] == [Publish(LOGGED_OUT, None), Rebuild];
      Do(Publish(LOGGED_OUT, None));
      Do(Rebuild);
    }

    method ProjectAndPublish(i: Input)
      requires !i.event.LoggedOut?
      modifies this`log, dedup, TargetOf(publisher)
      ensures dedup.entries == Seen(setup, old(dedup.entries), i)
      ensures Done() == After(old(Done()), publisher.SystemOnly?, ProjectedEffects(setup, old(dedup.entries), i))
    {
      AfterNothing(Done(), publisher.SystemOnly?);
      var projected := Project(i.event);
      if projected.None? {
        return;
      }
      var passes := PassesFilters(projected.value.eventType);
      if !passes {
        return;
      }
      if projected.value.messageID.Some? {
        var duplicate := dedup.Contains(projected.value.messageID.value, i.now);
        if duplicate {
          return;
        }
      }
      Do(Publish(projected.value.eventType, projected.value.messageID));
    }

    /** The loop over the filters, skipped for system events and for an empty list. */
    method PassesFilters(eventType: string) returns (passes: bool)
      ensures passes <==> Filters.Delivers(setup.filters, eventType)
    {
      if |setup.filters| > 0 && !IsSystemEvent(eventType) {
        for n := 0 to |setup.filters|
          invariant eventType !in setup.filters[..n]
        {
          if setup.filters[n] == eventType {
            return true;
          }
        }
        assert setup.filters[..|setup.filters|] == setup.filters;
        return false;
      }
      return true;
    }
  }
}
