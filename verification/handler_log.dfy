/** What handlers publish, record and cache over whole runs, from their inputs alone. */
module EventHandlerLog {
  import opened Wrappers
  import opened EventTypes
  import opened EventHandler
  import opened EventHandlerProofs
  import Dedup
  import opened Publishers

  /** Everything handler h has done in the run. */
  function LogOf(setups: nat -> Setup, ttl: Dedup.Time, moves: seq<Move>, h: nat): seq<Effect> {
    if moves == [] then []
    else
      var before := moves[..|moves| - 1];
      var m := moves[|moves| - 1];
      LogOf(setups, ttl, before, h) +
      if m.Turn? && m.handler == h then
        Effects(setups(h), StateAfter(setups(h), InputsOf(before, h)), SeenAfter(setups, ttl, before), m.input)
      else []
  }

  // ---------- the effects of one kind ----------

  type Kind = Effect -> bool

  function Kept(log: seq<Effect>, kind: Kind): seq<Effect> {
    if log == [] then []
    else Kept(log[..|log| - 1], kind) + if kind(log[|log| - 1]) then [log[|log| - 1]] else []
  }

  lemma {:induction false} KeptConcat(a: seq<Effect>, b: seq<Effect>, kind: Kind)
    ensures Kept(a + b, kind) == Kept(a, kind) + Kept(b, kind)
  {
    if b == [] {
      assert a + b == a;
    } else {
      var n := |b| - 1;
      KeptConcat(a, b[..n], kind);
      assert (a + b)[..|a + b| - 1] == a + b[..n];
    }
  }

  lemma {:induction false} KeptNone(log: seq<Effect>, kind: Kind)
    requires forall k | 0 <= k < |log| :: !kind(log[k])
    ensures Kept(log, kind) == []
  {
    if log != [] {
      KeptNone(log[..|log| - 1], kind);
    }
  }

  lemma KeptOne(e: Effect, kind: Kind)
    ensures Kept([e], kind) == if kind(e) then [e] else []
  {
    assert [e][..0] == [];
    assert Kept([], kind) == [];
  }

  lemma KeptLast(log: seq<Effect>, e: Effect, kind: Kind)
    ensures Kept(log + [e], kind) == if kind(e) then Kept(log, kind) + [e] else Kept(log, kind)
  {
    assert (log + [e])[..|log|] == log;
  }

  /** The effects of a logout, of one kind. */
  lemma KeptOfLogout(c: Setup, s: State, i: Input, kind: Kind)
    requires i.event.LoggedOut?
    ensures var stored, logout := UpdateDevice("", false), Publish(LOGGED_OUT, None);
            var first := if c.hasStore && kind(stored) then [stored] else [];
            var second := if kind(logout) then first + [logout] else first;
            Kept(DeviceEffects(c, s, i), kind) == if kind(Rebuild) then second + [Rebuild] else second
  {
    var stored, logout := UpdateDevice("", false), Publish(LOGGED_OUT, None);
    LogoutEffects(c, s, i, stored, logout);
    if c.hasStore {
      KeptOne(stored, kind);
      KeptLast([stored], logout, kind);
      KeptLast([stored] + [logout], Rebuild, kind);
    } else {
      KeptOne(logout, kind);
      KeptLast([logout], Rebuild, kind);
    }
  }

  lemma LogoutEffects(c: Setup, s: State, i: Input, stored: Effect, logout: Effect)
    requires i.event.LoggedOut? && stored == UpdateDevice("", false) && logout == Publish(LOGGED_OUT, None)
    ensures DeviceEffects(c, s, i) == if c.hasStore then [stored] + [logout] + [Rebuild] else [logout] + [Rebuild]
  {
  }

  lemma KeptOfInput(c: Setup, s: State, seen: map<string, Dedup.Time>, i: Input, kind: Kind)
    ensures Kept(Effects(c, s, seen, i), kind)
            == Kept(HistoryEffects(c, s, i), kind) + Kept(DeviceEffects(c, s, i), kind)
               + Kept(ProjectedEffects(c, seen, i), kind)
  {
    KeptConcat(HistoryEffects(c, s, i), DeviceEffects(c, s, i), kind);
    KeptConcat(HistoryEffects(c, s, i) + DeviceEffects(c, s, i), ProjectedEffects(c, seen, i), kind);
  }

  /** What each input leaves in the log of one kind, for a rule that knows the input alone. */
  type Rule = Input -> seq<Effect>

  function Expected(inputs: seq<Input>, rule: Rule): seq<Effect> {
    if inputs == [] then [] else Expected(inputs[..|inputs| - 1], rule) + rule(inputs[|inputs| - 1])
  }

  /** The rule holds of every input, whatever the handler and the dedup set remember. */
  ghost predicate Obeys(c: Setup, kind: Kind, rule: Rule) {
    forall s: State, seen: map<string, Dedup.Time>, i: Input | WellFormed(i.event) ::
      Kept(Effects(c, s, seen, i), kind) == rule(i)
  }

  lemma {:induction false} RunObeys(setups: nat -> Setup, ttl: Dedup.Time, moves: seq<Move>, h: nat,
                                    kind: Kind, rule: Rule)
    requires AllWellFormed(InputsOf(moves, h)) && Obeys(setups(h), kind, rule)
    ensures Kept(LogOf(setups, ttl, moves, h), kind) == Expected(InputsOf(moves, h), rule)
  {
    if moves != [] {
      var before, m := moves[..|moves| - 1], moves[|moves| - 1];
      var inputs := InputsOf(before, h);
      if m.Turn? && m.handler == h {
        assert InputsOf(moves, h)[..|inputs|] == inputs;
        assert WellFormed(InputsOf(moves, h)[|inputs|].event);
        RunObeys(setups, ttl, before, h, kind, rule);
        var effects := Effects(setups(h), StateAfter(setups(h), inputs), SeenAfter(setups, ttl, before), m.input);
        KeptConcat(LogOf(setups, ttl, before, h), effects, kind);
      } else {
        assert InputsOf(moves, h) == inputs;
        assert LogOf(setups, ttl, moves, h) == LogOf(setups, ttl, before, h);
        RunObeys(setups, ttl, before, h, kind, rule);
      }
    }
  }

  // ---------- what is published ----------

  /** The event makes the handler publish one of this type that is no message, if it passes the filters. */
  predicate Yields(e: WAEvent, eventType: string) {
    match e
    case HistorySync(syncType, _, hasMessages) =>
      syncType == Some(OnDemand) && hasMessages && eventType == "message_history_sync"
    case PairSuccess(_) => eventType == "logged_in"
    case LoggedOut(_) => eventType == "logged_out"
    case Other(projected) => projected == Some(Event(eventType, None))
    case _ => false
  }

  predicate Passes(filters: seq<string>, eventType: string) {
    filters == [] || eventType in filters || eventType in {"logged_in", "logged_out", "login_error"}
  }

  /** How many of these inputs yield an event of this type that passes the filters. */
  function Yielding(filters: seq<string>, inputs: seq<Input>, eventType: string): nat {
    if inputs == [] then 0
    else
      Yielding(filters, inputs[..|inputs| - 1], eventType)
      + if Yields(inputs[|inputs| - 1].event, eventType) && Passes(filters, eventType) then 1 else 0
  }

  function Publishing(filters: seq<string>, eventType: string): Rule {
    (i: Input) => if Yields(i.event, eventType) && Passes(filters, eventType) then [Publish(eventType, None)] else []
  }

  lemma {:induction false} YieldingIsExpected(filters: seq<string>, inputs: seq<Input>, eventType: string)
    ensures |Expected(inputs, Publishing(filters, eventType))| == Yielding(filters, inputs, eventType)
  {
    if inputs != [] {
      YieldingIsExpected(filters, inputs[..|inputs| - 1], eventType);
    }
  }

  /** Publications of one type that are no message; and all publications of one type. */
  function Plain(eventType: string): Kind {
    (e: Effect) => e == Publish(eventType, None)
  }

  function OfType(eventType: string): Kind {
    (e: Effect) => e.Publish? && e.eventType == eventType
  }

  lemma {:induction false} PublishedIsKept(log: seq<Effect>, eventType: string)
    ensures multiset(Published(log))[Event(eventType, None)] == |Kept(log, Plain(eventType))|
    ensures Count(Published(log), eventType) == |Kept(log, OfType(eventType))|
  {
    if log != [] {
      var n := |log| - 1;
      PublishedIsKept(log[..n], eventType);
      var before := Published(log[..n]);
      if log[n].Publish? {
        assert Published(log) == before + [Event(log[n].eventType, log[n].messageID)];
        assert Published(log)[..|before|] == before;
      }
    }
  }

  lemma HistoryYieldsNone(c: Setup, s: State, i: Input, kind: Kind)
    requires !kind(CacheHistory) && !kind(Publish(INITIAL_SYNC_FINISHED, None))
    ensures Kept(HistoryEffects(c, s, i), kind) == []
  {
    KeptNone(HistoryEffects(c, s, i), kind);
  }

  /** This kind sees the plain publications of the type and, of a system type, all there are. */
  ghost predicate Sees(kind: Kind, eventType: string) {
    eventType != INITIAL_SYNC_FINISHED
    && (kind == Plain(eventType) || (kind == OfType(eventType) && IsSystemEvent(eventType)))
  }

  lemma DevicePublishes(c: Setup, s: State, i: Input, eventType: string, kind: Kind)
    requires Sees(kind, eventType)
    ensures Kept(DeviceEffects(c, s, i), kind) ==
            if i.event.LoggedOut? && eventType == LOGGED_OUT then [Publish(LOGGED_OUT, None)] else []
  {
    if i.event.LoggedOut? {
      KeptOfLogout(c, s, i, kind);
    } else {
      KeptNone(DeviceEffects(c, s, i), kind);
    }
  }

  lemma ProjectedPublishes(c: Setup, seen: map<string, Dedup.Time>, i: Input, eventType: string, kind: Kind)
    requires WellFormed(i.event) && Sees(kind, eventType)
    ensures Kept(ProjectedEffects(c, seen, i), kind) ==
            if !i.event.LoggedOut? && Yields(i.event, eventType) && Passes(c.filters, eventType)
            then [Publish(eventType, None)] else []
  {
    var projected := ProjectedEffects(c, seen, i);
    if projected == [] {
      KeptNone(projected, kind);
    } else {
      KeptOne(projected[0], kind);
    }
  }

  lemma InputPublishes(c: Setup, s: State, seen: map<string, Dedup.Time>, i: Input, eventType: string, kind: Kind)
    requires WellFormed(i.event) && Sees(kind, eventType)
    ensures Kept(Effects(c, s, seen, i), kind) == Publishing(c.filters, eventType)(i)
  {
    KeptOfInput(c, s, seen, i, kind);
    HistoryYieldsNone(c, s, i, kind);
    DevicePublishes(c, s, i, eventType, kind);
    ProjectedPublishes(c, seen, i, eventType, kind);
    OneOfThree([Publish(eventType, None)]);
  }

  lemma OneOfThree(a: seq<Effect>)
    ensures a + [] + [] == a && [] + a + [] == a && [] + [] + a == a
  {
  }

  /** Over every run of handlers with any filters and a shared dedup set, for every event type but the end of the
      initial sync: what handler h has published of that type, messages aside, is as often there as inputs of h
      yield it and the filters pass it; through the wrapper only system events reach the target, and those all. */
  lemma EventsReachTarget(setups: nat -> Setup, ttl: Dedup.Time, moves: seq<Move>, h: nat, systemOnly: bool,
                          eventType: string)
    requires AllWellFormed(InputsOf(moves, h)) && eventType != "initial_sync_finished"
    ensures var published := Published(LogOf(setups, ttl, moves, h));
            var yielded := Yielding(setups(h).filters, InputsOf(moves, h), eventType);
            && multiset(published)[Event(eventType, None)] == yielded
            && multiset(Forwarded(systemOnly, published))[Event(eventType, None)]
               == if systemOnly && eventType !in {"logged_in", "logged_out", "login_error"} then 0 else yielded
  {
    var c, inputs := setups(h), InputsOf(moves, h);
    forall s: State, seen: map<string, Dedup.Time>, i: Input | WellFormed(i.event)
      ensures Kept(Effects(c, s, seen, i), Plain(eventType)) == Publishing(c.filters, eventType)(i)
    {
      InputPublishes(c, s, seen, i, eventType, Plain(eventType));
    }
    RunObeys(setups, ttl, moves, h, Plain(eventType), Publishing(c.filters, eventType));
    YieldingIsExpected(c.filters, inputs, eventType);
    PublishedIsKept(LogOf(setups, ttl, moves, h), eventType);
    ForwardedMeaning(systemOnly, Published(LogOf(setups, ttl, moves, h)), Event(eventType, None));
  }

  /** So every logged_in, logged_out and login_error event an input yields reaches the target exactly once,
      wrapper or not, and nothing else of these types does. */
  lemma SystemEventsReachTarget(setups: nat -> Setup, ttl: Dedup.Time, moves: seq<Move>, h: nat, systemOnly: bool,
                                eventType: string)
    requires AllWellFormed(InputsOf(moves, h)) && eventType in {"logged_in", "logged_out", "login_error"}
    ensures Count(Forwarded(systemOnly, Published(LogOf(setups, ttl, moves, h))), eventType)
            == Yielding([], InputsOf(moves, h), eventType)
  {
    var c, inputs := setups(h), InputsOf(moves, h);
    forall s: State, seen: map<string, Dedup.Time>, i: Input | WellFormed(i.event)
      ensures Kept(Effects(c, s, seen, i), OfType(eventType)) == Publishing([], eventType)(i)
    {
      InputPublishes(c, s, seen, i, eventType, OfType(eventType));
    }
    RunObeys(setups, ttl, moves, h, OfType(eventType), Publishing([], eventType));
    YieldingIsExpected([], inputs, eventType);
    PublishedIsKept(LogOf(setups, ttl, moves, h), eventType);
    WrapperForwards(systemOnly, Published(LogOf(setups, ttl, moves, h)), eventType);
  }

  function LoggedOuts(inputs: seq<Input>): nat {
    if inputs == [] then 0
    else LoggedOuts(inputs[..|inputs| - 1]) + if inputs[|inputs| - 1].event.LoggedOut? then 1 else 0
  }

  lemma {:induction false} LogoutsYield(inputs: seq<Input>)
    requires AllWellFormed(inputs)
    ensures Yielding([], inputs, LOGGED_OUT) == LoggedOuts(inputs)
  {
    if inputs != [] {
      LogoutsYield(inputs[..|inputs| - 1]);
      assert WellFormed(inputs[|inputs| - 1].event);
    }
  }

  /** A logout published here was stored just before, and a rebuild follows at once; a login is published right
      after its device is stored. */
  ghost predicate InOrderAt(log: seq<Effect>, k: nat, hasStore: bool)
    requires k < |log|
  {
    && (log[k].Publish? && log[k].eventType == LOGGED_OUT ==>
          k + 1 < |log| && log[k + 1] == Rebuild && (hasStore ==> k > 0 && log[k - 1] == UpdateDevice("", false)))
    && (log[k].UpdateDevice? && log[k].loggedIn ==> k + 1 < |log| && log[k + 1] == Publish(LOGGED_IN, None))
  }

  ghost predicate DeviceInOrder(log: seq<Effect>, hasStore: bool) {
    forall k: nat | k < |log| :: InOrderAt(log, k, hasStore)
  }

  lemma InputInOrder(c: Setup, s: State, seen: map<string, Dedup.Time>, i: Input)
    requires WellFormed(i.event)
    ensures DeviceInOrder(Effects(c, s, seen, i), c.hasStore)
  {
  }

  lemma InOrderConcat(a: seq<Effect>, b: seq<Effect>, hasStore: bool)
    requires DeviceInOrder(a, hasStore) && DeviceInOrder(b, hasStore)
    ensures DeviceInOrder(a + b, hasStore)
  {
    forall k: nat | k < |a + b| ensures InOrderAt(a + b, k, hasStore) {
      if k < |a| {
        assert InOrderAt(a, k, hasStore);
      } else {
        assert InOrderAt(b, k - |a|, hasStore);
      }
    }
  }

  lemma {:induction false} RunInOrder(setups: nat -> Setup, ttl: Dedup.Time, moves: seq<Move>, h: nat)
    requires AllWellFormed(InputsOf(moves, h))
    ensures DeviceInOrder(LogOf(setups, ttl, moves, h), setups(h).hasStore)
  {
    if moves != [] {
      var before, m := moves[..|moves| - 1], moves[|moves| - 1];
      var inputs := InputsOf(before, h);
      if m.Turn? && m.handler == h {
        assert InputsOf(moves, h)[..|inputs|] == inputs;
        assert WellFormed(InputsOf(moves, h)[|inputs|].event);
        RunInOrder(setups, ttl, before, h);
        InputInOrder(setups(h), StateAfter(setups(h), inputs), SeenAfter(setups, ttl, before), m.input);
        InOrderConcat(LogOf(setups, ttl, before, h),
                      Effects(setups(h), StateAfter(setups(h), inputs), SeenAfter(setups, ttl, before), m.input),
                      setups(h).hasStore);
      } else {
        assert InputsOf(moves, h) == inputs;
        assert LogOf(setups, ttl, moves, h) == LogOf(setups, ttl, before, h);
        RunInOrder(setups, ttl, before, h);
      }
    }
  }

  /** Over every run: a handler publishes logged_out exactly as often as it is logged out, each time after
      storing it and right before asking for a rebuild; and logged_in right after each device it stores. */
  lemma LoggedOutOnce(setups: nat -> Setup, ttl: Dedup.Time, moves: seq<Move>, h: nat)
    requires AllWellFormed(InputsOf(moves, h))
    ensures Count(Published(LogOf(setups, ttl, moves, h)), LOGGED_OUT) == LoggedOuts(InputsOf(moves, h))
    ensures DeviceInOrder(LogOf(setups, ttl, moves, h), setups(h).hasStore)
  {
    SystemEventsReachTarget(setups, ttl, moves, h, false, LOGGED_OUT);
    ForwardedMeaning(false, Published(LogOf(setups, ttl, moves, h)), Event(LOGGED_OUT, None));
    LogoutsYield(InputsOf(moves, h));
    RunInOrder(setups, ttl, moves, h);
  }

  // ---------- what is recorded and cached ----------

  predicate ChangesDevice(e: Effect) {
    e.UpdateDevice? || e.Rebuild?
  }

  /** A pairing stores its device, a logout stores that there is none and asks for a rebuild. */
  function Recording(hasStore: bool): Rule {
    (i: Input) =>
      match i.event
      case PairSuccess(deviceJID) => if hasStore then [UpdateDevice(deviceJID, true)] else []
      case LoggedOut(_) => if hasStore then [UpdateDevice("", false), Rebuild] else [Rebuild]
      case _ => []
  }

  lemma DeviceRecords(c: Setup, s: State, i: Input)
    ensures Kept(DeviceEffects(c, s, i), ChangesDevice) == Recording(c.hasStore)(i)
  {
    match i.event {
      case PairSuccess(deviceJID) =>
        KeptNone([], ChangesDevice);
        KeptOne(UpdateDevice(deviceJID, true), ChangesDevice);
      case LoggedOut(_) => KeptOfLogout(c, s, i, ChangesDevice);
      case _ => KeptNone(DeviceEffects(c, s, i), ChangesDevice);
    }
  }

  lemma OthersRecordNothing(c: Setup, s: State, seen: map<string, Dedup.Time>, i: Input)
    ensures Kept(HistoryEffects(c, s, i), ChangesDevice) == []
    ensures Kept(ProjectedEffects(c, seen, i), ChangesDevice) == []
  {
    KeptNone(HistoryEffects(c, s, i), ChangesDevice);
    KeptNone(ProjectedEffects(c, seen, i), ChangesDevice);
  }

  lemma InputRecords(c: Setup, s: State, seen: map<string, Dedup.Time>, i: Input)
    ensures Kept(Effects(c, s, seen, i), ChangesDevice) == Recording(c.hasStore)(i)
  {
    KeptOfInput(c, s, seen, i, ChangesDevice);
    OthersRecordNothing(c, s, seen, i);
    DeviceRecords(c, s, i);
    OneOfThree(Recording(c.hasStore)(i));
  }

  /** Over every run: the device updates and rebuilds in a handler's log are those of its pairings and logouts, in
      order, each with its device. */
  lemma DevicesRecorded(setups: nat -> Setup, ttl: Dedup.Time, moves: seq<Move>, h: nat)
    requires AllWellFormed(InputsOf(moves, h))
    ensures Kept(LogOf(setups, ttl, moves, h), ChangesDevice)
            == Expected(InputsOf(moves, h), Recording(setups(h).hasStore))
  {
    forall s: State, seen: map<string, Dedup.Time>, i: Input | WellFormed(i.event)
      ensures Kept(Effects(setups(h), s, seen, i), ChangesDevice) == Recording(setups(h).hasStore)(i)
    {
      InputRecords(setups(h), s, seen, i);
    }
    RunObeys(setups, ttl, moves, h, ChangesDevice, Recording(setups(h).hasStore));
  }

  predicate Caching(e: Effect) {
    e.CacheHistory?
  }

  /** A paired device that keeps history caches the batches of its initial, full and recent syncs. */
  function CachedBatch(historySync: bool): Rule {
    (i: Input) =>
      match i.event
      case HistorySync(Some(syncType), _, _) =>
        if historySync && i.ourJID != "" && !syncType.OnDemand? && !syncType.OtherSync? then [CacheHistory] else []
      case _ => []
  }

  lemma KeptOfBatch(c: Setup, s: State, i: Input)
    ensures Kept(HistoryEffects(c, s, i), Caching) == if Caches(c, i) then [CacheHistory] else []
  {
    if !Caches(c, i) {
      KeptNone(HistoryEffects(c, s, i), Caching);
    } else if EndsInitialSync(c, i) && !s.synced {
      KeptOne(CacheHistory, Caching);
      KeptLast([CacheHistory], Publish(INITIAL_SYNC_FINISHED, None), Caching);
    } else {
      KeptOne(CacheHistory, Caching);
      assert HistoryEffects(c, s, i) == [CacheHistory];
    }
  }

  lemma NothingCached(c: Setup, s: State, seen: map<string, Dedup.Time>, i: Input)
    ensures Kept(DeviceEffects(c, s, i), Caching) == [] && Kept(ProjectedEffects(c, seen, i), Caching) == []
  {
    if i.event.LoggedOut? {
      KeptOfLogout(c, s, i, Caching);
    } else {
      KeptNone(DeviceEffects(c, s, i), Caching);
    }
    KeptNone(ProjectedEffects(c, seen, i), Caching);
  }

  lemma CachesIff(c: Setup, i: Input)
    ensures CachedBatch(c.historySync)(i) == if Caches(c, i) then [CacheHistory] else []
  {
  }

  lemma InputCaches(c: Setup, s: State, seen: map<string, Dedup.Time>, i: Input)
    ensures Kept(Effects(c, s, seen, i), Caching) == CachedBatch(c.historySync)(i)
  {
    KeptOfInput(c, s, seen, i, Caching);
    NothingCached(c, s, seen, i);
    KeptOfBatch(c, s, i);
    CachesIff(c, i);
    OneOfThree(CachedBatch(c.historySync)(i));
  }

  /** Over every run: a handler caches exactly these. */
  lemma BatchesCached(setups: nat -> Setup, ttl: Dedup.Time, moves: seq<Move>, h: nat)
    requires AllWellFormed(InputsOf(moves, h))
    ensures Kept(LogOf(setups, ttl, moves, h), Caching)
            == Expected(InputsOf(moves, h), CachedBatch(setups(h).historySync))
  {
    forall s: State, seen: map<string, Dedup.Time>, i: Input | WellFormed(i.event)
      ensures Kept(Effects(setups(h), s, seen, i), Caching) == CachedBatch(setups(h).historySync)(i)
    {
      InputCaches(setups(h), s, seen, i);
    }
    RunObeys(setups, ttl, moves, h, Caching, CachedBatch(setups(h).historySync));
  }
}
