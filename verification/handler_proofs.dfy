/** Properties of whole runs of event handlers, one alone and several sharing a dedup set. */
module EventHandlerProofs {
  import opened Wrappers
  import opened EventTypes
  import opened EventHandler
  import Filters
  import AppStateRecovery
  import Dedup
  import opened Publishers

  // ---------- one handler ----------

  function StateAfter(c: Setup, inputs: seq<Input>): State {
    if inputs == [] then FRESH else Next(c, StateAfter(c, inputs[..|inputs| - 1]), inputs[|inputs| - 1])
  }

  /** On a paired device that keeps history, a batch of recent messages that completes the sync. */
  predicate CompletesSync(c: Setup, i: Input) {
    c.historySync && i.ourJID != "" && i.event.HistorySync? && i.event.syncType == Some(Recent)
    && i.event.progress >= 100
  }

  /** Input n makes the handler attempt to publish initial_sync_finished. */
  ghost predicate FinishesSync(c: Setup, inputs: seq<Input>, n: nat)
    requires n < |inputs|
  {
    exists seen :: Publish(INITIAL_SYNC_FINISHED, None) in Effects(c, StateAfter(c, inputs[..n]), seen, inputs[n])
  }

  ghost predicate AllWellFormed(inputs: seq<Input>) {
    forall n | 0 <= n < |inputs| :: WellFormed(inputs[n].event)
  }

  lemma SyncEffects(c: Setup, s: State, seen: map<string, Dedup.Time>, i: Input)
    requires WellFormed(i.event)
    ensures Publish(INITIAL_SYNC_FINISHED, None) in Effects(c, s, seen, i) <==> CompletesSync(c, i) && !s.synced
    ensures CompletesSync(c, i) && !s.synced ==>
              Effects(c, s, seen, i) == [CacheHistory, Publish(INITIAL_SYNC_FINISHED, None)]
  {
  }

  lemma FinishesSyncAt(c: Setup, inputs: seq<Input>, n: nat)
    requires AllWellFormed(inputs) && n < |inputs|
    ensures FinishesSync(c, inputs, n) <==> CompletesSync(c, inputs[n]) && !StateAfter(c, inputs[..n]).synced
    ensures FinishesSync(c, inputs, n) ==>
              forall seen :: Effects(c, StateAfter(c, inputs[..n]), seen, inputs[n])
                             == [CacheHistory, Publish(INITIAL_SYNC_FINISHED, None)]
  {
    var s := StateAfter(c, inputs[..n]);
    assert WellFormed(inputs[n].event);
    forall seen: map<string, Dedup.Time>
      ensures Publish(INITIAL_SYNC_FINISHED, None) in Effects(c, s, seen, inputs[n])
              <==> CompletesSync(c, inputs[n]) && !s.synced
      ensures CompletesSync(c, inputs[n]) && !s.synced ==>
                Effects(c, s, seen, inputs[n]) == [CacheHistory, Publish(INITIAL_SYNC_FINISHED, None)]
    {
      SyncEffects(c, s, seen, inputs[n]);
    }
    assert Publish(INITIAL_SYNC_FINISHED, None) in Effects(c, s, map[], inputs[n])
           <==> CompletesSync(c, inputs[n]) && !s.synced;
  }

  lemma SyncedNext(c: Setup, s: State, i: Input)
    ensures Next(c, s, i).synced <==> CompletesSync(c, i) || (s.synced && !i.event.PairSuccess?)
  {
  }

  /** Input i ends an initial sync, and no pairing has come after it. */
  ghost predicate EndedAt(c: Setup, inputs: seq<Input>, i: nat)
    requires i < |inputs|
  {
    CompletesSync(c, inputs[i]) && forall k | i < k < |inputs| :: !inputs[k].event.PairSuccess?
  }

  lemma EndedKept(c: Setup, inputs: seq<Input>, last: Input, i: nat)
    requires i < |inputs|
    ensures EndedAt(c, inputs + [last], i) <==> EndedAt(c, inputs, i) && !last.event.PairSuccess?
  {
    var longer := inputs + [last];
    assert longer[|inputs|] == last && forall k | 0 <= k < |inputs| :: longer[k] == inputs[k];
  }

  lemma EndedNext(c: Setup, inputs: seq<Input>, last: Input)
    ensures var longer := inputs + [last];
            (exists i: nat :: i < |longer| && EndedAt(c, longer, i))
            <==> CompletesSync(c, last)
                 || (!last.event.PairSuccess? && exists i: nat :: i < |inputs| && EndedAt(c, inputs, i))
  {
    var longer := inputs + [last];
    forall i: nat | i < |inputs|
      ensures EndedAt(c, longer, i) <==> EndedAt(c, inputs, i) && !last.event.PairSuccess?
    {
      EndedKept(c, inputs, last, i);
    }
    assert EndedAt(c, longer, |inputs|) <==> CompletesSync(c, last);
  }

  lemma {:induction false} SyncedIff(c: Setup, inputs: seq<Input>)
    ensures StateAfter(c, inputs).synced <==> exists i: nat :: i < |inputs| && EndedAt(c, inputs, i)
  {
    if inputs != [] {
      var n := |inputs| - 1;
      SyncedIff(c, inputs[..n]);
      SyncedNext(c, StateAfter(c, inputs[..n]), inputs[n]);
      EndedNext(c, inputs[..n], inputs[n]);
      assert inputs == inputs[..n] + [inputs[n]];
    }
  }

  /** initial_sync_finished is attempted exactly on the first input since the last pairing that ends an
      initial sync, and the history is cached just before it. */
  lemma InitialSyncOncePerPairing(c: Setup, inputs: seq<Input>, n: nat)
    requires AllWellFormed(inputs) && n < |inputs|
    ensures FinishesSync(c, inputs, n) <==>
              && CompletesSync(c, inputs[n])
              && forall i: nat | i < n && CompletesSync(c, inputs[i]) ::
                   exists k :: i < k < n && inputs[k].event.PairSuccess?
    ensures FinishesSync(c, inputs, n) ==>
              forall seen :: Effects(c, StateAfter(c, inputs[..n]), seen, inputs[n])
                             == [CacheHistory, Publish(INITIAL_SYNC_FINISHED, None)]
  {
    FinishesSyncAt(c, inputs, n);
    SyncedIff(c, inputs[..n]);
    var before := inputs[..n];
    assert forall i | 0 <= i < n :: before[i] == inputs[i];
    forall i: nat | i < n
      ensures EndedAt(c, before, i) <==>
              CompletesSync(c, inputs[i]) && forall k | i < k < n :: !inputs[k].event.PairSuccess?
    {
    }
  }

  /** The completions and errors of app-state syncs among the inputs. */
  function RecoveryEvents(inputs: seq<Input>): seq<AppStateRecovery.Event> {
    if inputs == [] then []
    else
      var before := RecoveryEvents(inputs[..|inputs| - 1]);
      match inputs[|inputs| - 1].event
      case SyncComplete(name) => before + [AppStateRecovery.SyncComplete(name)]
      case SyncError(name, fullSync, checkedAt, storedAt) =>
        before + [AppStateRecovery.SyncError(name, fullSync, checkedAt, storedAt)]
      case _ => before
  }

  lemma {:induction false} RecoveryStateIsRun(c: Setup, inputs: seq<Input>)
    ensures StateAfter(c, inputs).recovery == AppStateRecovery.Run(RecoveryEvents(inputs))
  {
    if inputs != [] {
      var n := |inputs| - 1;
      RecoveryStateIsRun(c, inputs[..n]);
      var events := RecoveryEvents(inputs);
      if RecoveryEvent(inputs[n].event).Some? {
        assert events[..|events| - 1] == RecoveryEvents(inputs[..n]);
      } else {
        assert events == RecoveryEvents(inputs[..n]);
      }
    }
  }

  lemma SyncErrorEffects(c: Setup, s: State, seen: map<string, Dedup.Time>, i: Input)
    requires i.event.SyncError?
    ensures Effects(c, s, seen, i) ==
      match AppStateRecovery.Step(s.recovery, RecoveryEvent(i.event).value).1
      case Ignore => []
      case LaunchFullSync => [LaunchFullSync(i.event.name)]
      case RequestRecovery => [RequestRecovery(i.event.name)]
  {
  }

  /** What the handler launches on a sync error is the escalation's decision on the error events so far,
      whatever other events came in between. */
  lemma LaunchesFollowEscalation(c: Setup, inputs: seq<Input>, n: nat, seen: map<string, Dedup.Time>)
    requires n < |inputs| && inputs[n].event.SyncError?
    ensures var events := RecoveryEvents(inputs[..n + 1]);
            var name := inputs[n].event.name;
            var effects := Effects(c, StateAfter(c, inputs[..n]), seen, inputs[n]);
            && events != []
            && (effects == [LaunchFullSync(name)] <==>
                  AppStateRecovery.ActionAt(events, |events| - 1) == AppStateRecovery.LaunchFullSync)
            && (effects == [RequestRecovery(name)] <==>
                  AppStateRecovery.ActionAt(events, |events| - 1) == AppStateRecovery.RequestRecovery)
  {
    var upTo := inputs[..n + 1];
    assert upTo[..n] == inputs[..n];
    var events := RecoveryEvents(upTo);
    assert events[..|events| - 1] == RecoveryEvents(inputs[..n]);
    RecoveryStateIsRun(c, inputs[..n]);
    var s := StateAfter(c, inputs[..n]);
    SyncErrorEffects(c, s, seen, inputs[n]);
  }

  // ---------- handlers sharing a dedup set ----------

  /** Handlers of one instance, old and rebuilt, take turns on events; the cleanup ticker runs between. */
  datatype Move = Turn(handler: nat, input: Input) | Tick(now: Dedup.Time)

  function NowOf(m: Move): Dedup.Time {
    if m.Turn? then m.input.now else m.now
  }

  function SeenAfter(setups: nat -> Setup, ttl: Dedup.Time, moves: seq<Move>): map<string, Dedup.Time> {
    if moves == [] then map[]
    else
      var seen := SeenAfter(setups, ttl, moves[..|moves| - 1]);
      match moves[|moves| - 1]
      case Turn(h, input) => Seen(setups(h), seen, input)
      case Tick(now) => Dedup.Purged(seen, ttl, now)
  }

  function InputsOf(moves: seq<Move>, h: nat): seq<Input> {
    if moves == [] then []
    else
      var m := moves[|moves| - 1];
      InputsOf(moves[..|moves| - 1], h) + if m.Turn? && m.handler == h then [m.input] else []
  }

  /** Move n makes its handler attempt to publish this message. */
  ghost predicate Attempts(setups: nat -> Setup, ttl: Dedup.Time, moves: seq<Move>, n: nat, id: string)
    requires n < |moves|
  {
    && moves[n].Turn?
    && var h := moves[n].handler;
       exists eventType :: Publish(eventType, Some(id)) in
         Effects(setups(h), StateAfter(setups(h), InputsOf(moves[..n], h)), SeenAfter(setups, ttl, moves[..n]),
                 moves[n].input)
  }

  /** What a move asks of the dedup set. */
  function DedupOp(setups: nat -> Setup, m: Move): Option<Dedup.Op> {
    match m
    case Tick(now) => Some(Dedup.Purge(now))
    case Turn(h, input) =>
      var id := Offered(setups(h), input.event);
      if id.Some? then Some(Dedup.Arrive(id.value, input.now)) else None
  }

  /** What the moves ask of the dedup set. */
  function DedupOps(setups: nat -> Setup, moves: seq<Move>): seq<Dedup.Op> {
    if moves == [] then []
    else
      var ops, op := DedupOps(setups, moves[..|moves| - 1]), DedupOp(setups, moves[|moves| - 1]);
      if op.Some? then ops + [op.value] else ops
  }

  lemma SeenNext(setups: nat -> Setup, ttl: Dedup.Time, moves: seq<Move>)
    requires moves != []
    ensures var before, op := SeenAfter(setups, ttl, moves[..|moves| - 1]), DedupOp(setups, moves[|moves| - 1]);
            SeenAfter(setups, ttl, moves) == if op.Some? then Dedup.Step(before, ttl, op.value) else before
  {
  }

  lemma {:induction false} SeenIsDedupRun(setups: nat -> Setup, ttl: Dedup.Time, moves: seq<Move>)
    ensures SeenAfter(setups, ttl, moves) == Dedup.Run(ttl, DedupOps(setups, moves))
  {
    if moves != [] {
      var n := |moves| - 1;
      SeenIsDedupRun(setups, ttl, moves[..n]);
      SeenNext(setups, ttl, moves);
      var before, op := DedupOps(setups, moves[..n]), DedupOp(setups, moves[n]);
      if op.Some? {
        assert (before + [op.value])[..|before|] == before;
      }
    }
  }

  lemma {:induction false} DedupOpsPrefix(setups: nat -> Setup, moves: seq<Move>, n: nat)
    requires n <= |moves|
    ensures var ops, before := DedupOps(setups, moves), DedupOps(setups, moves[..n]);
            |before| <= |ops| && ops[..|before|] == before
    decreases |moves|
  {
    if n < |moves| {
      var last := |moves| - 1;
      DedupOpsPrefix(setups, moves[..last], n);
      assert moves[..last][..n] == moves[..n];
    } else {
      assert moves[..n] == moves;
    }
  }

  lemma {:induction false} DedupOpsClocked(setups: nat -> Setup, moves: seq<Move>)
    requires forall i, j | 0 <= i < j < |moves| :: NowOf(moves[i]) <= NowOf(moves[j])
    ensures var ops := DedupOps(setups, moves);
            Dedup.Clocked(ops) && forall k | 0 <= k < |ops| :: moves != [] && ops[k].now <= NowOf(moves[|moves| - 1])
  {
    if moves != [] {
      var n := |moves| - 1;
      DedupOpsClocked(setups, moves[..n]);
    }
  }

  lemma AttemptIsOffered(c: Setup, s: State, seen: map<string, Dedup.Time>, i: Input, id: string)
    requires exists eventType :: Publish(eventType, Some(id)) in Effects(c, s, seen, i)
    ensures Offered(c, i.event) == Some(id) && id !in seen
  {
  }

  lemma AttemptArrives(setups: nat -> Setup, ttl: Dedup.Time, moves: seq<Move>, n: nat, id: string)
    requires n < |moves| && Attempts(setups, ttl, moves, n, id)
    ensures DedupOps(setups, moves[..n + 1]) == DedupOps(setups, moves[..n]) + [Dedup.Arrive(id, NowOf(moves[n]))]
    ensures id !in SeenAfter(setups, ttl, moves[..n])
  {
    var h := moves[n].handler;
    AttemptIsOffered(setups(h), StateAfter(setups(h), InputsOf(moves[..n], h)), SeenAfter(setups, ttl, moves[..n]),
                     moves[n].input, id);
    assert moves[..n + 1][..n] == moves[..n];
  }

  /** An attempt to publish a message is an arrival the dedup set lets through. */
  lemma AttemptIsAccepted(setups: nat -> Setup, ttl: Dedup.Time, moves: seq<Move>, n: nat, id: string)
    requires n < |moves| && Attempts(setups, ttl, moves, n, id)
    ensures var ops, k := DedupOps(setups, moves), |DedupOps(setups, moves[..n])|;
            Dedup.Accepted(ttl, ops, k) && ops[k] == Dedup.Arrive(id, NowOf(moves[n]))
            && k < |DedupOps(setups, moves[..n + 1])| <= |ops|
  {
    var ops, before, upTo := DedupOps(setups, moves), DedupOps(setups, moves[..n]), DedupOps(setups, moves[..n + 1]);
    AttemptArrives(setups, ttl, moves, n, id);
    SeenIsDedupRun(setups, ttl, moves[..n]);
    DedupOpsPrefix(setups, moves, n + 1);
    assert ops == before + [Dedup.Arrive(id, NowOf(moves[n]))] + ops[|upTo|..];
    assert ops[..|before|] == before;
  }

  /** Over any run of any handlers sharing one dedup set, two attempts to publish the same message are
      strictly more than the TTL apart. */
  lemma MessageOncePerWindow(setups: nat -> Setup, ttl: Dedup.Time, moves: seq<Move>, m: nat, n: nat, id: string)
    requires forall i, j | 0 <= i < j < |moves| :: NowOf(moves[i]) <= NowOf(moves[j])
    requires m < n < |moves| && Attempts(setups, ttl, moves, m, id) && Attempts(setups, ttl, moves, n, id)
    ensures NowOf(moves[n]) - NowOf(moves[m]) > ttl
  {
    var ops := DedupOps(setups, moves);
    DedupOpsClocked(setups, moves);
    AttemptIsAccepted(setups, ttl, moves, m, id);
    AttemptIsAccepted(setups, ttl, moves, n, id);
    var k, l := |DedupOps(setups, moves[..m])|, |DedupOps(setups, moves[..n])|;
    assert k < l by {
      DedupOpsPrefix(setups, moves[..n], m + 1);
      assert moves[..n][..m + 1] == moves[..m + 1];
    }
    Dedup.AcceptancesApart(ttl, ops, k, l);
  }

  /** A message is published exactly when it passes the filters and is not remembered, and one that the
      filters stop leaves no trace in the dedup set. */
  lemma MessagePublishedIff(c: Setup, s: State, seen: map<string, Dedup.Time>, i: Input, eventType: string, id: string)
    requires i.event == Other(Some(Event(eventType, Some(id))))
    ensures Publish(eventType, Some(id)) in Effects(c, s, seen, i)
            <==> Filters.Delivers(c.filters, eventType) && id !in seen
    ensures Seen(c, seen, i) ==
            if Filters.Delivers(c.filters, eventType) && id !in seen then seen[id := i.now] else seen
  {
  }

  /** Over any run: a handler attempts a message exactly when it passes the filters and no earlier arrival of its ID,
      at any of the handlers, was let through and is still remembered. */
  lemma MessageAttemptedIff(setups: nat -> Setup, ttl: Dedup.Time, moves: seq<Move>, n: nat,
                            eventType: string, id: string)
    requires n < |moves| && moves[n].Turn? && moves[n].input.event == Other(Some(Event(eventType, Some(id))))
    ensures var ops := DedupOps(setups, moves[..n]);
            Attempts(setups, ttl, moves, n, id) <==>
              && Filters.Delivers(setups(moves[n].handler).filters, eventType)
              && forall k: nat | Dedup.Remembered(ttl, ops, k, |ops|) :: ops[k].id != id
  {
    var h := moves[n].handler;
    var s, seen := StateAfter(setups(h), InputsOf(moves[..n], h)), SeenAfter(setups, ttl, moves[..n]);
    MessagePublishedIff(setups(h), s, seen, moves[n].input, eventType, id);
    SeenIsDedupRun(setups, ttl, moves[..n]);
    Dedup.EntriesAreRemembered(ttl, DedupOps(setups, moves[..n]), id);
    if Attempts(setups, ttl, moves, n, id) {
      AttemptIsOffered(setups(h), s, seen, moves[n].input, id);
    }
  }
}
