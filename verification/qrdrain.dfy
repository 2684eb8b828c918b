/** drainQRChannel: forward the first item to a one-slot channel, then keep the source flowing. */
module QRDrain {
  type Item = string

  /** What one turn of the drain's select yields. */
  datatype Event = Received(item: Item) | SourceClosed | Expired

  /** The one-slot channel given to the caller; `sent` is everything ever put in it. */
  class Slot {
    var buffer: seq<Item>
    var closed: bool
    ghost var sent: seq<Item>

    constructor ()
      ensures buffer == [] && !closed && sent == []
    {
      buffer, closed, sent := [], false, [];
    }

    /** A send that does not block: there is room. */
    method Send(item: Item)
      requires |buffer| < 1 && !closed
      modifies this
      ensures buffer == old(buffer) + [item] && sent == old(sent) + [item] && closed == old(closed)
    {
      buffer := buffer + [item];
      sent := sent + [item];
    }

    /** The consumer takes the item, if it is there. */
    method Take()
      modifies this
      ensures buffer == [] && sent == old(sent) && closed == old(closed)
    {
      buffer := [];
    }

    method Close()
      requires !closed
      modifies this
      ensures closed && buffer == old(buffer) && sent == old(sent)
    {
      closed := true;
    }
  }

  predicate Ends(e: Event) {
    !e.Received?
  }

  /** How many events the drain takes: up to and including the first that ends it. */
  function Taken(events: seq<Event>): (n: nat)
    ensures n <= |events|
    ensures forall i | 0 <= i < n - 1 :: !Ends(events[i])
    ensures n < |events| ==> n > 0 && Ends(events[n - 1])
  {
    if events == [] then 0 else if Ends(events[0]) then 1 else 1 + Taken(events[1..])
  }

  /** The drain loop over the events its select yields, with the consumer taking or not after each.
      Whatever the consumer does every send finds room; only the first item is ever sent; the slot is
      closed exactly when an event has ended the drain. */
  method Drain(events: seq<Event>, consumer: seq<bool>) returns (first: Slot, taken: nat)
    requires |consumer| == |events|
    ensures taken == Taken(events)
    ensures first.sent == if events != [] && events[0].Received? then [events[0].item] else []
    ensures first.closed <==> taken > 0 && Ends(events[taken - 1])
  {
    first := new Slot();
    var forwarded := false;
    taken := 0;
    while taken < |events|
      invariant taken <= |events| && !first.closed && fresh(first)
      invariant forall i | 0 <= i < taken :: !Ends(events[i])
      invariant Taken(events) == taken + Taken(events[taken..])
      invariant forwarded <==> taken > 0
      invariant !forwarded ==> first.buffer == [] && first.sent == []
      invariant forwarded ==> first.sent == [events[0].item]
    {
      var event := events[taken];
      assert events[taken..][1..] == events[taken + 1..];
      taken := taken + 1;
      if event.SourceClosed? || event.Expired? {
        first.Close();
        return;
      }
      if !forwarded {
        first.Send(event.item);
        forwarded := true;
      }
      if consumer[taken - 1] {
        first.Take();
      }
    }
  }

  // ---------- the drain among emitters and a consumer ----------

  datatype Position = Selecting | Holding(item: Item) | Ended

  /** `sent` is every item emitted, `received` how many of them the drain has taken. The items in between
      are in the source: the first `capacity` in its buffer, the rest with emitters blocked in their send. */
  datatype System = System(
    capacity: nat,
    sent: seq<Item>,
    received: nat,
    sourceClosed: bool,
    position: Position,
    forwarded: bool,
    slot: seq<Item>,
    consumed: seq<Item>)

  datatype Step = Emit(item: Item) | CloseSource | Receive | Forward | SeeClosed | Expire | Consume

  predicate Enabled(s: System, step: Step)
    requires s.received <= |s.sent|
  {
    match step
    case Emit(_) => !s.sourceClosed
    case CloseSource => !s.sourceClosed && |s.sent| - s.received <= s.capacity
    case Receive => s.position.Selecting? && s.received < |s.sent|
    case Forward => s.position.Holding? && |s.slot| < 1
    case SeeClosed => s.position.Selecting? && s.sourceClosed && s.received == |s.sent|
    case Expire => s.position.Selecting?
    case Consume => s.slot != []
  }

  function Apply(s: System, step: Step): (r: System)
    requires s.received <= |s.sent| && Enabled(s, step)
    ensures r.received <= |r.sent|
  {
    match step
    case Emit(item) => s.(sent := s.sent + [item])
    case CloseSource => s.(sourceClosed := true)
    case Receive =>
      s.(received := s.received + 1, position := if s.forwarded then Selecting else Holding(s.sent[s.received]))
    case Forward => s.(slot := s.slot + [s.position.item], forwarded := true, position := Selecting)
    case SeeClosed => s.(position := Ended)
    case Expire => s.(position := Ended)
    case Consume => s.(slot := [], consumed := s.consumed + s.slot)
  }

  function Start(capacity: nat): System {
    System(capacity, [], 0, false, Selecting, false, [], [])
  }

  ghost predicate IsRun(states: seq<System>, steps: seq<Step>) {
    && |states| == |steps| + 1
    && forall n | 0 <= n < |steps| ::
         && states[n].received <= |states[n].sent| && Enabled(states[n], steps[n])
         && states[n + 1] == Apply(states[n], steps[n])
  }

  ghost predicate Invariant(s: System) {
    && s.received <= |s.sent|
    && (s.forwarded ==> s.received > 0 && s.consumed + s.slot == [s.sent[0]])
    && (!s.forwarded ==> s.consumed == [] && s.slot == [])
    && (s.position.Holding? ==> !s.forwarded && s.received == 1 && s.position.item == s.sent[0])
    && (s.position.Selecting? ==> (s.forwarded <==> s.received > 0))
  }

  lemma {:induction false} RunKeepsInvariant(states: seq<System>, steps: seq<Step>)
    requires IsRun(states, steps) && Invariant(states[0])
    ensures forall n | 0 <= n < |states| :: Invariant(states[n])
  {
    if steps != [] {
      var n := |steps| - 1;
      RunKeepsInvariant(states[..n + 1], steps[..n]);
      assert Invariant(states[..n + 1][n]);
      var s := states[n];
      assert steps[n].Consume? && s.forwarded ==> s.consumed + s.slot + [] == s.consumed + s.slot;
      forall k | 0 <= k < |states| ensures Invariant(states[k]) {
        assert k <= n ==> Invariant(states[..n + 1][k]);
      }
    }
  }

  /** In every run: a drain that holds an item can forward it at once, and only the first item ever sent
      reaches the caller, at most once. */
  lemma ForwardNeverBlocks(capacity: nat, states: seq<System>, steps: seq<Step>, n: nat)
    requires IsRun(states, steps) && states[0] == Start(capacity) && n < |states|
    ensures var s := states[n];
            && s.received <= |s.sent|
            && (s.position.Holding? ==> Enabled(s, Forward))
            && (s.consumed + s.slot == [] || (s.sent != [] && s.consumed + s.slot == [s.sent[0]]))
  {
    RunKeepsInvariant(states, steps);
  }

  /** The emitter of item j is still blocked in its send. */
  predicate Blocked(s: System, j: nat)
    requires s.received <= |s.sent|
  {
    j < |s.sent| && j >= s.received + s.capacity
  }

  function DrainSteps(steps: seq<Step>): nat {
    if steps == [] then 0
    else DrainSteps(steps[..|steps| - 1]) + if steps[|steps| - 1] in {Receive, Forward} then 1 else 0
  }

  /** Every step of the drain but at most one takes an item from the source. */
  lemma {:induction false} DrainStepsReceive(states: seq<System>, steps: seq<Step>)
    requires IsRun(states, steps) && Invariant(states[0])
    ensures var s, r := states[0], states[|steps|];
            && r.capacity == s.capacity && |s.sent| <= |r.sent|
            && s.received + DrainSteps(steps) == r.received + (if r.forwarded && !s.forwarded then 1 else 0)
            && (s.forwarded ==> r.forwarded)
  {
    if steps != [] {
      var n := |steps| - 1;
      RunKeepsInvariant(states, steps);
      DrainStepsReceive(states[..n + 1], steps[..n]);
      assert states[..n + 1][n] == states[n];
      StepReceives(states[n], steps[n]);
    }
  }

  lemma StepReceives(s: System, step: Step)
    requires Invariant(s) && Enabled(s, step)
    ensures var r := Apply(s, step);
            && r.capacity == s.capacity && |s.sent| <= |r.sent|
            && s.received + (if step in {Receive, Forward} then 1 else 0)
               == r.received + (if r.forwarded && !s.forwarded then 1 else 0)
            && (s.forwarded ==> r.forwarded)
  {
  }

  /** While the drain lives it can always take a step when the source holds an item; and an emitter blocked in its
      send is still blocked after a run exactly when the drain has taken no more steps than items stand in its way,
      not counting the one that forwards. Emitters, the consumer and closing change nothing about that. */
  lemma EmitterBlockedIff(states: seq<System>, steps: seq<Step>, j: nat)
    requires IsRun(states, steps) && Invariant(states[0]) && Blocked(states[0], j)
    ensures states[0].position != Ended ==> Enabled(states[0], Receive) || Enabled(states[0], Forward)
    ensures var s, r := states[0], states[|steps|];
            r.received <= |r.sent|
            && (Blocked(r, j) <==>
                  DrainSteps(steps) <= j - s.received - s.capacity + (if r.forwarded && !s.forwarded then 1 else 0))
  {
    DrainStepsReceive(states, steps);
    RunKeepsInvariant(states, steps);
  }

  /** So it is released for good after two more steps of the drain than items stand in its way. */
  lemma EmitterReleased(states: seq<System>, steps: seq<Step>, j: nat)
    requires IsRun(states, steps) && Invariant(states[0]) && Blocked(states[0], j)
    requires DrainSteps(steps) >= j - states[0].received - states[0].capacity + 2
    ensures states[|steps|].received <= |states[|steps|].sent| && !Blocked(states[|steps|], j)
  {
    EmitterBlockedIff(states, steps, j);
  }

  /** Once the drain has ended, an emitter blocked then stays blocked in every continuation: the lifetime
      bound hands the channel back to the deadlock. */
  lemma {:induction false} BlockedForeverAfterEnd(states: seq<System>, steps: seq<Step>, j: nat)
    requires IsRun(states, steps) && Invariant(states[0])
    requires states[0].position == Ended && Blocked(states[0], j)
    ensures states[|steps|].position == Ended && states[|steps|].received <= |states[|steps|].sent|
    ensures Blocked(states[|steps|], j)
  {
    if steps != [] {
      var n := |steps| - 1;
      BlockedForeverAfterEnd(states[..n + 1], steps[..n], j);
    }
  }

  /** Unless it expires, the drain ends only once the source is closed and empty: it leaves no emitter blocked. */
  lemma {:induction false} EndsEmptyUnlessExpired(capacity: nat, states: seq<System>, steps: seq<Step>)
    requires IsRun(states, steps) && states[0] == Start(capacity) && Expire !in steps
    ensures var s := states[|steps|];
            s.received <= |s.sent| && (s.position == Ended ==> s.sourceClosed && s.received == |s.sent|)
  {
    if steps != [] {
      var n := |steps| - 1;
      EndsEmptyUnlessExpired(capacity, states[..n + 1], steps[..n]);
      assert steps[n] in steps;
    }
  }

  /** One emission and an expiry: the emitter is blocked and the drain is over. */
  lemma ExpiryStrandsEmitter(item: Item) returns (states: seq<System>, steps: seq<Step>)
    ensures IsRun(states, steps) && states[0] == Start(0)
    ensures var r := states[|steps|]; r.position == Ended && r.received <= |r.sent| && Blocked(r, 0)
  {
    var emitted := Apply(Start(0), Emit(item));
    states, steps := [Start(0), emitted, Apply(emitted, Expire)], [Emit(item), Expire];
  }
}
