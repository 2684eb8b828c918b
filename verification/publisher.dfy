/** Event publishing: the target of an instance and the wrapper that lets only system events through. */
module Publishers {
  import opened Wrappers
  import opened EventTypes

  /** An event ready to publish; messageID is set when its data is a message. */
  datatype Event = Event(eventType: string, messageID: Option<string>)

  /** The webhook, Redis or no-op publisher: `received` is every event it was asked to publish. */
  class Target {
    var received: seq<Event>

    constructor ()
      ensures received == []
    {
      received := [];
    }

    method Publish(e: Event)
      modifies this
      ensures received == old(received) + [e]
    {
      received := received + [e];
    }
  }

  class SystemEventsOnlyPublisher {
    const inner: Target

    constructor (inner: Target)
      ensures this.inner == inner
    {
      this.inner := inner;
    }

    method Publish(e: Event)
      modifies inner
      ensures inner.received == old(inner.received) + Forwarded(true, [e])
    {
      ForwardedOne(true, e);
      if !IsSystemEvent(e.eventType) {
        return;
      }
      inner.Publish(e);
    }
  }

  /** What an instance holds: its target, or the wrapper around it. */
  datatype Publisher = Direct(target: Target) | SystemOnly(wrapper: SystemEventsOnlyPublisher)

  function TargetOf(p: Publisher): Target {
    match p
    case Direct(target) => target
    case SystemOnly(wrapper) => wrapper.inner
  }

  /** The factory: publishing is enabled unless it is switched off. */
  method Create(target: Target, publishEvents: Option<bool>) returns (p: Publisher)
    ensures TargetOf(p) == target && (p.SystemOnly? <==> publishEvents == Some(false))
  {
    p := Direct(target);
    if publishEvents == Some(false) {
      var wrapper := new SystemEventsOnlyPublisher(target);
      p := SystemOnly(wrapper);
    }
  }

  method Publish(p: Publisher, e: Event)
    modifies TargetOf(p)
    ensures TargetOf(p).received == old(TargetOf(p).received) + Forwarded(p.SystemOnly?, [e])
  {
    ForwardedOne(p.SystemOnly?, e);
    match p {
      case Direct(target) => target.Publish(e);
      case SystemOnly(wrapper) => wrapper.Publish(e);
    }
  }

  /** The events that reach the target, of those published. */
  function Forwarded(systemOnly: bool, events: seq<Event>): seq<Event> {
    if events == [] then []
    else
      var e := events[|events| - 1];
      var before := Forwarded(systemOnly, events[..|events| - 1]);
      if systemOnly && !IsSystemEvent(e.eventType) then before else before + [e]
  }

  lemma ForwardedOne(systemOnly: bool, e: Event)
    ensures Forwarded(systemOnly, [e]) == if systemOnly && !IsSystemEvent(e.eventType) then [] else [e]
  {
    assert [e][..0] == [];
    assert Forwarded(systemOnly, []) == [];
  }

  lemma {:induction false} ForwardedConcat(systemOnly: bool, a: seq<Event>, b: seq<Event>)
    ensures Forwarded(systemOnly, a + b) == Forwarded(systemOnly, a) + Forwarded(systemOnly, b)
  {
    if b == [] {
      assert a + b == a;
    } else {
      var n := |b| - 1;
      ForwardedConcat(systemOnly, a, b[..n]);
      assert (a + b)[..|a + b| - 1] == a + b[..n];
    }
  }

  /** How many of these events are of this type. */
  function Count(events: seq<Event>, eventType: string): nat {
    if events == [] then 0
    else Count(events[..|events| - 1], eventType) + if events[|events| - 1].eventType == eventType then 1 else 0
  }

  lemma {:induction false} CountConcat(a: seq<Event>, b: seq<Event>, eventType: string)
    ensures Count(a + b, eventType) == Count(a, eventType) + Count(b, eventType)
  {
    if b == [] {
      assert a + b == a;
    } else {
      var n := |b| - 1;
      CountConcat(a, b[..n], eventType);
      assert (a + b)[..|a + b| - 1] == a + b[..n];
    }
  }

  /** The wrapper drops no system event, and lets nothing else through; without it everything goes through. */
  lemma {:induction false} ForwardedMeaning(systemOnly: bool, events: seq<Event>, e: Event)
    ensures multiset(Forwarded(systemOnly, events))[e] ==
            if systemOnly && e.eventType !in {"logged_in", "logged_out", "login_error", "initial_sync_finished"} then 0
            else multiset(events)[e]
    ensures !systemOnly ==> Forwarded(systemOnly, events) == events
  {
    if events != [] {
      var n := |events| - 1;
      ForwardedMeaning(systemOnly, events[..n], e);
      assert events == events[..n] + [events[n]];
    }
  }

  /** So per type of event. */
  lemma {:induction false} WrapperForwards(systemOnly: bool, events: seq<Event>, eventType: string)
    ensures Count(Forwarded(systemOnly, events), eventType) ==
            if systemOnly && !IsSystemEvent(eventType) then 0 else Count(events, eventType)
  {
    if events != [] {
      var n := |events| - 1;
      WrapperForwards(systemOnly, events[..n], eventType);
      CountOne(events[n], eventType);
      CountConcat(Forwarded(systemOnly, events[..n]), [events[n]], eventType);
    }
  }

  lemma CountOne(e: Event, eventType: string)
    ensures Count([e], eventType) == if e.eventType == eventType then 1 else 0
  {
    assert Count([e][..0], eventType) == 0;
  }
}
