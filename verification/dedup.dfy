/** The set of recently seen message IDs, with a purge every ten minutes. */
module Dedup {
  const SECOND := 1_000_000_000
  const TICK := 600 * SECOND

  type Time = int

  /** What the set is asked to do: a message ID arrives, or the ticker fires. */
  datatype Op = Arrive(id: string, now: Time) | Purge(now: Time)

  /** The entries a purge keeps: those not strictly before the cutoff. */
  function Purged(entries: map<string, Time>, ttl: Time, now: Time): map<string, Time> {
    map id | id in entries && entries[id] >= now - ttl :: entries[id]
  }

  function Step(entries: map<string, Time>, ttl: Time, op: Op): map<string, Time> {
    match op
    case Arrive(id, now) => if id in entries then entries else entries[id := now]
    case Purge(now) => Purged(entries, ttl, now)
  }

  class Set {
    var entries: map<string, Time>
    const ttl: Time

    constructor (ttl: Time)
      ensures entries == map[] && this.ttl == ttl
    {
      this.ttl, entries := ttl, map[];
    }

    /** Reports whether id was there; a new one is recorded. */
    method Contains(id: string, now: Time) returns (seen: bool)
      modifies this
      ensures seen == (id in old(entries))
      ensures entries == Step(old(entries), ttl, Arrive(id, now))
    {
      if id in entries {
        return true;
      }
      entries := entries[id := now];
      return false;
    }

    /** One tick of the cleanup loop. */
    method Cleanup(now: Time)
      modifies this
      ensures entries == Step(old(entries), ttl, Purge(now))
    {
      var cutoff := now - ttl;
      var rest := entries.Keys;
      while rest != {}
        invariant rest <= entries.Keys <= old(entries.Keys)
        invariant forall id | id in entries :: entries[id] == old(entries)[id]
        invariant forall id | id in old(entries) && id !in rest :: id in entries <==> old(entries)[id] >= cutoff
        decreases rest
      {
        var id :| id in rest;
        rest := rest - {id};
        if entries[id] < cutoff {
          entries := entries - {id};
        }
      }
    }
  }

  // ---------- runs ----------

  function Run(ttl: Time, ops: seq<Op>): map<string, Time> {
    if ops == [] then map[] else Step(Run(ttl, ops[..|ops| - 1]), ttl, ops[|ops| - 1])
  }

  /** Operation n is an arrival that the set lets through. */
  predicate Accepted(ttl: Time, ops: seq<Op>, n: nat) {
    n < |ops| && ops[n].Arrive? && ops[n].id !in Run(ttl, ops[..n])
  }

  /** The clock does not run backwards. */
  ghost predicate Clocked(ops: seq<Op>) {
    forall i, j | 0 <= i < j < |ops| :: ops[i].now <= ops[j].now
  }

  /** Arrival i was let through and no purge up to n has dropped it. */
  ghost predicate Remembered(ttl: Time, ops: seq<Op>, i: nat, n: nat)
    requires n <= |ops|
  {
    && i < n && Accepted(ttl, ops, i)
    && forall p | i < p < n && ops[p].Purge? :: ops[i].now >= ops[p].now - ttl
  }

  lemma RememberedPrefix(ttl: Time, ops: seq<Op>, i: nat)
    requires ops != []
    ensures var n := |ops| - 1;
            Remembered(ttl, ops, i, |ops|) <==>
              if i == n then Accepted(ttl, ops, n)
              else Remembered(ttl, ops[..n], i, n) && (ops[n].Purge? ==> ops[i].now >= ops[n].now - ttl)
  {
    var n := |ops| - 1;
    if i < n {
      assert ops[..n][..i] == ops[..i];
    }
  }

  /** The entries are exactly the arrivals remembered, each with its time. */
  lemma {:induction false} EntriesAreRemembered(ttl: Time, ops: seq<Op>, id: string)
    ensures id in Run(ttl, ops) <==> exists i: nat :: Remembered(ttl, ops, i, |ops|) && ops[i].id == id
    ensures forall i: nat | Remembered(ttl, ops, i, |ops|) && ops[i].id == id :: Run(ttl, ops)[id] == ops[i].now
  {
    if ops != [] {
      var n := |ops| - 1;
      var before := ops[..n];
      EntriesAreRemembered(ttl, before, id);
      forall i: nat
        ensures Remembered(ttl, ops, i, |ops|) <==>
                if i == n then Accepted(ttl, ops, n)
                else Remembered(ttl, before, i, n) && (ops[n].Purge? ==> ops[i].now >= ops[n].now - ttl)
      {
        RememberedPrefix(ttl, ops, i);
      }
      if id in Run(ttl, before) {
        var i: nat :| Remembered(ttl, before, i, n) && before[i].id == id;
        assert ops[i].id == id && Run(ttl, before)[id] == ops[i].now;
        assert id in Run(ttl, ops) ==> Remembered(ttl, ops, i, |ops|);
      } else if id in Run(ttl, ops) {
        assert Remembered(ttl, ops, n, |ops|);
      }
    }
  }

  /** An arrival is a duplicate exactly when an earlier arrival of its ID was let through and every purge
      in between came no more than the TTL after it. */
  lemma DuplicateIff(ttl: Time, ops: seq<Op>, n: nat)
    requires n < |ops| && ops[n].Arrive?
    ensures !Accepted(ttl, ops, n) <==> exists i: nat :: Remembered(ttl, ops, i, n) && ops[i].id == ops[n].id
  {
    var before := ops[..n];
    EntriesAreRemembered(ttl, before, ops[n].id);
    forall i: nat
      ensures Remembered(ttl, before, i, n) <==> Remembered(ttl, ops, i, n)
    {
      if i < n {
        assert before[..i] == ops[..i];
      }
    }
  }

  /** Two arrivals of one ID that are both let through are strictly more than the TTL apart. */
  lemma AcceptancesApart(ttl: Time, ops: seq<Op>, i: nat, j: nat)
    requires Clocked(ops) && i < j && Accepted(ttl, ops, i) && Accepted(ttl, ops, j) && ops[i].id == ops[j].id
    ensures ops[j].now - ops[i].now > ttl
  {
    DuplicateIff(ttl, ops, j);
    assert !Remembered(ttl, ops, i, j);
    var p :| i < p < j && ops[p].Purge? && ops[i].now < ops[p].now - ttl;
    assert ops[p].now <= ops[j].now;
  }

  /** The ticker fires at least every ten minutes, up to the time `until`. */
  ghost predicate Ticking(ops: seq<Op>, until: Time) {
    forall i | 0 <= i < |ops| && until - ops[i].now > TICK ::
      exists p :: i < p < |ops| && ops[p].Purge? && ops[p].now - ops[i].now <= TICK
  }

  /** Then no entry is ever older than the TTL plus ten minutes. */
  lemma {:induction false} EntriesNeverStale(ttl: Time, ops: seq<Op>, until: Time, id: string)
    requires ttl >= 0 && Clocked(ops) && Ticking(ops, until)
    requires id in Run(ttl, ops)
    ensures until - Run(ttl, ops)[id] <= ttl + 600 * 1_000_000_000
  {
    EntriesAreRemembered(ttl, ops, id);
    var i: nat :| Remembered(ttl, ops, i, |ops|) && ops[i].id == id;
    LastTickSince(ttl, ops, until, i, i);
  }

  /** Following the ticks from operation k: each came within the TTL of arrival i, the last within ten
      minutes of `until`. */
  lemma {:induction false} LastTickSince(ttl: Time, ops: seq<Op>, until: Time, i: nat, k: nat)
    requires ttl >= 0 && Clocked(ops) && Ticking(ops, until) && Remembered(ttl, ops, i, |ops|)
    requires i <= k < |ops| && (k == i || ops[k].Purge?)
    ensures until - ops[i].now <= ttl + TICK
    decreases |ops| - k
  {
    if until - ops[k].now > TICK {
      var p :| k < p < |ops| && ops[p].Purge? && ops[p].now - ops[k].now <= TICK;
      LastTickSince(ttl, ops, until, i, p);
    }
  }
}
