/** One object over all its residencies. An object whose slot has been taken over is claimed again when a late symbol
    arrives, so it may be delivered more than once, or reported lost after a delivery; this says how often, and when. */
module Objects {
  import opened Bytes
  import opened Tracks
  import opened Wire
  import opened Sender
  import opened Assembler
  import opened Residency
  import opened Protocol
  import opened Delivery
  import opened Guarantees
  import opened Repair
  import opened Lifetime

  /** Step t claims a slot for object n. */
  ghost predicate ClaimsFor(run: Run, t: nat, n: nat) {
    && t + 1 < |run.states| && Sized(run.states[t + 1])
    && run.states[t + 1].claims == run.states[t].claims + 1
    && run.states[t + 1].owners[run.states[t].claims % ASSEMBLER_CACHE_SIZE] == n
  }

  /** How often the first t steps claim a slot for object n. */
  ghost function ClaimCount(run: Run, t: nat, n: nat): (c: nat)
  {
    if t == 0 then 0 else ClaimCount(run, t - 1, n) + if ClaimsFor(run, t - 1, n) then 1 else 0
  }

  /** How many events of the given kind there are for object n. */
  function Events(log: seq<Record>, n: nat, kind: Kind): (c: nat)
  {
    if log == [] then 0
    else
      var e := log[|log| - 1];
      Events(log[..|log| - 1], n, kind) + if e.sentIndex == n && Is(kind, e.output) then 1 else 0
  }

  ghost predicate PendingObject(s: System, n: nat) {
    Sized(s) && exists i :: 0 <= i < ASSEMBLER_CACHE_SIZE && Pending(s.receiver.slots[i]) && s.owners[i] == n
  }

  ghost function Waiting(s: System, n: nat): (c: nat) { if PendingObject(s, n) then 1 else 0 }

  lemma {:induction false} EventsConcat(a: seq<Record>, b: seq<Record>, n: nat, kind: Kind)
    ensures Events(a + b, n, kind) == Events(a, n, kind) + Events(b, n, kind)
  {
    if b == [] {
      assert a + b == a;
    } else {
      assert (a + b)[..|a + b| - 1] == a + b[..|b| - 1];
      EventsConcat(a, b[..|b| - 1], n, kind);
    }
  }

  lemma EventsRecorded(cfg: Config, sent: seq<Sent>, recs: seq<Record>, of: Kind, present: bool, rid: nat, owner: nat,
                       n: nat, kind: Kind)
    requires Recorded(cfg, sent, recs, of, present, rid, owner)
    ensures Events(recs, n, kind) == if present && kind == of && owner == n then 1 else 0
  {
    if present {
      assert recs == [recs[0]] && recs[0] in recs;
      assert Events([], n, kind) == 0;
    }
  }

  lemma MovedEvents(cfg: Config, s: System, s': System, m: Move, n: nat, kind: Kind)
    requires SlotsOk(cfg, s) && Moved(cfg, s, s', m) && kind != Request
    ensures Events(s'.log, n, kind) == Events(s.log, n, kind)
              + (if Evicts(s, m) && kind == Loss && s.owners[m.i] == n then 1 else 0)
              + (if m.after.decoded && !m.before.decoded && kind == Object && m.n == n then 1 else 0)
  {
    EventsConcat(s.log + m.lost + m.nacks, m.delivered, n, kind);
    EventsConcat(s.log + m.lost, m.nacks, n, kind);
    EventsConcat(s.log, m.lost, n, kind);
    EventsRecorded(cfg, s.sent, m.lost, Loss, Evicts(s, m), s.rids[m.i], s.owners[m.i], n, kind);
    EventsRecorded(cfg, s.sent, m.nacks, Request, m.after.nackSent && !m.before.nackSent, s'.rids[m.i], m.n, n, kind);
    EventsRecorded(cfg, s.sent, m.delivered, Object, m.after.decoded && !m.before.decoded, s'.rids[m.i], m.n, n, kind);
  }

  /** An object that has a slot is pending exactly if that slot is. */
  lemma WaitingAt(cfg: Config, s: System, n: nat, i: nat)
    requires SlotsOk(cfg, s) && i < ASSEMBLER_CACHE_SIZE && Used(s.receiver.slots[i]) && s.owners[i] == n
    ensures PendingObject(s, n) <==> !s.receiver.slots[i].decoded
  {}

  lemma NotWaiting(s: System, n: nat)
    requires Sized(s) && forall i :: 0 <= i < ASSEMBLER_CACHE_SIZE && Used(s.receiver.slots[i]) ==> s.owners[i] != n
    ensures !PendingObject(s, n)
  {}

  lemma MovedOwner(cfg: Config, s: System, s': System, m: Move)
    requires SlotsOk(cfg, s) && SlotsOk(cfg, s') && Moved(cfg, s, s', m)
    ensures Waiting(s', m.n) == if m.after.decoded then 0 else 1
    ensures Waiting(s, m.n) == if m.resident && !m.before.decoded then 1 else 0
  {
    assert s'.receiver.slots[m.i] == m.after && s'.owners[m.i] == m.n;
    WaitingAt(cfg, s', m.n, m.i);
    if m.resident {
      WaitingAt(cfg, s, m.n, m.i);
    } else {
      NotWaiting(s, m.n);
    }
  }

  /** Every other object keeps its pending slot, unless it is the one evicted. */
  lemma MovedOther(cfg: Config, s: System, s': System, m: Move, n: nat)
    requires SlotsOk(cfg, s) && SlotsOk(cfg, s') && Moved(cfg, s, s', m) && n != m.n
    ensures Waiting(s, n) == Waiting(s', n) + if Evicts(s, m) && s.owners[m.i] == n then 1 else 0
  {
    if Evicts(s, m) && s.owners[m.i] == n {
      WaitingAt(cfg, s, n, m.i);
      forall i | 0 <= i < ASSEMBLER_CACHE_SIZE && Used(s'.receiver.slots[i])
        ensures s'.owners[i] != n
      {
        MovedElsewhere(cfg, s, s', m, i);
      }
      NotWaiting(s', n);
    } else {
      MovedSame(cfg, s, s', m, n);
    }
  }

  lemma MovedElsewhere(cfg: Config, s: System, s': System, m: Move, i: nat)
    requires SlotsOk(cfg, s) && Moved(cfg, s, s', m) && i < ASSEMBLER_CACHE_SIZE
    ensures Sized(s) && Sized(s')
    ensures i != m.i ==> s'.owners[i] == s.owners[i] && s'.receiver.slots[i] == s.receiver.slots[i]
    ensures i == m.i ==> s'.owners[i] == m.n && s'.receiver.slots[i] == m.after
  {}

  lemma MovedSame(cfg: Config, s: System, s': System, m: Move, n: nat)
    requires SlotsOk(cfg, s) && SlotsOk(cfg, s') && Moved(cfg, s, s', m) && n != m.n
    requires !(Evicts(s, m) && s.owners[m.i] == n)
    ensures PendingObject(s, n) <==> PendingObject(s', n)
  {
    MovedElsewhere(cfg, s, s', m, m.i);
    if PendingObject(s, n) {
      var i :| 0 <= i < ASSEMBLER_CACHE_SIZE && Pending(s.receiver.slots[i]) && s.owners[i] == n;
      MovedElsewhere(cfg, s, s', m, i);
      assert Pending(s'.receiver.slots[i]) && s'.owners[i] == n;
    }
    if PendingObject(s', n) {
      var i :| 0 <= i < ASSEMBLER_CACHE_SIZE && Pending(s'.receiver.slots[i]) && s'.owners[i] == n;
      MovedElsewhere(cfg, s, s', m, i);
      assert Pending(s.receiver.slots[i]) && s.owners[i] == n;
    }
  }

  ghost function Balance(s: System, n: nat): (c: nat)
  {
    Events(s.log, n, Object) + Events(s.log, n, Loss) + Waiting(s, n)
  }

  lemma MovedBalance(cfg: Config, s: System, s': System, m: Move, n: nat)
    requires SlotsOk(cfg, s) && Moved(cfg, s, s', m)
    ensures Balance(s', n) == Balance(s, n) + if !m.resident && m.n == n then 1 else 0
  {
    MovedSlots(cfg, s, s', m);
    MovedEvents(cfg, s, s', m, n, Object);
    MovedEvents(cfg, s, s', m, n, Loss);
    if n == m.n {
      MovedOwner(cfg, s, s', m);
      EvictsAnother(cfg, s, s', m);
    } else {
      MovedOther(cfg, s, s', m, n);
    }
  }

  lemma EvictsAnother(cfg: Config, s: System, s': System, m: Move)
    requires SlotsOk(cfg, s) && Moved(cfg, s, s', m)
    ensures Evicts(s, m) ==> s.owners[m.i] != m.n
    ensures !m.resident ==> !m.before.decoded
  {}

  /** The step of a run in terms of one object. */
  lemma StepBalance(cfg: Config, run: Run, t: nat, n: nat)
    requires Sane(cfg) && IsRun(cfg, run) && t < |run.actions|
    ensures Balance(run.states[t + 1], n) == Balance(run.states[t], n) + if ClaimsFor(run, t, n) then 1 else 0
  {
    RunFifo(cfg, run, t);
    var m, q := RunMoves(cfg, run, t);
    if m.Some? {
      MovedBalance(cfg, run.states[t], run.states[t + 1], m.value, n);
      ClaimIsMove(cfg, run, t, m.value, n);
    }
  }

  lemma ClaimIsMove(cfg: Config, run: Run, t: nat, m: Move, n: nat)
    requires t + 1 < |run.states| && SlotsOk(cfg, run.states[t]) && Moved(cfg, run.states[t], run.states[t + 1], m)
    requires Fifo(run.states[t]) && (!m.resident ==> m.i == run.states[t].receiver.next)
    ensures ClaimsFor(run, t, n) <==> !m.resident && m.n == n
  {
    MovedElsewhere(cfg, run.states[t], run.states[t + 1], m, m.i);
  }

  /** Per object: slots claimed for it = its OBJECT events + its LOST events + 1 if a slot is pending on it. */
  lemma {:induction false} ObjectConservation(cfg: Config, run: Run, t: nat, n: nat)
    requires Sane(cfg) && IsRun(cfg, run) && t < |run.states|
    ensures ClaimCount(run, t, n) == Balance(run.states[t], n)
  {
    if t == 0 {
      NotWaiting(Init(), n);
    } else {
      ObjectConservation(cfg, run, t - 1, n);
      StepBalance(cfg, run, t - 1, n);
    }
  }

  // ----- How soon an object can come back -----

  lemma ClaimTakesSlot(cfg: Config, run: Run, t: nat, n: nat)
    requires Sane(cfg) && IsRun(cfg, run) && ClaimsFor(run, t, n)
    ensures Sized(run.states[t]) && Sized(run.states[t + 1])
    ensures var i := run.states[t].claims % ASSEMBLER_CACHE_SIZE;
            && Used(run.states[t + 1].receiver.slots[i]) && run.states[t + 1].rids[i] == run.states[t].claims
            && forall j :: 0 <= j < ASSEMBLER_CACHE_SIZE && Used(run.states[t].receiver.slots[j]) ==>
                 run.states[t].owners[j] != n
  {
    RunFifo(cfg, run, t);
    var m, q := RunMoves(cfg, run, t);
    if m.Some? {
      ClaimIsMove(cfg, run, t, m.value, n);
      MovedElsewhere(cfg, run.states[t], run.states[t + 1], m.value, m.value.i);
    }
  }

  /** Between two claims for one object there are at least 16 others: a late symbol starts a new residency only when 16
      slots have been claimed since the last one began. */
  lemma ReclaimApart(cfg: Config, run: Run, t: nat, u: nat, n: nat)
    requires Sane(cfg) && IsRun(cfg, run) && t < u && ClaimsFor(run, t, n) && ClaimsFor(run, u, n)
    ensures run.states[u].claims >= run.states[t].claims + ASSEMBLER_CACHE_SIZE + 1
  {
    ClaimTakesSlot(cfg, run, t, n);
    ClaimTakesSlot(cfg, run, u, n);
    var i := run.states[t].claims % ASSEMBLER_CACHE_SIZE;
    ResidencyLasts(cfg, run, t + 1, u, i);
    RunKeepsSlot(cfg, run, t + 1, u, i);
  }

  /** The latest claim for an object that has been claimed. */
  lemma {:induction false} LatestClaim(cfg: Config, run: Run, t: nat, n: nat) returns (c: nat)
    requires Sane(cfg) && IsRun(cfg, run) && t < |run.states| && ClaimCount(run, t, n) > 0
    ensures c < t && ClaimsFor(run, c, n)
    ensures run.states[c].claims >= (ASSEMBLER_CACHE_SIZE + 1) * (ClaimCount(run, t, n) - 1)
  {
    if ClaimsFor(run, t - 1, n) {
      c := t - 1;
      if ClaimCount(run, t - 1, n) > 0 {
        var before := LatestClaim(cfg, run, t - 1, n);
        ReclaimApart(cfg, run, before, c, n);
      }
    } else {
      c := LatestClaim(cfg, run, t - 1, n);
    }
  }

  /** An object with e outcomes, deliveries and losses together, needs more than 17 * (e - 1) claims in all. So a run
      that claims at most 17 slots delivers or loses each object at most once. */
  lemma OutcomesBounded(cfg: Config, run: Run, t: nat, n: nat)
    requires Sane(cfg) && IsRun(cfg, run) && t < |run.states|
    ensures var e := Events(run.states[t].log, n, Object) + Events(run.states[t].log, n, Loss);
            e > 0 ==> (ASSEMBLER_CACHE_SIZE + 1) * (e - 1) < run.states[t].claims
  {
    ObjectConservation(cfg, run, t, n);
    if ClaimCount(run, t, n) > 0 {
      var c := LatestClaim(cfg, run, t, n);
      RunKeepsSlot(cfg, run, c + 1, t, 0);
      var e := Events(run.states[t].log, n, Object) + Events(run.states[t].log, n, Loss);
      assert e > 0 ==> (ASSEMBLER_CACHE_SIZE + 1) * (e - 1) <= (ASSEMBLER_CACHE_SIZE + 1) * (ClaimCount(run, t, n) - 1);
    }
  }
}
