/** Exactly when an object is assembled once more, and so exactly when it has a second outcome. */
module Outcomes {
  import opened Bytes
  import opened Tracks
  import opened Wire
  import opened Sender
  import opened Assembler
  import opened Residency
  import opened Protocol
  import opened Delivery
  import opened Guarantees
  import opened Repair
  import opened Lifetime
  import opened Objects
  import opened Progress

  /** The datagram is a symbol of object n, and the receiver's checks let it through. */
  ghost predicate SymbolOf(cfg: Config, s: System, raw: Block, n: nat) {
    && n < |s.sent| && Deliverable(s.sent[n])
    && exists q, path, time :: IsSymbol(cfg.code, s.sent[n], q, path, time, raw)
  }

  /** Step u is the arrival of such a symbol. */
  ghost predicate Hits(cfg: Config, run: Run, u: nat, n: nat) {
    u < |run.actions| && u < |run.states| && run.actions[u].Arrive?
    && SymbolOf(cfg, run.states[u], run.actions[u].raw, n)
  }

  /** Given that the latest residency of object n began with the claims at `latest`, step u begins another: one of its
      symbols arrives, and at least 16 slots have been claimed since. */
  ghost predicate Renews(cfg: Config, run: Run, u: nat, n: nat, latest: Option<nat>) {
    Hits(cfg, run, u, n) && (latest.None? || run.states[u].claims > latest.value + ASSEMBLER_CACHE_SIZE)
  }

  /** The number of claims with which the latest residency of object n began, told from arrivals alone. */
  ghost function Latest(cfg: Config, run: Run, u: nat, n: nat): (r: Option<nat>)
  {
    if u == 0 then None
    else
      var before := Latest(cfg, run, u - 1, n);
      if Renews(cfg, run, u - 1, n, before) then Some(run.states[u - 1].claims) else before
  }

  ghost predicate Begins(cfg: Config, run: Run, u: nat, n: nat) { Renews(cfg, run, u, n, Latest(cfg, run, u, n)) }

  // ----- Arrivals and moves -----

  lemma SymbolOfCarries(cfg: Config, s: System, raw: Block, n: nat)
    requires Sane(cfg) && SentOk(cfg, s.sent) && SymbolOf(cfg, s, raw, n)
    ensures var admitted := Admit(cfg.receiverSubs, raw);
            admitted.Some? && Carries(cfg, s, raw, admitted.value.0, admitted.value.1, n)
  {
    var q, path, time :| IsSymbol(cfg.code, s.sent[n], q, path, time, raw);
    SymbolAdmitted(cfg, s, raw, n, q, path, time);
  }

  /** An admitted datagram is a symbol of one object. */
  lemma AdmittedIsSymbol(cfg: Config, s: System, raw: Block) returns (n: nat)
    requires Sane(cfg) && SentOk(cfg, s.sent) && Honest(cfg.code, s.sent, raw) && Admit(cfg.receiverSubs, raw).Some?
    ensures var (h, track) := Admit(cfg.receiverSubs, raw).value; Carries(cfg, s, raw, h, track, n)
    ensures SymbolOf(cfg, s, raw, n)
  {
    var k, q, path, time :| 0 <= k < |s.sent| && IsSymbol(cfg.code, s.sent[k], q, path, time, raw);
    n := k;
    SymbolCarries(cfg, s, n, q, path, time, raw);
    AdmittedAlias(cfg.receiverSubs, raw);
  }

  lemma ArrivalAttributed(cfg: Config, s: System, raw: Block, n: nat) returns (m: Option<Move>)
    requires Sane(cfg) && Inv(cfg, s) && raw in s.net && Safe(cfg, s, Arrive(raw))
    ensures m.None? ==> Quiet(s, Arrived(cfg, s, raw))
    ensures m.Some? ==> Moved(cfg, s, Arrived(cfg, s, raw), m.value)
                        && (!m.value.resident ==> m.value.i == s.receiver.next)
    ensures SymbolOf(cfg, s, raw, n) <==> m.Some? && m.value.n == n
  {
    m := None;
    if SymbolOf(cfg, s, raw, n) {
      SymbolOfCarries(cfg, s, raw, n);
    }
    if Admit(cfg.receiverSubs, raw).Some? {
      var (h, track) := Admit(cfg.receiverSubs, raw).value;
      var k := AdmittedIsSymbol(cfg, s, raw);
      var move := ArriveMoved(cfg, s, raw, h, track, k);
      ArrivedNext(cfg, s, raw, h, track);
      m := Some(move);
    }
  }

  /** A step is quiet, or it is the arrival of a symbol of the one object it works on. */
  lemma Attributed(cfg: Config, run: Run, u: nat, n: nat) returns (m: Option<Move>)
    requires Sane(cfg) && IsRun(cfg, run) && u < |run.actions|
    ensures SlotsOk(cfg, run.states[u])
    ensures m.None? ==> Quiet(run.states[u], run.states[u + 1])
    ensures m.Some? ==> Moved(cfg, run.states[u], run.states[u + 1], m.value)
                        && (!m.value.resident ==> m.value.i == run.states[u].receiver.next)
    ensures Hits(cfg, run, u, n) <==> m.Some? && m.value.n == n
  {
    RunKeeps(cfg, run, u);
    assert StepAt(cfg, run, u);
    var s, a := run.states[u], run.actions[u];
    if a.Arrive? {
      m := ArrivalAttributed(cfg, s, a.raw, n);
    } else {
      m := None;
      QuietStep(cfg, s, a, run.states[u + 1]);
    }
  }

  // ----- What the slots say about one object -----

  /** The slots agree with the latest residency of object n: none ever, or the one that began with these claims, which
      is there exactly if at most 16 slots have been claimed since. */
  ghost predicate Tracked(s: System, n: nat, latest: Option<nat>) {
    && Sized(s)
    && match latest
       case None => forall i :: 0 <= i < ASSEMBLER_CACHE_SIZE && Used(s.receiver.slots[i]) ==> s.owners[i] != n
       case Some(b) =>
         && b < s.claims
         && (forall i :: 0 <= i < ASSEMBLER_CACHE_SIZE && Used(s.receiver.slots[i]) ==>
               (s.owners[i] == n <==> s.rids[i] == b))
         && (s.claims <= b + ASSEMBLER_CACHE_SIZE ==>
               Used(s.receiver.slots[b % ASSEMBLER_CACHE_SIZE]) && s.rids[b % ASSEMBLER_CACHE_SIZE] == b)
  }

  /** An object has a slot exactly if its latest residency is at most 16 claims old. */
  lemma OwnedIff(s: System, n: nat, latest: Option<nat>)
    requires Fifo(s) && Tracked(s, n, latest)
    ensures (exists i: nat :: Owns(s, n, i)) <==> latest.Some? && s.claims <= latest.value + ASSEMBLER_CACHE_SIZE
  {
    if latest.Some? && s.claims <= latest.value + ASSEMBLER_CACHE_SIZE {
      assert Owns(s, n, latest.value % ASSEMBLER_CACHE_SIZE);
    }
    if i: nat :| Owns(s, n, i) {
      assert InTurn(s.claims, s.rids[i], i);
    }
  }

  lemma MovedOwned(cfg: Config, s: System, s': System, m: Move)
    requires SlotsOk(cfg, s) && Moved(cfg, s, s', m)
    ensures Sized(s) && (m.resident <==> exists i: nat :: Owns(s, m.n, i))
  {
    if m.resident {
      assert Owns(s, m.n, m.i);
    }
  }

  /** What a move does to the bookkeeping of the slots. */
  ghost predicate Touches(s: System, s': System, m: Move) {
    && Sized(s) && Sized(s') && m.i < ASSEMBLER_CACHE_SIZE && Used(s'.receiver.slots[m.i])
    && (forall j :: 0 <= j < ASSEMBLER_CACHE_SIZE && j != m.i ==> s'.receiver.slots[j] == s.receiver.slots[j])
    && s'.rids == s.rids[m.i := if m.resident then s.rids[m.i] else s.claims] && s'.owners == s.owners[m.i := m.n]
    && s'.claims == (if m.resident then s.claims else s.claims + 1)
    && (m.resident ==> Used(s.receiver.slots[m.i]) && s.owners[m.i] == m.n)
    && (!m.resident ==> forall j :: 0 <= j < ASSEMBLER_CACHE_SIZE && Used(s.receiver.slots[j]) ==>
          s.owners[j] != m.n && s.rids[j] < s.claims)
  }

  lemma MovedTouches(cfg: Config, s: System, s': System, m: Move)
    requires SlotsOk(cfg, s) && Moved(cfg, s, s', m)
    ensures Touches(s, s', m)
  {}

  lemma TouchedTracked(s: System, s': System, m: Move, n: nat, latest: Option<nat>)
    requires Touches(s, s', m) && Tracked(s, n, latest)
    requires !m.resident ==> m.i == s.claims % ASSEMBLER_CACHE_SIZE
    ensures Tracked(s', n, if m.n == n && !m.resident then Some(s.claims) else latest)
  {
    if !m.resident && m.n != n && latest.Some? && s'.claims <= latest.value + ASSEMBLER_CACHE_SIZE {
      assert latest.value % ASSEMBLER_CACHE_SIZE != m.i;
    }
  }

  lemma {:induction false} RunTracked(cfg: Config, run: Run, u: nat, n: nat)
    requires Sane(cfg) && IsRun(cfg, run) && u < |run.states|
    ensures Tracked(run.states[u], n, Latest(cfg, run, u, n))
  {
    if u == 0 {
    } else {
      RunTracked(cfg, run, u - 1, n);
      StepTracked(cfg, run, u - 1, n);
    }
  }

  /** One step: a slot is claimed for the object exactly if its arrivals so far call for it. */
  lemma StepTracked(cfg: Config, run: Run, u: nat, n: nat)
    requires Sane(cfg) && IsRun(cfg, run) && u < |run.actions| && Tracked(run.states[u], n, Latest(cfg, run, u, n))
    ensures ClaimsFor(run, u, n) <==> Begins(cfg, run, u, n)
    ensures Tracked(run.states[u + 1], n, Latest(cfg, run, u + 1, n))
  {
    var s, s', latest := run.states[u], run.states[u + 1], Latest(cfg, run, u, n);
    RunFifo(cfg, run, u);
    var m := Attributed(cfg, run, u, n);
    if m.Some? {
      ClaimIsMove(cfg, run, u, m.value, n);
      if m.value.n == n {
        MovedOwned(cfg, s, s', m.value);
        OwnedIff(s, n, latest);
      }
      MovedTouches(cfg, s, s', m.value);
      TouchedTracked(s, s', m.value, n, latest);
    } else {
      QuietTracked(s, s', n, latest);
    }
  }

  lemma QuietTracked(s: System, s': System, n: nat, latest: Option<nat>)
    requires Quiet(s, s') && Tracked(s, n, latest)
    ensures Tracked(s', n, latest)
  {}

  // ----- Exactly when a slot is claimed -----

  /** In every run a step claims a slot for object n if and only if a symbol of n arrives that its checks let through,
      and n has had no residency yet or at least 16 slots have been claimed since the latest began. */
  lemma ClaimedExactly(cfg: Config, run: Run, u: nat, n: nat)
    requires Sane(cfg) && IsRun(cfg, run) && u < |run.actions|
    ensures ClaimsFor(run, u, n) <==> Begins(cfg, run, u, n)
  {
    RunTracked(cfg, run, u, n);
    StepTracked(cfg, run, u, n);
  }

  /** How often the first t steps begin a residency of object n. */
  ghost function BeginCount(cfg: Config, run: Run, t: nat, n: nat): (c: nat)
  {
    if t == 0 then 0 else BeginCount(cfg, run, t - 1, n) + if Begins(cfg, run, t - 1, n) then 1 else 0
  }

  lemma {:induction false} CountsAgree(cfg: Config, run: Run, t: nat, n: nat)
    requires Sane(cfg) && IsRun(cfg, run) && t < |run.states|
    ensures ClaimCount(run, t, n) == BeginCount(cfg, run, t, n)
  {
    if t > 0 {
      CountsAgree(cfg, run, t - 1, n);
      ClaimedExactly(cfg, run, t - 1, n);
    }
  }

  /** The number of outcomes of an object, deliveries and losses together, is the number of residencies its arrivals
      have begun, less one if a slot is still pending on it. */
  lemma OutcomesExact(cfg: Config, run: Run, t: nat, n: nat)
    requires Sane(cfg) && IsRun(cfg, run) && t < |run.states|
    ensures Outcomes(run.states[t], n) + Waiting(run.states[t], n) == BeginCount(cfg, run, t, n)
  {
    ObjectConservation(cfg, run, t, n);
    CountsAgree(cfg, run, t, n);
  }

  function Outcomes(s: System, n: nat): (e: nat) { Events(s.log, n, Object) + Events(s.log, n, Loss) }

  lemma {:induction false} LatestStays(cfg: Config, run: Run, t: nat, u: nat, n: nat)
    requires t <= u && BeginCount(cfg, run, t, n) == BeginCount(cfg, run, u, n)
    ensures Latest(cfg, run, t, n) == Latest(cfg, run, u, n)
    decreases u - t
  {
    if t < u {
      BeginCountGrows(cfg, run, t, u - 1, n);
      LatestStays(cfg, run, t, u - 1, n);
    }
  }

  lemma {:induction false} BeginCountGrows(cfg: Config, run: Run, t: nat, u: nat, n: nat)
    requires t <= u
    ensures BeginCount(cfg, run, t, n) <= BeginCount(cfg, run, u, n)
    decreases u - t
  {
    if t < u {
      BeginCountGrows(cfg, run, t, u - 1, n);
    }
  }

  /** The latest of the first t steps that begins a residency of object n. */
  lemma {:induction false} LastBegin(cfg: Config, run: Run, t: nat, n: nat) returns (c: nat)
    requires BeginCount(cfg, run, t, n) > 0
    ensures c < t && Begins(cfg, run, c, n) && BeginCount(cfg, run, c, n) == BeginCount(cfg, run, t, n) - 1
    ensures Latest(cfg, run, t, n) == Some(run.states[c].claims)
  {
    if Begins(cfg, run, t - 1, n) {
      c := t - 1;
    } else {
      c := LastBegin(cfg, run, t - 1, n);
    }
  }

  /** When step t was the latest to claim a slot for object n, the arrival of one of its symbols in step u claims
      another if and only if at least 16 slots have been claimed in between. */
  lemma ReclaimIff(cfg: Config, run: Run, t: nat, u: nat, n: nat)
    requires Sane(cfg) && IsRun(cfg, run) && t < u && ClaimsFor(run, t, n) && Hits(cfg, run, u, n)
    requires forall c :: t < c < u ==> !ClaimsFor(run, c, n)
    ensures ClaimsFor(run, u, n) <==> run.states[u].claims > run.states[t].claims + 16
  {
    ClaimedExactly(cfg, run, u, n);
    LatestBetween(cfg, run, t, u, n);
  }

  lemma LatestBetween(cfg: Config, run: Run, t: nat, u: nat, n: nat)
    requires Sane(cfg) && IsRun(cfg, run) && t < u < |run.states| && t < |run.actions| && ClaimsFor(run, t, n)
    requires forall c :: t < c < u ==> !ClaimsFor(run, c, n)
    ensures Latest(cfg, run, u, n) == Some(run.states[t].claims)
  {
    ClaimedExactly(cfg, run, t, n);
    NoneBetween(cfg, run, t + 1, u, n);
    LatestStays(cfg, run, t + 1, u, n);
  }

  lemma {:induction false} NoneBetween(cfg: Config, run: Run, t: nat, u: nat, n: nat)
    requires Sane(cfg) && IsRun(cfg, run) && t <= u < |run.states|
    requires forall c :: t <= c < u ==> !ClaimsFor(run, c, n)
    ensures BeginCount(cfg, run, t, n) == BeginCount(cfg, run, u, n)
    decreases u - t
  {
    if t < u {
      NoneBetween(cfg, run, t, u - 1, n);
      ClaimedExactly(cfg, run, u - 1, n);
    }
  }

  // ----- Exactly when there is a second outcome -----

  /** The latest residency of an object is pending exactly if some slot is pending on the object. */
  lemma EndedIff(cfg: Config, run: Run, w: nat, n: nat)
    requires Sane(cfg) && IsRun(cfg, run) && w < |run.states| && Latest(cfg, run, w, n).Some?
    ensures Sized(run.states[w])
    ensures PendingResidency(run.states[w], Latest(cfg, run, w, n).value) <==> PendingObject(run.states[w], n)
  {
    RunTracked(cfg, run, w, n);
    var s, b := run.states[w], Latest(cfg, run, w, n).value;
    if PendingResidency(s, b) {
      var i :| 0 <= i < |s.rids| && Pending(s.receiver.slots[i]) && s.rids[i] == b;
      assert s.owners[i] == n;
    }
    if PendingObject(s, n) {
      var i :| 0 <= i < ASSEMBLER_CACHE_SIZE && Pending(s.receiver.slots[i]) && s.owners[i] == n;
      assert s.rids[i] == b;
    }
  }

  /** A residency that began more than 16 claims ago is not pending. */
  lemma OldIsOver(cfg: Config, run: Run, w: nat, r: nat)
    requires Sane(cfg) && IsRun(cfg, run) && w < |run.states| && run.states[w].claims > r + ASSEMBLER_CACHE_SIZE
    ensures Sized(run.states[w]) && !PendingResidency(run.states[w], r)
  {
    RunFifo(cfg, run, w);
  }

  /** A second residency of object n has ended by state w. */
  ghost predicate AgainEnded(cfg: Config, run: Run, w: nat, n: nat, t: nat, u: nat)
    requires w < |run.states|
  {
    && t < u < w && Begins(cfg, run, t, n) && Begins(cfg, run, u, n)
    && Sized(run.states[w]) && !PendingResidency(run.states[w], run.states[u].claims)
  }

  /** By state w of any run an object has had a second outcome if and only if a residency that was not its first has
      ended: a symbol of it arrived when at least 16 slots had been claimed since its latest residency began, and that
      residency has delivered it or has been taken over. */
  lemma SecondOutcomeIff(cfg: Config, run: Run, w: nat, n: nat)
    requires Sane(cfg) && IsRun(cfg, run) && w < |run.states|
    ensures Outcomes(run.states[w], n) >= 2 <==> exists t, u :: AgainEnded(cfg, run, w, n, t, u)
  {
    OutcomesExact(cfg, run, w, n);
    if Outcomes(run.states[w], n) >= 2 {
      var t, u := SomeAgain(cfg, run, w, n);
      assert AgainEnded(cfg, run, w, n, t, u);
    }
    if t, u :| AgainEnded(cfg, run, w, n, t, u) {
      AgainCounts(cfg, run, w, n, t, u);
    }
  }

  lemma SomeAgain(cfg: Config, run: Run, w: nat, n: nat) returns (t: nat, u: nat)
    requires Sane(cfg) && IsRun(cfg, run) && w < |run.states|
    requires BeginCount(cfg, run, w, n) >= 2 + Waiting(run.states[w], n)
    ensures AgainEnded(cfg, run, w, n, t, u)
  {
    var last := LastBegin(cfg, run, w, n);
    if PendingObject(run.states[w], n) {
      u := LastBegin(cfg, run, last, n);
      t := LastBegin(cfg, run, u, n);
      RunKeepsSlot(cfg, run, last, w, 0);
      OldIsOver(cfg, run, w, run.states[u].claims);
    } else {
      u := last;
      t := LastBegin(cfg, run, u, n);
      EndedIff(cfg, run, w, n);
    }
  }

  lemma AgainCounts(cfg: Config, run: Run, w: nat, n: nat, t: nat, u: nat)
    requires Sane(cfg) && IsRun(cfg, run) && w < |run.states| && AgainEnded(cfg, run, w, n, t, u)
    ensures BeginCount(cfg, run, w, n) >= 2 + Waiting(run.states[w], n)
  {
    BeginCountGrows(cfg, run, t + 1, u, n);
    BeginCountGrows(cfg, run, u + 1, w, n);
    if BeginCount(cfg, run, w, n) == BeginCount(cfg, run, u + 1, n) {
      LatestStays(cfg, run, u + 1, w, n);
      EndedIff(cfg, run, w, n);
    }
  }
}
