/** NACK repair: what the sent-object ring answers, and that a fully answered NACK completes the object. */
module Repair {
  import opened Bytes
  import opened ErasureCode
  import opened Tracks
  import opened Wire
  import opened Sender
  import opened Assembler
  import opened Residency
  import opened Protocol
  import opened Delivery
  import opened Guarantees

  // ----- What the ring answers -----

  /** Object n is among the last 32 DATA objects published, with or without a peer. */
  ghost predicate Recent(s: System, n: nat) {
    exists m: nat :: Remembered(s, m) && s.kept[m].sentAs == Some(n)
  }

  /** Whatever answers for object n, unless it is a stray, is the object's own entry. */
  lemma MatchIsOwn(cfg: Config, s: System, n: nat, track: TrackId, j: nat) returns (m: nat)
    requires Inv(cfg, s) && n < |s.sent| && j < SENT_CACHE_SIZE && SameTrack(track, s.sent[n].item.track)
    requires Matches(s.ring.slots[j], track, s.sent[n].item.groupId, s.sent[n].item.objectId)
    ensures Remembered(s, m) && j == m % SENT_CACHE_SIZE && s.ring.slots[j].value == Cache(s.kept[m].item, s.kept[m].l)
    ensures s.kept[m].sentAs.None? || s.kept[m].sentAs == Some(n)
  {
    m := RingOrigin(cfg, s, j);
    if s.kept[m].sentAs.Some? {
      SameNameSameObject(cfg, s.sent, s.kept[m].sentAs.value, n);
    }
  }

  lemma RememberedIsThere(cfg: Config, s: System, m: nat)
    requires Inv(cfg, s) && Remembered(s, m)
    ensures s.ring.slots[m % SENT_CACHE_SIZE] == Some(Cache(s.kept[m].item, s.kept[m].l))
  {
    assert s.ring.slots[m % SENT_CACHE_SIZE] == Some(Caches(s.kept)[m]);
  }

  lemma RecentIsFound(cfg: Config, s: System, n: nat, track: TrackId)
    requires Inv(cfg, s) && n < |s.sent| && Recent(s, n) && SameTrack(track, s.sent[n].item.track)
    ensures IndexOfCached(s.ring.slots, track, s.sent[n].item.groupId, s.sent[n].item.objectId) < |s.ring.slots|
  {
    var m: nat :| Remembered(s, m) && s.kept[m].sentAs == Some(n);
    RememberedIsThere(cfg, s, m);
    assert Matches(s.ring.slots[m % SENT_CACHE_SIZE], track, s.sent[n].item.groupId, s.sent[n].item.objectId);
  }

  /** A NACK for a DATA object that was sent, unless a stray is found first, is answered with exactly the datagrams
      first sent for the first 256 requested symbols if the object is among the last 32, and with nothing otherwise.
      */
  lemma AnswerExactness(cfg: Config, s: System, n: nat, missing: seq<nat>, times: seq<u64>)
    requires Sane(cfg) && Inv(cfg, s) && RingShape(cfg.code, s.ring.slots)
    requires n < |s.sent| && s.sent[n].item.track.kind == TRACK_DATA && |missing| == |times|
    requires !FindsStray(cfg, s, s.sent[n].alias, s.sent[n].item.groupId, s.sent[n].item.objectId)
    ensures var x := s.sent[n];
            && |Symbols(cfg.code, x.item, x.l)| == x.l.k + x.l.p
            && HandleNack(cfg.code, s.ring.slots, cfg.senderSubs, x.alias, x.item.groupId, x.item.objectId,
                          missing, times)
               == if Recent(s, n) then Originals(cfg.code, x.item, x.alias, x.l, Asked(missing), Asked(times)) else []
  {
    var x := s.sent[n];
    RetransmissionFidelity(cfg.code, x.item, x.l, x.alias, Asked(missing), Asked(times));
    var track := FindByAlias(cfg.senderSubs, x.alias).value;
    var j := IndexOfCached(s.ring.slots, track, x.item.groupId, x.item.objectId);
    if j < |s.ring.slots| {
      var m := MatchIsOwn(cfg, s, n, track, j);
    } else if Recent(s, n) {
      RecentIsFound(cfg, s, n, track);
    }
  }

  /** In every reachable state the sent-object ring answers for exactly the last 32 DATA objects, if no stray comes
      first. */
  lemma RunAnswersExactly(cfg: Config, run: Run, t: nat, n: nat, missing: seq<nat>, times: seq<u64>)
    requires Sane(cfg) && IsRun(cfg, run) && t < |run.states| && n < |run.states[t].sent|
    requires run.states[t].sent[n].item.track.kind == TRACK_DATA && |missing| == |times|
    requires var s := run.states[t];
             !FindsStray(cfg, s, s.sent[n].alias, s.sent[n].item.groupId, s.sent[n].item.objectId)
    ensures var s := run.states[t];
            var x := s.sent[n];
            && RingShape(cfg.code, s.ring.slots) && |Symbols(cfg.code, x.item, x.l)| == x.l.k + x.l.p
            && HandleNack(cfg.code, s.ring.slots, cfg.senderSubs, x.alias, x.item.groupId, x.item.objectId,
                          missing, times)
               == if Recent(s, n) then Originals(cfg.code, x.item, x.alias, x.l, Asked(missing), Asked(times)) else []
  {
    RunKeeps(cfg, run, t);
    RingSafe(cfg, run.states[t]);
    AnswerExactness(cfg, run.states[t], n, missing, times);
  }

  // ----- One residency over time -----

  /** Nothing is forgotten: a decoded slot stays decoded, and until then received symbols stay received. */
  predicate Advances(a: Slot, b: Slot) {
    && (a.decoded ==> b.decoded)
    && (b.decoded || (|a.mask| == |b.mask| && forall q :: 0 <= q < |a.mask| && a.mask[q] ==> b.mask[q]))
  }

  predicate Sized(s: System) {
    |s.rids| == |s.owners| == |s.receiver.slots| == ASSEMBLER_CACHE_SIZE
  }

  /** How slot i may differ between an earlier and a later state. */
  predicate SlotKept(s: System, s': System, i: nat)
    requires Sized(s) && Sized(s') && i < ASSEMBLER_CACHE_SIZE
  {
    && s.claims <= s'.claims && s.sent <= s'.sent
    && (s'.rids[i] == s.rids[i] || s'.rids[i] >= s.claims)
    && (Used(s.receiver.slots[i]) ==> Used(s'.receiver.slots[i]))
    && (Used(s.receiver.slots[i]) && s'.rids[i] == s.rids[i] ==>
          s'.owners[i] == s.owners[i] && Advances(s.receiver.slots[i], s'.receiver.slots[i]))
  }

  lemma SlotKeptTransitive(s: System, t: System, s': System, i: nat)
    requires Sized(s) && Sized(t) && Sized(s') && i < ASSEMBLER_CACHE_SIZE
    requires SlotKept(s, t, i) && SlotKept(t, s', i)
    requires Used(s.receiver.slots[i]) ==> s.rids[i] < s.claims
    ensures SlotKept(s, s', i)
  {}

  lemma MovedKeepsSlot(cfg: Config, s: System, s': System, m: Move, q: nat, i: nat)
    requires SlotsOk(cfg, s) && Moved(cfg, s, s', m) && i < ASSEMBLER_CACHE_SIZE
    requires q < |m.before.mask|
    requires !m.before.decoded ==> m.after.mask == m.before.mask[q := true]
    requires m.before.decoded ==> m.after == m.before
    ensures Sized(s) && Sized(s') && SlotKept(s, s', i)
  {}

  lemma ArriveKeepsSlot(cfg: Config, s: System, raw: Block, i: nat)
    requires Sane(cfg) && Inv(cfg, s) && raw in s.net && Safe(cfg, s, Arrive(raw)) && i < ASSEMBLER_CACHE_SIZE
    ensures Sized(s) && Sized(Arrived(cfg, s, raw)) && SlotKept(s, Arrived(cfg, s, raw), i)
  {
    var admitted := Admit(cfg.receiverSubs, raw);
    if admitted.Some? {
      var (h, track) := admitted.value;
      var n := AdmittedCarries(cfg, s, raw);
      var m := ArriveMoved(cfg, s, raw, h, track, n);
      MovedKeepsSlot(cfg, s, Arrived(cfg, s, raw), m, h.index, i);
    }
  }

  lemma RunSized(cfg: Config, run: Run, t: nat, i: nat)
    requires Sane(cfg) && IsRun(cfg, run) && t < |run.states| && i < ASSEMBLER_CACHE_SIZE
    ensures var s := run.states[t];
            && Sized(s)
            && (Used(s.receiver.slots[i]) ==> s.rids[i] < s.claims && s.owners[i] < |s.sent|)
  {
    RunSlots(cfg, run, t);
  }

  lemma RunStepKeepsSlot(cfg: Config, run: Run, t: nat, i: nat)
    requires Sane(cfg) && IsRun(cfg, run) && t < |run.actions| && i < ASSEMBLER_CACHE_SIZE
    ensures Sized(run.states[t]) && Sized(run.states[t + 1]) && SlotKept(run.states[t], run.states[t + 1], i)
  {
    var m, q := RunMoves(cfg, run, t);
    if m.Some? {
      MovedKeepsSlot(cfg, run.states[t], run.states[t + 1], m.value, q, i);
    }
  }

  /** Between any two states of a run. */
  lemma {:induction false} RunKeepsSlot(cfg: Config, run: Run, t: nat, u: nat, i: nat)
    requires Sane(cfg) && IsRun(cfg, run) && t <= u < |run.states| && i < ASSEMBLER_CACHE_SIZE
    ensures Sized(run.states[t]) && Sized(run.states[u]) && SlotKept(run.states[t], run.states[u], i)
    decreases u - t
  {
    RunSized(cfg, run, t, i);
    if t < u {
      RunKeepsSlot(cfg, run, t, u - 1, i);
      RunStepKeepsSlot(cfg, run, u - 1, i);
      SlotKeptTransitive(run.states[t], run.states[u - 1], run.states[u], i);
    }
  }

  // ----- Completion -----

  /** A slot has symbol q, or no longer needs it. */
  predicate Has(slot: Slot, q: nat) { slot.decoded || (q < |slot.mask| && slot.mask[q]) }

  /** A symbol of the object a slot works on is admitted, and goes to that slot. */
  lemma SymbolFindsSlot(cfg: Config, s: System, raw: Block, i: nat, q: nat, path: byte, time: u64)
    requires Sane(cfg) && SentOk(cfg, s.sent) && SlotsOk(cfg, s)
    requires i < ASSEMBLER_CACHE_SIZE && Used(s.receiver.slots[i])
    requires s.sent[s.owners[i]].alias != TRACK_TELEMETRY
    requires IsSymbol(cfg.code, s.sent[s.owners[i]], q, path, time, raw)
    ensures var admitted := Admit(cfg.receiverSubs, raw);
            && admitted.Some?
            && var (h, track) := admitted.value;
               && h.index == q && Carries(cfg, s, raw, h, track, s.owners[i])
               && Resident(s.receiver, h) && Locate(s.receiver, h) == i
  {
    var n := s.owners[i];
    var x := s.sent[n];
    HonestHeader(cfg.code, x, q, path, time, raw);
    assert Holding(cfg.code, x, s.receiver.slots[i]);
    var (h, track) := Admit(cfg.receiverSubs, raw).value;
    SymbolCarries(cfg, s, n, q, path, time, raw);
    assert AssemblesFor(s.receiver.slots[i], h);
    TargetHolds(cfg, s, raw, h, track, n);
  }

  /** When a symbol of the object slot i works on arrives, the slot has it afterwards. */
  lemma ArriveMarks(cfg: Config, s: System, raw: Block, s': System, i: nat, q: nat, path: byte, time: u64)
    requires Sane(cfg) && Inv(cfg, s) && Safe(cfg, s, Arrive(raw)) && s' == Arrived(cfg, s, raw)
    requires i < ASSEMBLER_CACHE_SIZE && Used(s.receiver.slots[i])
    requires s.sent[s.owners[i]].alias != TRACK_TELEMETRY
    requires IsSymbol(cfg.code, s.sent[s.owners[i]], q, path, time, raw)
    ensures Sized(s') && Has(s'.receiver.slots[i], q)
  {
    SymbolFindsSlot(cfg, s, raw, i, q, path, time);
    var (h, track) := Admit(cfg.receiverSubs, raw).value;
    var m := ArriveMoved(cfg, s, raw, h, track, s.owners[i]);
    MoveMarks(cfg, s, s', m, q);
  }

  lemma MoveMarks(cfg: Config, s: System, s': System, m: Move, q: nat)
    requires SlotsOk(cfg, s) && Moved(cfg, s, s', m) && q < |m.before.mask|
    requires !m.before.decoded ==> m.after.mask == m.before.mask[q := true]
    ensures Sized(s') && Has(s'.receiver.slots[m.i], q)
  {
    assert s'.receiver.slots[m.i] == m.after;
  }

  lemma DataIsNotTelemetry(cfg: Config, x: Sent)
    requires Sane(cfg) && ValidTrack(x.item.track) && x.item.track.kind == TRACK_DATA
    requires FindByTrack(cfg.senderSubs, x.item.track) == Some(x.alias)
    ensures x.alias != TRACK_TELEMETRY
  {
    assert FindByAlias(cfg.senderSubs, x.alias).Some?;
  }

  /** If a symbol of the object arrives during a stretch of a run in which the slot keeps its residency, the slot has
      that symbol at the end. */
  lemma ArrivedSymbolStays(cfg: Config, run: Run, t: nat, u: nat, i: nat, j: nat, q: nat, path: byte, time: u64)
    requires Sane(cfg) && IsRun(cfg, run) && t <= j < u < |run.states| && i < ASSEMBLER_CACHE_SIZE
    requires Sized(run.states[t]) && Sized(run.states[u])
    requires Used(run.states[t].receiver.slots[i]) && run.states[u].rids[i] == run.states[t].rids[i]
    requires run.states[t].owners[i] < |run.states[t].sent|
    requires run.states[t].sent[run.states[t].owners[i]].alias != TRACK_TELEMETRY
    requires run.actions[j].Arrive?
    requires IsSymbol(cfg.code, run.states[t].sent[run.states[t].owners[i]], q, path, time, run.actions[j].raw)
    ensures Has(run.states[u].receiver.slots[i], q)
  {
    RunSized(cfg, run, t, i);
    RunKeepsSlot(cfg, run, t, j, i);
    RunKeepsSlot(cfg, run, j + 1, u, i);
    RunStepKeepsSlot(cfg, run, j, i);
    ArrivalInRun(cfg, run, t, j, i, q, path, time);
  }

  lemma ArrivalInRun(cfg: Config, run: Run, t: nat, j: nat, i: nat, q: nat, path: byte, time: u64)
    requires Sane(cfg) && IsRun(cfg, run) && t <= j < |run.actions| && i < ASSEMBLER_CACHE_SIZE
    requires Sized(run.states[t]) && Sized(run.states[j]) && SlotKept(run.states[t], run.states[j], i)
    requires Used(run.states[t].receiver.slots[i]) && run.states[j].rids[i] == run.states[t].rids[i]
    requires run.states[t].owners[i] < |run.states[t].sent|
    requires run.states[t].sent[run.states[t].owners[i]].alias != TRACK_TELEMETRY
    requires run.actions[j].Arrive?
    requires IsSymbol(cfg.code, run.states[t].sent[run.states[t].owners[i]], q, path, time, run.actions[j].raw)
    ensures Sized(run.states[j + 1]) && Has(run.states[j + 1].receiver.slots[i], q)
  {
    RunKeeps(cfg, run, j);
    var s, s' := run.states[j], run.states[j + 1];
    assert StepAt(cfg, run, j);
    assert s.sent[s.owners[i]] == run.states[t].sent[run.states[t].owners[i]];
    ArriveMarks(cfg, s, run.actions[j].raw, s', i, q, path, time);
  }

  /** Step t of the run is the arrival that sent NACK k of residency states[t + 1].rids[i]. */
  ghost predicate NackSentAt(run: Run, t: nat, k: nat, i: nat) {
    && t < |run.actions| && t + 1 < |run.states|
    && |run.states[t].log| <= k < |run.states[t + 1].log|
    && Sized(run.states[t + 1]) && i < ASSEMBLER_CACHE_SIZE && Used(run.states[t + 1].receiver.slots[i])
    && run.states[t + 1].log[k].output.Nack? && run.states[t + 1].log[k].rid == run.states[t + 1].rids[i]
  }

  /** When a NACK goes out, its snapshot is the mask of the slot that sent it, and its object is that slot's. */
  lemma MovedSnapshot(cfg: Config, s: System, s': System, m: Move, k: nat, i: nat)
    requires SlotsOk(cfg, s) && SlotsOk(cfg, s') && Moved(cfg, s, s', m)
    requires |s.log| <= k < |s'.log| && s'.log[k].output.Nack?
    requires i < ASSEMBLER_CACHE_SIZE && Used(s'.receiver.slots[i]) && s'.log[k].rid == s'.rids[i]
    ensures s'.log[k].mask == s'.receiver.slots[i].mask && s'.log[k].sentIndex == s'.owners[i]
  {
    var e := s'.log[k];
    assert e in m.lost || e in m.nacks || e in m.delivered;
    assert e in m.nacks;
    assert Used(s'.receiver.slots[m.i]) && s'.rids[i] == s'.rids[m.i];
  }

  lemma SnapshotOf(cfg: Config, s: System, s': System, m: Option<Move>, k: nat, i: nat)
    requires SlotsOk(cfg, s)
    requires m.None? ==> Quiet(s, s')
    requires m.Some? ==> Moved(cfg, s, s', m.value)
    requires |s.log| <= k < |s'.log| && s'.log[k].output.Nack?
    requires i < ASSEMBLER_CACHE_SIZE && Used(s'.receiver.slots[i]) && s'.log[k].rid == s'.rids[i]
    ensures s'.log[k].mask == s'.receiver.slots[i].mask && s'.log[k].sentIndex == s'.owners[i] < |s'.sent|
  {
    MovedSlots(cfg, s, s', m.value);
    MovedSnapshot(cfg, s, s', m.value, k, i);
  }

  /** The symbols not listed by a NACK are in the slot, from the moment it is sent until the slot is decoded or
      changes hands. */
  lemma UnlistedStay(cfg: Config, run: Run, t: nat, k: nat, i: nat, u: nat, q: nat)
    requires Sane(cfg) && IsRun(cfg, run) && NackSentAt(run, t, k, i) && t < u < |run.states|
    requires Sized(run.states[u]) && run.states[u].rids[i] == run.states[t + 1].rids[i]
    requires var s := run.states[t + 1];
             s.owners[i] < |s.sent| && q < SentTotal(s.sent[s.owners[i]]) && q !in s.log[k].output.missing
    ensures Has(run.states[u].receiver.slots[i], q)
  {
    var s := run.states[t + 1];
    NackInRun(cfg, run, t, k, i);
    NackExactness(cfg, run, t + 1, k);
    RunKeepsSlot(cfg, run, t + 1, u, i);
  }

  lemma NackIsNotTelemetry(cfg: Config, run: Run, t: nat, k: nat)
    requires Sane(cfg) && IsRun(cfg, run) && t < |run.states|
    requires k < |run.states[t].log| && run.states[t].log[k].output.Nack?
    ensures run.states[t].log[k].sentIndex < |run.states[t].sent|
    ensures run.states[t].sent[run.states[t].log[k].sentIndex].alias != TRACK_TELEMETRY
  {
    NackExactness(cfg, run, t, k);
    RunKeeps(cfg, run, t);
    DataIsNotTelemetry(cfg, run.states[t].sent[run.states[t].log[k].sentIndex]);
  }

  lemma NackInRun(cfg: Config, run: Run, t: nat, k: nat, i: nat)
    requires Sane(cfg) && IsRun(cfg, run) && NackSentAt(run, t, k, i)
    ensures var s := run.states[t + 1];
            && s.log[k].mask == s.receiver.slots[i].mask && s.log[k].sentIndex == s.owners[i]
            && s.owners[i] < |s.sent|
  {
    RunSnapshot(cfg, run, t, run.states[t + 1], k, i);
  }

  lemma RunSnapshot(cfg: Config, run: Run, t: nat, s': System, k: nat, i: nat)
    requires Sane(cfg) && IsRun(cfg, run) && t < |run.actions| && s' == run.states[t + 1]
    requires |run.states[t].log| <= k < |s'.log| && s'.log[k].output.Nack?
    requires Sized(s') && i < ASSEMBLER_CACHE_SIZE && Used(s'.receiver.slots[i]) && s'.log[k].rid == s'.rids[i]
    ensures s'.log[k].mask == s'.receiver.slots[i].mask && s'.log[k].sentIndex == s'.owners[i] < |s'.sent|
  {
    var m, q := RunMoves(cfg, run, t);
    SnapshotOf(cfg, run.states[t], s', m, k, i);
  }

  lemma CompleteIsDecoded(code: Code, x: Sent, slot: Slot)
    requires Holding(code, x, slot) && forall q :: 0 <= q < SentTotal(x) ==> Has(slot, q)
    ensures slot.decoded
  {
    forall q | 0 <= q < x.l.k
      ensures slot.decoded || slot.mask[q]
    {
      assert Has(slot, q);
    }
  }

  lemma DecodedHasObject(cfg: Config, s: System, i: nat)
    requires SlotsOk(cfg, s) && OutcomesOk(s) && i < ASSEMBLER_CACHE_SIZE
    requires Used(s.receiver.slots[i]) && s.receiver.slots[i].decoded
    ensures Tally(s.log, s.rids[i], Object) == 1
  {
    assert !PendingResidency(s, s.rids[i]);
  }

  /** A slot that has every symbol is decoded, and its residency has produced its one OBJECT event. */
  lemma CompleteIsDelivered(cfg: Config, run: Run, u: nat, i: nat)
    requires Sane(cfg) && IsRun(cfg, run) && u < |run.states| && i < ASSEMBLER_CACHE_SIZE && Sized(run.states[u])
    requires Used(run.states[u].receiver.slots[i]) && run.states[u].owners[i] < |run.states[u].sent|
    requires var s := run.states[u];
             forall q :: 0 <= q < SentTotal(s.sent[s.owners[i]]) ==> Has(s.receiver.slots[i], q)
    ensures run.states[u].receiver.slots[i].decoded
    ensures Tally(run.states[u].log, run.states[u].rids[i], Object) == 1
  {
    RunKeeps(cfg, run, u);
    var s := run.states[u];
    CompleteIsDecoded(cfg.code, s.sent[s.owners[i]], s.receiver.slots[i]);
    DecodedHasObject(cfg, s, i);
  }

  /** The datagram that answers entry p of a NACK. */
  ghost function AnswerTo(cfg: Config, x: Sent, missing: seq<nat>, times: seq<u64>, p: nat): (raw: Block)
    requires p < |missing| == |times| && missing[p] < |Symbols(cfg.code, x.item, x.l)|
  {
    SymbolDatagram(cfg.code, x.item, x.alias, x.l, missing[p], 0, times[p])
  }

  /** Each of the first 256 entries of a NACK's list is answered by a datagram that is on the network once the NACK
      has been handled, if the object is still among the last 32. */
  lemma AnswersReachNetwork(cfg: Config, run: Run, c: nat, n: nat, missing: seq<nat>, times: seq<u64>, p: nat)
    requires Sane(cfg) && IsRun(cfg, run) && c < |run.actions| && n < |run.states[c].sent|
    requires var x := run.states[c].sent[n];
             && x.item.track.kind == TRACK_DATA
             && run.actions[c] == Answer(x.alias, x.item.groupId, x.item.objectId, missing, times)
             && p < |Asked(missing)| && |missing| == |times|
             && missing[p] < SentTotal(x) == |Symbols(cfg.code, x.item, x.l)|
    requires Recent(run.states[c], n)
    ensures AnswerTo(cfg, run.states[c].sent[n], missing, times, p) in run.states[c + 1].net
  {
    var x := run.states[c].sent[n];
    assert StepAt(cfg, run, c);
    RunAnswersExactly(cfg, run, c, n, missing, times);
    OriginalsCover(cfg.code, x.item, x.alias, x.l, Asked(missing), Asked(times), p);
    RunAnswered(cfg, run, c, AnswerTo(cfg, x, missing, times, p));
  }

  /** What a step of the publisher sends in answer to a NACK. */
  ghost function AnswerOf(cfg: Config, s: System, a: Action): (r: seq<Block>)
  {
    if a.Answer? && |a.missing| == |a.repairTimes| && RingShape(cfg.code, s.ring.slots) then
      HandleNack(cfg.code, s.ring.slots, cfg.senderSubs, a.alias, a.groupId, a.objectId, a.missing, a.repairTimes)
    else []
  }

  /** All of it is on the network after the step. */
  lemma RunAnswered(cfg: Config, run: Run, c: nat, raw: Block)
    requires IsRun(cfg, run) && c < |run.actions| && raw in AnswerOf(cfg, run.states[c], run.actions[c])
    ensures raw in run.states[c + 1].net
  {
    assert StepAt(cfg, run, c);
  }

  /** Residency states[t + 1].rids[i] sent NACK k in step t; every symbol it lists arrived between c and u, in any order
      and among any other traffic; and slot i still belongs to that residency in state u. Then the slot is decoded and
      the residency has delivered its object. */
  lemma ListedSymbolsComplete(cfg: Config, run: Run, t: nat, k: nat, i: nat, c: nat, times: seq<u64>, u: nat)
    requires Sane(cfg) && IsRun(cfg, run) && NackSentAt(run, t, k, i) && t < c < u < |run.states|
    requires Sized(run.states[u]) && run.states[u].rids[i] == run.states[t + 1].rids[i]
    requires |times| == |run.states[t + 1].log[k].output.missing|
    requires run.states[t + 1].log[k].sentIndex < |run.states[t + 1].sent|
    requires var s, e := run.states[t + 1], run.states[t + 1].log[k];
             var x := s.sent[e.sentIndex];
             && |Symbols(cfg.code, x.item, x.l)| == SentTotal(x)
             && forall p :: 0 <= p < |e.output.missing| && e.output.missing[p] < SentTotal(x) ==>
                  exists j :: c < j < u && run.actions[j] == Arrive(AnswerTo(cfg, x, e.output.missing, times, p))
    ensures run.states[u].receiver.slots[i].decoded
    ensures Tally(run.states[u].log, run.states[u].rids[i], Object) == 1
  {
    var s, e := run.states[t + 1], run.states[t + 1].log[k];
    NackInRun(cfg, run, t, k, i);
    RunKeepsSlot(cfg, run, t + 1, u, i);
    var x := s.sent[s.owners[i]];
    RunSized(cfg, run, u, i);
    forall q | 0 <= q < SentTotal(x)
      ensures Has(run.states[u].receiver.slots[i], q)
    {
      if q in e.output.missing {
        var p :| 0 <= p < |e.output.missing| && e.output.missing[p] == q;
        var j :| c < j < u && run.actions[j] == Arrive(AnswerTo(cfg, x, e.output.missing, times, p));
        ListedSymbolHas(cfg, run, t, k, i, j, u, p, times);
      } else {
        UnlistedStay(cfg, run, t, k, i, u, q);
      }
    }
    assert run.states[u].sent[run.states[u].owners[i]] == x;
    CompleteIsDelivered(cfg, run, u, i);
  }

  /** The answer to entry p arrived in step j. */
  lemma ListedSymbolHas(cfg: Config, run: Run, t: nat, k: nat, i: nat, j: nat, u: nat, p: nat, times: seq<u64>)
    requires Sane(cfg) && IsRun(cfg, run) && NackSentAt(run, t, k, i) && t < j < u < |run.states|
    requires Sized(run.states[u]) && run.states[u].rids[i] == run.states[t + 1].rids[i]
    requires p < |run.states[t + 1].log[k].output.missing| == |times|
    requires run.states[t + 1].log[k].sentIndex == run.states[t + 1].owners[i] < |run.states[t + 1].sent|
    requires var x := run.states[t + 1].sent[run.states[t + 1].owners[i]];
             var missing := run.states[t + 1].log[k].output.missing;
             && missing[p] < SentTotal(x) == |Symbols(cfg.code, x.item, x.l)|
             && run.actions[j] == Arrive(AnswerTo(cfg, x, missing, times, p))
    ensures Has(run.states[u].receiver.slots[i], run.states[t + 1].log[k].output.missing[p])
  {
    var x, q := run.states[t + 1].sent[run.states[t + 1].owners[i]], run.states[t + 1].log[k].output.missing[p];
    assert IsSymbol(cfg.code, x, q, 0, times[p], run.actions[j].raw);
    NackIsNotTelemetry(cfg, run, t + 1, k);
    ArrivedSymbolStays(cfg, run, t + 1, u, i, j, q, 0, times[p]);
  }
}
