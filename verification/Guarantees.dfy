/** The FEC object protocol's promises, as statements about every run. */
module Guarantees {
  import opened Bytes
  import opened ErasureCode
  import opened Tracks
  import opened Wire
  import opened Sender
  import opened Assembler
  import opened Residency
  import opened Protocol
  import opened Delivery

  /** No run gets stuck: whatever can happen in a reachable state, a key used again and a NACK answered from a stray
      included, is handled within every buffer bound. */
  lemma EveryPossibleStepIsSafe(cfg: Config, run: Run, k: nat, a: Action)
    requires Sane(cfg) && IsRun(cfg, run) && k < |run.states| && Possible(cfg, run.states[k], a)
    ensures exists s' :: GoesTo(cfg, run.states[k], a, s')
    ensures Enabled(cfg, run.states[k], a) ==> exists s' :: StepsTo(cfg, run.states[k], a, s')
  {
    RunKeeps(cfg, run, k);
    PossibleIsSafe(cfg, run.states[k], a);
    var s' := Step(cfg, run.states[k], a);
    assert GoesTo(cfg, run.states[k], a, s');
    assert Enabled(cfg, run.states[k], a) ==> StepsTo(cfg, run.states[k], a, s');
  }

  lemma PossibleIsSafe(cfg: Config, s: System, a: Action)
    requires Sane(cfg) && Inv(cfg, s) && Possible(cfg, s, a)
    ensures Safe(cfg, s, a)
  {
    match a
    case Publish(item, l, paths, times) => PublishSafe(cfg, s, item, l, paths, times);
    case Stash(item, l) => StashKeeps(cfg, s, item, l);
    case Answer(_, _, _, _, _) => RingSafe(cfg, s);
    case Arrive(raw) => ArriveSafe(cfg, s, raw);
  }

  /** Every datagram of every run fits the packet buffer of 2048 bytes. */
  lemma DatagramsFit(cfg: Config, run: Run, t: nat, raw: Block)
    requires Sane(cfg) && IsRun(cfg, run) && t < |run.states| && raw in run.states[t].net
    ensures |raw| <= 2048
  {
    RunKeeps(cfg, run, t);
    var s := run.states[t];
    var n, i, path, time :| 0 <= n < |s.sent| && IsSymbol(cfg.code, s.sent[n], i, path, time, raw);
    HonestHeader(cfg.code, s.sent[n], i, path, time, raw);
  }

  // ----- Integrity -----

  predicate Names(track: TrackId, groupId: nat, objectId: nat, item: Item) {
    SameTrack(track, item.track) && groupId == item.groupId && objectId == item.objectId
  }

  /** Over every run with loss, duplication, reordering and arbitrary NACKs, a delivered object was published, and
      carries exactly what was published under its track, group and object id. */
  lemma DeliveredIsPublished(cfg: Config, run: Run, t: nat, k: nat)
    requires Sane(cfg) && IsRun(cfg, run) && t < |run.states|
    requires k < |run.states[t].log| && run.states[t].log[k].output.Delivered?
    ensures var s := run.states[t];
            var o := s.log[k].output;
            && (exists n :: 0 <= n < |s.sent| && Names(o.track, o.groupId, o.objectId, s.sent[n].item))
            && (forall n :: 0 <= n < |s.sent| && Names(o.track, o.groupId, o.objectId, s.sent[n].item) ==>
                  && s.sent[n].item.data == o.data
                  && s.sent[n].item.keyframe == o.keyframe && s.sent[n].item.priority == o.priority)
  {
    RunKeeps(cfg, run, t);
    var s := run.states[t];
    var o := s.log[k].output;
    var m := s.log[k].sentIndex;
    assert Names(o.track, o.groupId, o.objectId, s.sent[m].item);
    forall n | 0 <= n < |s.sent| && Names(o.track, o.groupId, o.objectId, s.sent[n].item)
      ensures n == m
    {
      SameNameSameObject(cfg, s.sent, n, m);
    }
  }

  lemma SameNameSameObject(cfg: Config, sent: seq<Sent>, n: nat, m: nat)
    requires SentOk(cfg, sent) && n < |sent| && m < |sent|
    requires Names(sent[m].item.track, sent[m].item.groupId, sent[m].item.objectId, sent[n].item)
    ensures n == m
  {
    SameTrackSameAlias(cfg.senderSubs, sent[n].item.track, sent[m].item.track);
    assert SameKey(sent[n], sent[m]) && SameKey(sent[m], sent[n]);
  }

  // ----- Conservation -----

  function Total(log: seq<Record>, kind: Kind): (n: nat)
  {
    if log == [] then 0
    else Total(log[..|log| - 1], kind) + if Is(kind, log[|log| - 1].output) then 1 else 0
  }

  function PendingMask(slots: seq<Slot>): (r: seq<bool>)
    ensures |r| == |slots|
  {
    seq(|slots|, i requires 0 <= i < |slots| => Pending(slots[i]))
  }

  ghost predicate Balanced(s: System) {
    s.claims == Total(s.log, Object) + Total(s.log, Loss) + Count(PendingMask(s.receiver.slots))
  }

  lemma {:induction false} TotalConcat(a: seq<Record>, b: seq<Record>, kind: Kind)
    ensures Total(a + b, kind) == Total(a, kind) + Total(b, kind)
  {
    if b == [] {
      assert a + b == a;
    } else {
      assert (a + b)[..|a + b| - 1] == a + b[..|b| - 1];
      TotalConcat(a, b[..|b| - 1], kind);
    }
  }

  lemma TotalRecorded(cfg: Config, sent: seq<Sent>, recs: seq<Record>, of: Kind, present: bool, rid: nat, n: nat,
                      kind: Kind)
    requires Recorded(cfg, sent, recs, of, present, rid, n)
    ensures Total(recs, kind) == if present && kind == of then 1 else 0
  {
    if present {
      assert recs == [recs[0]] && recs[0] in recs;
      assert Total([], kind) == 0;
    }
  }

  lemma CountUpdate(mask: seq<bool>, i: nat, b: bool)
    requires i < |mask|
    ensures Count(mask[i := b]) + (if mask[i] then 1 else 0) == Count(mask) + (if b then 1 else 0)
  {
    var off := mask[i := false];
    CountSet(off, i);
    assert mask[i := b] == if b then off[i := true] else off;
    assert mask == if mask[i] then off[i := true] else off;
  }

  lemma MovedTotal(cfg: Config, s: System, s': System, m: Move, kind: Kind)
    requires SlotsOk(cfg, s) && Moved(cfg, s, s', m) && kind != Request
    ensures Total(s'.log, kind) == Total(s.log, kind)
              + (if Evicts(s, m) && kind == Loss then 1 else 0)
              + (if m.after.decoded && !m.before.decoded && kind == Object then 1 else 0)
  {
    TotalConcat(s.log + m.lost + m.nacks, m.delivered, kind);
    TotalConcat(s.log + m.lost, m.nacks, kind);
    TotalConcat(s.log, m.lost, kind);
    TotalRecorded(cfg, s.sent, m.lost, Loss, Evicts(s, m), s.rids[m.i], s.owners[m.i], kind);
    TotalRecorded(cfg, s.sent, m.nacks, Request, m.after.nackSent && !m.before.nackSent, s'.rids[m.i], m.n, kind);
    TotalRecorded(cfg, s.sent, m.delivered, Object, m.after.decoded && !m.before.decoded, s'.rids[m.i], m.n, kind);
  }

  lemma MovedBalances(cfg: Config, s: System, s': System, m: Move)
    requires SlotsOk(cfg, s) && Moved(cfg, s, s', m) && Balanced(s)
    ensures Balanced(s')
  {
    MovedTotal(cfg, s, s', m, Object);
    MovedTotal(cfg, s, s', m, Loss);
    CountUpdate(PendingMask(s.receiver.slots), m.i, Pending(m.after));
    assert PendingMask(s'.receiver.slots) == PendingMask(s.receiver.slots)[m.i := Pending(m.after)];
  }

  /** Slot claims = OBJECT events + LOST events + resident undecoded slots. */
  lemma {:induction false} Conservation(cfg: Config, run: Run, t: nat)
    requires Sane(cfg) && IsRun(cfg, run) && t < |run.states|
    ensures Balanced(run.states[t])
  {
    if t == 0 {
      InitBalanced();
    } else {
      Conservation(cfg, run, t - 1);
      RunStepBalances(cfg, run, t - 1);
    }
  }

  lemma InitBalanced()
    ensures Balanced(Init())
  {
    CountNone(PendingMask(Init().receiver.slots));
  }

  lemma RunStepBalances(cfg: Config, run: Run, t: nat)
    requires Sane(cfg) && IsRun(cfg, run) && t < |run.actions| && Balanced(run.states[t])
    ensures Balanced(run.states[t + 1])
  {
    var m, q := RunMoves(cfg, run, t);
    if m.Some? {
      MovedBalances(cfg, run.states[t], run.states[t + 1], m.value);
    }
  }

  /** No residency produces both an OBJECT and a LOST event, or either one twice; it has produced one of them exactly
      if no slot is still pending on it. */
  lemma OneOutcome(cfg: Config, run: Run, t: nat, r: nat)
    requires Sane(cfg) && IsRun(cfg, run) && t < |run.states| && r < run.states[t].claims
    ensures var s := run.states[t];
            && |s.rids| == |s.receiver.slots|
            && Tally(s.log, r, Object) + Tally(s.log, r, Loss) == if PendingResidency(s, r) then 0 else 1
  {
    RunKeeps(cfg, run, t);
  }

  /** Every LOST event names a published object, and is the one and only outcome of its residency. (An earlier residency
      may have delivered the same object.) */
  lemma LostEndsResidency(cfg: Config, run: Run, t: nat, k: nat)
    requires Sane(cfg) && IsRun(cfg, run) && t < |run.states|
    requires k < |run.states[t].log| && run.states[t].log[k].output.Lost?
    ensures var s, e := run.states[t], run.states[t].log[k];
            && e.sentIndex < |s.sent|
            && Names(e.output.track, e.output.groupId, e.output.objectId, s.sent[e.sentIndex].item)
            && Tally(s.log, e.rid, Loss) == 1 && Tally(s.log, e.rid, Object) == 0
  {
    RunKeeps(cfg, run, t);
    var s := run.states[t];
    TallyPresent(s.log, k, Loss);
    OneOutcome(cfg, run, t, s.log[k].rid);
  }

  // ----- Recovery and NACK timing -----

  /** The received count is the number of set mask bits; a slot is decoded by the time all data symbols are in and
      not before k symbols are in; with an any-k code it is decoded exactly when k distinct symbols are in. */
  ghost predicate AtThreshold(code: Code, x: Sent, slot: Slot) {
    && x.l.k <= slot.total == SentTotal(x) <= |slot.mask|
    && slot.count == Count(slot.mask[..slot.total])
    && (slot.decoded ==> slot.count >= x.l.k)
    && (GotAllData(slot.mask, x.l.k) ==> slot.decoded)
    && (Recoverable(code, x) ==> (slot.decoded <==> slot.count >= x.l.k))
  }

  lemma HoldingAtThreshold(code: Code, x: Sent, slot: Slot)
    requires Holding(code, x, slot)
    ensures AtThreshold(code, x, slot)
  {
    CountPrefix(slot.mask, slot.total);
  }

  /** The recovery threshold holds of every used slot of every reachable state. */
  lemma RecoveryThreshold(cfg: Config, run: Run, t: nat, i: nat)
    requires Sane(cfg) && IsRun(cfg, run) && t < |run.states|
    requires i < |run.states[t].receiver.slots| && Used(run.states[t].receiver.slots[i])
    ensures var s := run.states[t];
            && i < |s.owners| && s.owners[i] < |s.sent|
            && AtThreshold(cfg.code, s.sent[s.owners[i]], s.receiver.slots[i])
  {
    RunKeeps(cfg, run, t);
    var s := run.states[t];
    HoldingAtThreshold(cfg.code, s.sent[s.owners[i]], s.receiver.slots[i]);
  }

  /** Sent for a DATA object of two or more symbols, with exactly ceil(k/2) distinct symbols in hand, and listing in
      ascending order exactly the symbols not in hand. */
  ghost predicate ExactNack(x: Sent, e: Record)
    requires e.output.Nack?
  {
    var missing := e.output.missing;
    && x.item.track.kind == TRACK_DATA && x.l.k >= 2
    && e.output.alias == x.alias && e.output.groupId == x.item.groupId && e.output.objectId == x.item.objectId
    && |e.mask| >= SentTotal(x) && Count(e.mask[..SentTotal(x)]) == (x.l.k + 1) / 2
    && (forall q :: q in missing <==> 0 <= q < SentTotal(x) && !e.mask[q])
    && Ascending(missing)
  }

  /** Every NACK of every run is exact, and is the only one of its residency. */
  lemma NackExactness(cfg: Config, run: Run, t: nat, k: nat)
    requires Sane(cfg) && IsRun(cfg, run) && t < |run.states|
    requires k < |run.states[t].log| && run.states[t].log[k].output.Nack?
    ensures var s := run.states[t];
            && s.log[k].sentIndex < |s.sent| && ExactNack(s.sent[s.log[k].sentIndex], s.log[k])
            && Tally(s.log, s.log[k].rid, Request) == 1
  {
    RunKeeps(cfg, run, t);
    var s := run.states[t];
    NackRecordExact(cfg, s.sent[s.log[k].sentIndex], s.log[k]);
    TallyPresent(s.log, k, Request);
  }

  lemma NackRecordExact(cfg: Config, x: Sent, e: Record)
    requires e.output.Nack? && OutputOk(cfg, x, e)
    ensures ExactNack(x, e)
  {
    MissingExact(e.mask[..SentTotal(x)]);
  }

  lemma {:induction false} TallyPresent(log: seq<Record>, k: nat, kind: Kind)
    requires k < |log| && Is(kind, log[k].output)
    ensures Tally(log, log[k].rid, kind) >= 1
  {
    var n := |log| - 1;
    if k < n {
      assert log[..n][k] == log[k];
      TallyPresent(log[..n], k, kind);
    }
  }

  /** A resident slot has sent its NACK exactly if it assembles a DATA object of two or more symbols and its distinct
      count has reached ceil(k/2). */
  lemma NackTiming(cfg: Config, run: Run, t: nat, i: nat)
    requires Sane(cfg) && IsRun(cfg, run) && t < |run.states|
    requires i < |run.states[t].receiver.slots| && Used(run.states[t].receiver.slots[i])
    ensures var s := run.states[t];
            && i < |s.owners| == |s.rids| && s.owners[i] < |s.sent|
            && var x := s.sent[s.owners[i]];
               Tally(s.log, s.rids[i], Request) ==
               if x.item.track.kind == TRACK_DATA && x.l.k >= 2 && s.receiver.slots[i].count >= (x.l.k + 1) / 2
               then 1 else 0
  {
    RunKeeps(cfg, run, t);
    var s := run.states[t];
    assert Holding(cfg.code, s.sent[s.owners[i]], s.receiver.slots[i]);
  }
}
