/** How long a residency lasts, and what happens to one object over several residencies. */
module Lifetime {
  import opened Bytes
  import opened Tracks
  import opened Wire
  import opened Sender
  import opened Assembler
  import opened Residency
  import opened Protocol
  import opened Delivery
  import opened Guarantees
  import opened Repair
  import Codec

  // ----- Slots are taken over in turn -----

  /** Residency rid, if it is the current one of slot i. */
  predicate InTurn(claims: nat, rid: nat, i: nat) {
    rid % ASSEMBLER_CACHE_SIZE == i && rid < claims <= rid + ASSEMBLER_CACHE_SIZE
  }

  ghost predicate Fifo(s: System) {
    && Sized(s) && s.receiver.next == s.claims % ASSEMBLER_CACHE_SIZE
    && forall i :: 0 <= i < ASSEMBLER_CACHE_SIZE && Used(s.receiver.slots[i]) ==> InTurn(s.claims, s.rids[i], i)
  }

  lemma TurnPasses(claims: nat, rid: nat, i: nat)
    requires InTurn(claims, rid, i) && i != claims % ASSEMBLER_CACHE_SIZE
    ensures InTurn(claims + 1, rid, i)
  {}

  lemma NextTurn(claims: nat)
    ensures (claims % ASSEMBLER_CACHE_SIZE + 1) % ASSEMBLER_CACHE_SIZE == (claims + 1) % ASSEMBLER_CACHE_SIZE
    ensures InTurn(claims + 1, claims, claims % ASSEMBLER_CACHE_SIZE)
  {}

  /** Two turns of the same slot that are both current, or in one window of 16, are the same. */
  lemma SameTurn(a: nat, b: nat)
    requires a % ASSEMBLER_CACHE_SIZE == b % ASSEMBLER_CACHE_SIZE && a <= b < a + ASSEMBLER_CACHE_SIZE
    ensures a == b
  {}

  lemma MovedFifo(cfg: Config, s: System, s': System, m: Move)
    requires SlotsOk(cfg, s) && Moved(cfg, s, s', m) && Fifo(s)
    requires m.resident ==> s'.receiver.next == s.receiver.next
    requires !m.resident ==> m.i == s.receiver.next
                             && s'.receiver.next == (s.receiver.next + 1) % ASSEMBLER_CACHE_SIZE
    ensures Fifo(s')
  {
    NextTurn(s.claims);
    forall i | 0 <= i < ASSEMBLER_CACHE_SIZE && Used(s'.receiver.slots[i])
      ensures InTurn(s'.claims, s'.rids[i], i)
    {
      MovedTurn(cfg, s, s', m, i);
    }
  }

  lemma MovedTurn(cfg: Config, s: System, s': System, m: Move, i: nat)
    requires SlotsOk(cfg, s) && Moved(cfg, s, s', m) && Fifo(s) && i < ASSEMBLER_CACHE_SIZE
    requires !m.resident ==> m.i == s.receiver.next
    requires Used(s'.receiver.slots[i])
    ensures InTurn(s'.claims, s'.rids[i], i)
  {
    if m.resident {
      assert s'.rids[i] == s.rids[i] && Used(s.receiver.slots[i]);
    } else if i == m.i {
      NextTurn(s.claims);
    } else {
      assert s'.rids[i] == s.rids[i] && s'.receiver.slots[i] == s.receiver.slots[i];
      TurnPasses(s.claims, s.rids[i], i);
    }
  }

  /** In every reachable state the next slot to take over is the number of claims modulo 16, and a used slot belongs to
      one of the last 16 residencies, each in its own slot. */
  lemma {:induction false} RunFifo(cfg: Config, run: Run, t: nat)
    requires Sane(cfg) && IsRun(cfg, run) && t < |run.states|
    ensures Fifo(run.states[t])
  {
    if t > 0 {
      RunFifo(cfg, run, t - 1);
      RunStepFifo(cfg, run, t - 1);
    }
  }

  lemma RunStepFifo(cfg: Config, run: Run, t: nat)
    requires Sane(cfg) && IsRun(cfg, run) && t < |run.actions| && Fifo(run.states[t])
    ensures Fifo(run.states[t + 1])
  {
    var m, q := RunMoves(cfg, run, t);
    if m.Some? {
      MovedFifo(cfg, run.states[t], run.states[t + 1], m.value);
    }
  }

  /** A residency lasts exactly until 16 further slots have been claimed. */
  lemma ResidencyLasts(cfg: Config, run: Run, t: nat, u: nat, i: nat)
    requires Sane(cfg) && IsRun(cfg, run) && t <= u < |run.states| && i < ASSEMBLER_CACHE_SIZE
    requires Sized(run.states[t]) && Used(run.states[t].receiver.slots[i])
    ensures Sized(run.states[u])
    ensures run.states[u].rids[i] == run.states[t].rids[i]
            <==> run.states[u].claims <= run.states[t].rids[i] + 16
  {
    RunFifo(cfg, run, t);
    RunFifo(cfg, run, u);
    RunKeepsSlot(cfg, run, t, u, i);
    LastsExactly(run.states[t], run.states[u], i);
  }

  lemma LastsExactly(s: System, s': System, i: nat)
    requires Fifo(s) && Fifo(s') && i < ASSEMBLER_CACHE_SIZE && Used(s.receiver.slots[i]) && SlotKept(s, s', i)
    ensures s'.rids[i] == s.rids[i] <==> s'.claims <= s.rids[i] + ASSEMBLER_CACHE_SIZE
  {
    assert InTurn(s.claims, s.rids[i], i) && InTurn(s'.claims, s'.rids[i], i);
    if s'.claims <= s.rids[i] + ASSEMBLER_CACHE_SIZE {
      SameTurn(s.rids[i], s'.rids[i]);
    }
  }

  // ----- Repair, from the NACK to the delivery -----

  /** The NACK of a residency lists what is left after ceil(k/2) symbols. */
  lemma NackSize(cfg: Config, run: Run, t: nat, k: nat)
    requires Sane(cfg) && IsRun(cfg, run) && t < |run.states|
    requires k < |run.states[t].log| && run.states[t].log[k].output.Nack?
    ensures var s, e := run.states[t], run.states[t].log[k];
            e.sentIndex < |s.sent| &&
            var x := s.sent[e.sentIndex];
            NackThreshold(x.l.k) <= SentTotal(x) && |e.output.missing| == SentTotal(x) - NackThreshold(x.l.k)
  {
    RunKeeps(cfg, run, t);
  }

  /** A residency's NACK as it goes out on the control stream. */
  function Message(o: Output): (m: Codec.Msg)
    requires o.Nack?
  {
    Codec.Nack(o.alias, o.groupId, o.objectId, o.missing)
  }

  /** A residency's NACK can always be encoded; it is read back whole, and looked at whole by the publisher, if and only
      if it lists at most 256 symbols: exactly if the object has at most 256 symbols beyond ceil(k/2). */
  lemma NackReadBackIff(cfg: Config, run: Run, t: nat, k: nat, rest: Block)
    requires Sane(cfg) && IsRun(cfg, run) && t < |run.states|
    requires k < |run.states[t].log| && run.states[t].log[k].output.Nack?
    ensures var s, o := run.states[t], run.states[t].log[k].output;
            && run.states[t].log[k].sentIndex < |s.sent| && Codec.Encodable(Message(o))
            && var x := s.sent[run.states[t].log[k].sentIndex];
               && (Codec.DecodeHead(true, Codec.Encode(Message(o)) + rest)
                   == Codec.Take(|Codec.Encode(Message(o))|, Message(o))
                   <==> SentTotal(x) - NackThreshold(x.l.k) <= Codec.MAX_NACK)
               && (Asked(o.missing) == o.missing <==> SentTotal(x) - NackThreshold(x.l.k) <= Codec.MAX_NACK)
  {
    NackSize(cfg, run, t, k);
    NackEncodable(cfg, run, t, k);
    Codec.HeadRoundTrip(Message(run.states[t].log[k].output), rest);
  }

  lemma NackEncodable(cfg: Config, run: Run, t: nat, k: nat)
    requires Sane(cfg) && IsRun(cfg, run) && t < |run.states|
    requires k < |run.states[t].log| && run.states[t].log[k].output.Nack?
    ensures Codec.Encodable(Message(run.states[t].log[k].output))
  {
    NackExactness(cfg, run, t, k);
    NackSize(cfg, run, t, k);
    RunKeeps(cfg, run, t);
    var o := run.states[t].log[k].output;
    EncodableFits(run.states[t].sent[run.states[t].log[k].sentIndex], o);
  }

  lemma EncodableFits(x: Sent, o: Output)
    requires o.Nack? && InLimits(x.item, x.l)
    requires o.groupId == x.item.groupId && o.objectId == x.item.objectId && |o.missing| <= SentTotal(x)
    requires forall q :: q in o.missing ==> q < SentTotal(x)
    ensures Codec.Encodable(Message(o))
  {
    forall i | 0 <= i < |o.missing|
      ensures o.missing[i] < 0x1_0000
    {
      assert o.missing[i] in o.missing;
    }
  }

  /** A NACK is repaired. Residency r of slot i sent it in step t; the publisher handled it in step c, when the object
      was still among the last 32; every datagram sent in answer arrived before state u, in any order and among any
      other traffic; at most 16 slots have been claimed since r; and the NACK was short enough to be read whole. Then
      the slot still belongs to r and is decoded, and r has delivered its object once. */
  lemma NackRepair(cfg: Config, run: Run, t: nat, k: nat, i: nat, c: nat, times: seq<u64>, u: nat)
    requires Sane(cfg) && IsRun(cfg, run) && NackSentAt(run, t, k, i) && t < c < u < |run.states|
    requires var o := run.states[t + 1].log[k].output;
             |times| == |o.missing| && run.actions[c] == Answer(o.alias, o.groupId, o.objectId, o.missing, times)
    requires var n := run.states[t + 1].log[k].sentIndex;
             && n < |run.states[t + 1].sent| && n < |run.states[c].sent| && Recent(run.states[c], n)
             && var x := run.states[t + 1].sent[n]; SentTotal(x) - NackThreshold(x.l.k) <= Codec.MAX_NACK
    requires forall raw :: raw in AnswerOf(cfg, run.states[c], run.actions[c]) ==>
               exists j :: c < j < u && run.actions[j] == Arrive(raw)
    requires run.states[u].claims <= run.states[t + 1].rids[i] + ASSEMBLER_CACHE_SIZE
    ensures Sized(run.states[u]) && run.states[u].rids[i] == run.states[t + 1].rids[i]
    ensures run.states[u].receiver.slots[i].decoded
    ensures Tally(run.states[u].log, run.states[u].rids[i], Object) == 1
  {
    ResidencyLasts(cfg, run, t + 1, u, i);
    var e := run.states[t + 1].log[k];
    NackReadBackIff(cfg, run, t + 1, k, []);
    NackExactness(cfg, run, t + 1, k);
    var x := run.states[t + 1].sent[e.sentIndex];
    AnswersAreOriginals(cfg, run, t + 1, c, k, times);
    forall p | 0 <= p < |e.output.missing| && e.output.missing[p] < SentTotal(x)
      ensures exists j :: c < j < u && run.actions[j] == Arrive(AnswerTo(cfg, x, e.output.missing, times, p))
    {
      OriginalsCover(cfg.code, x.item, x.alias, x.l, e.output.missing, times, p);
      var raw := AnswerTo(cfg, x, e.output.missing, times, p);
      assert raw in AnswerOf(cfg, run.states[c], run.actions[c]);
    }
    ListedSymbolsComplete(cfg, run, t, k, i, c, times, u);
  }

  /** Handled while its object is recent, a residency's NACK gets the datagrams first sent for what it lists. */
  lemma AnswersAreOriginals(cfg: Config, run: Run, t: nat, c: nat, k: nat, times: seq<u64>)
    requires Sane(cfg) && IsRun(cfg, run) && t <= c < |run.actions|
    requires k < |run.states[t].log| && run.states[t].log[k].output.Nack?
    requires var o := run.states[t].log[k].output;
             && |times| == |o.missing| && Asked(o.missing) == o.missing
             && run.actions[c] == Answer(o.alias, o.groupId, o.objectId, o.missing, times)
    requires var n := run.states[t].log[k].sentIndex;
             n < |run.states[t].sent| && n < |run.states[c].sent| && Recent(run.states[c], n)
    ensures var x, o := run.states[t].sent[run.states[t].log[k].sentIndex], run.states[t].log[k].output;
            && |Symbols(cfg.code, x.item, x.l)| == SentTotal(x)
            && AnswerOf(cfg, run.states[c], run.actions[c])
               == Originals(cfg.code, x.item, x.alias, x.l, o.missing, times)
  {
    var e := run.states[t].log[k];
    NackExactness(cfg, run, t, k);
    SentStays(cfg, run, t, c);
    assert StepAt(cfg, run, c);
    RunAnswersExactly(cfg, run, c, e.sentIndex, e.output.missing, times);
  }

  lemma SentStays(cfg: Config, run: Run, t: nat, u: nat)
    requires Sane(cfg) && IsRun(cfg, run) && t <= u < |run.states|
    ensures run.states[t].sent <= run.states[u].sent
  {
    RunKeepsSlot(cfg, run, t, u, 0);
  }
}
