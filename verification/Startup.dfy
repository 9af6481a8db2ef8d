/** A daemon at start-up: the first packet is published before the peer has subscribed, and numbered by the daemon's
    packet counter; the next one is grouped, and numbered by the transport's object counter. Both are object 0 of
    their track. */
module Startup {
  import opened Bytes
  import opened ErasureCode
  import opened Tracks
  import opened Wire
  import opened Sender
  import opened Assembler
  import opened Residency
  import opened Protocol
  import opened Delivery
  import opened Guarantees
  import opened Repair
  import opened Objects
  import opened Progress
  import opened Keys
  import Grouping
  import Scenarios

  function Tunnel(): (t: TrackId) { TrackId(TRACK_DATA, 2, []) }

  function Endpoints(): (cfg: Config) { Config(XorCode(), Empty(), Empty()) }

  /** What on_data_packet hands to transport_publish. */
  function AsPublished(counter: nat, track: TrackId, p: Block, priority: byte): (item: Item)
  {
    Item(track, 0, U32(counter), p, false, priority)
  }

  function FirstPacket(): (p: Block) { Zeros(1500) }
  function NextPacket(): (p: Block) { seq(1498, _ => 1) }

  function Stray(): (item: Item) { AsPublished(0, Tunnel(), FirstPacket(), 1) }
  function Grouped(): (item: Item) { Item(Tunnel(), 0, 0, Grouping.Frame(NextPacket()), false, 1) }

  function Cut(): (l: Layout) { Layout(2, 1, 1000) }

  /** The second packet, flushed by the timer, leaves as object 0 of the grouping buffer. */
  lemma GroupedIsFlushed()
    ensures Grouping.Run([Grouping.Packet(Tunnel(), NextPacket(), 1, 0), Grouping.Tick(3)]).objects == [Grouped()]
  {
    var inputs := [Grouping.Packet(Tunnel(), NextPacket(), 1, 0), Grouping.Tick(3)];
    assert inputs[..1] == [inputs[0]] && [inputs[0]][..0] == [];
    assert Grouping.Run([inputs[0]]) == Grouping.Next(Grouping.Run([]), inputs[0]);
    assert [] + Grouping.Frame(NextPacket()) == Grouping.Frame(NextPacket());
  }

  lemma Published()
    ensures InLimits(Stray(), Cut()) && InLimits(Grouped(), Cut())
    ensures FindByTrack(Empty(), Tunnel()) == Some(4) && ValidTrack(Tunnel())
  {}

  // ----- Up to the NACK everything is regular -----

  /** The grouped object waits in slot i with its first symbol, and has sent its NACK. */
  ghost predicate Waits(s: System, i: nat) {
    && Sized(s) && i < ASSEMBLER_CACHE_SIZE && s.sent == [Sent(Grouped(), 4, Cut())]
    && |s.ring.slots| == SENT_CACHE_SIZE && s.ring.slots[0] == Some(Cache(Stray(), Cut()))
    && Used(s.receiver.slots[i]) && s.owners[i] == 0
    && (forall j :: 0 <= j < ASSEMBLER_CACHE_SIZE && j != i ==> !Used(s.receiver.slots[j]))
    && |s.receiver.slots[i].mask| >= 2 && s.receiver.slots[i].mask[0] && !s.receiver.slots[i].mask[1]
    && !s.receiver.slots[i].decoded && s.receiver.slots[i].nackSent && s.receiver.slots[i].count == 1
  }

  predicate Asks(s: System) {
    && |s.log| == 1 && s.log[0].output.Nack? && s.log[0].output.alias == 4
    && s.log[0].output.groupId == s.log[0].output.objectId == 0
    && 1 in s.log[0].output.missing && |s.log[0].output.missing| <= 256
  }

  lemma BothPublished() returns (run: Run)
    ensures Sane(Endpoints()) && IsRun(Endpoints(), run)
    ensures run.actions == [Stash(Stray(), Cut()), Publish(Grouped(), Cut(), [0, 0, 0], [0, 0, 0])]
    ensures var s := Last(run);
            && s.sent == [Sent(Grouped(), 4, Cut())] && s.receiver == NewReceiver() && s.log == []
            && |s.ring.slots| == SENT_CACHE_SIZE && s.ring.slots[0] == Some(Cache(Stray(), Cut()))
  {
    Scenarios.EmptyTablesAreSane();
    Published();
    var one := Extend(Endpoints(), Run([Init()], []), Stash(Stray(), Cut()));
    run := Extend(Endpoints(), one, Publish(Grouped(), Cut(), [0, 0, 0], [0, 0, 0]));
  }

  lemma FirstSymbolArrives() returns (run: Run, i: nat)
    ensures Sane(Endpoints()) && IsRun(Endpoints(), run) && |run.actions| == 3 && run.actions[2].Arrive?
    ensures run.actions[..2] == [Stash(Stray(), Cut()), Publish(Grouped(), Cut(), [0, 0, 0], [0, 0, 0])]
    ensures Waits(Last(run), i) && Asks(Last(run))
  {
    var before := BothPublished();
    var m;
    run, m := Scenarios.ArrivesAs(Endpoints(), before, 0, 0);
    i := m.i;
    WaitsAfter(Endpoints(), Last(before), Last(run), m);
  }

  lemma WaitsAfter(cfg: Config, s: System, s': System, m: Move)
    requires SlotsOk(cfg, s) && Moved(cfg, s, s', m) && m.n == 0 && 0 < |m.before.mask|
    requires s.sent == [Sent(Grouped(), 4, Cut())] && s.receiver == NewReceiver() && s.log == []
    requires |s.ring.slots| == SENT_CACHE_SIZE && s.ring.slots[0] == Some(Cache(Stray(), Cut()))
    requires !m.before.decoded ==> m.after.mask == m.before.mask[0 := true]
    requires !m.resident ==> Count(m.before.mask) == 0 && !m.before.mask[0]
    ensures Waits(s', m.i) && Asks(s')
  {
    assert !m.resident;
    assert Holding(cfg.code, s.sent[0], m.after);
    OneSymbol(m.before.mask, m.after);
    assert s'.receiver.slots[m.i] == m.after;
    assert m.after.nackSent && !m.after.decoded;
    assert m.lost == [] && m.delivered == [] && |m.nacks| == 1 && m.nacks[0] in m.nacks;
    assert s'.log == m.nacks;
    AskedForSecond(cfg, s.sent[0], m.nacks[0]);
  }

  lemma AskedForSecond(cfg: Config, x: Sent, e: Record)
    requires x == Sent(Grouped(), 4, Cut()) && OutputOk(cfg, x, e) && e.output.Nack? && !e.mask[1]
    ensures e.output.alias == 4 && e.output.groupId == e.output.objectId == 0
    ensures 1 in e.output.missing && |e.output.missing| <= 256
  {
    MissingExact(e.mask[..3]);
  }

  lemma OneSymbol(mask: seq<bool>, slot: Slot)
    requires 3 <= |mask| && Count(mask) == 0 && !mask[0]
    requires slot.mask == mask[0 := true] && slot.count == Count(slot.mask)
    ensures slot.count == 1 && !slot.mask[1]
  {
    CountSet(mask, 0);
    if mask[1] {
      CountSome(mask, 1);
    }
  }

  // ----- The NACK is answered from the stray -----

  lemma AnswerIsStray(ring: seq<Option<Cached>>, missing: seq<nat>, times: seq<u64>) returns (raw: Block)
    requires RingShape(XorCode(), ring) && ring[0] == Some(Cache(Stray(), Cut()))
    requires |missing| == |times| <= 256 && 1 in missing
    ensures raw in HandleNack(XorCode(), ring, Empty(), 4, 0, 0, missing, times) && IsWrong(raw)
  {
    XorCodeMeetsContract();
    Published();
    assert Matches(ring[0], TrackId(4, 0, []), 0, 0);
    assert IndexOfCached(ring, TrackId(4, 0, []), 0, 0) == 0;
    RetransmissionFidelity(XorCode(), Stray(), Cut(), 4, missing, times);
    var j :| 0 <= j < |missing| && missing[j] == 1;
    OriginalsCover(XorCode(), Stray(), 4, Cut(), missing, times, j);
    raw := SymbolDatagram(XorCode(), Stray(), 4, Cut(), 1, 0, times[j]);
    WrongHeader(raw, times[j]);
  }

  /** A datagram of symbol 1 under the key of the grouped object, with a byte of the first packet. */
  predicate IsWrong(raw: Block) {
    && |raw| == HEADER_SIZE + 1000 && ParseHeader(raw).index == 1 && raw[HEADER_SIZE..HEADER_SIZE + 1000][0] == 0
    && HeaderOf(Sent(Grouped(), 4, Cut()), ParseHeader(raw))
    && Admit(Empty(), raw) == Some((ParseHeader(raw), TrackId(4, 0, [])))
  }

  lemma WrongHeader(raw: Block, time: u64)
    requires Lawful(XorCode()) && InLimits(Stray(), Cut()) && |Symbols(XorCode(), Stray(), Cut())| == 3
    requires raw == SymbolDatagram(XorCode(), Stray(), 4, Cut(), 1, 0, time)
    ensures IsWrong(raw)
  {
    var x := Sent(Stray(), 4, Cut());
    HonestHeader(XorCode(), x, 1, 0, time, raw);
    SecondOfStray();
    SameHeader(ParseHeader(raw));
    AdmitIs(Empty(), raw, ParseHeader(raw), TrackId(4, 0, []));
  }

  lemma SecondOfStray()
    requires |Symbols(XorCode(), Stray(), Cut())| == 3
    ensures |Symbols(XorCode(), Stray(), Cut())[1]| == 1000 && Symbols(XorCode(), Stray(), Cut())[1][0] == 0
  {
    assert Symbols(XorCode(), Stray(), Cut())[1] == SymbolBlock(FirstPacket(), 1, 1000);
  }

  /** Both objects are described by the same header. */
  lemma SameHeader(h: Header)
    requires HeaderOf(Sent(Stray(), 4, Cut()), h)
    ensures HeaderOf(Sent(Grouped(), 4, Cut()), h)
  {}

  // ----- What the receiver makes of it -----

  /** The second data symbol completes the slot, whichever object it is of. */
  lemma SecondCompletes(code: Code, track: TrackId, slot: Slot, h: Header, payload: Block)
    requires Lawful(code) && InBounds(slot, h) && HeaderOf(Sent(Grouped(), 4, Cut()), h) && h.index == 1
    requires |payload| == 1000 && slot.total == 3 && slot.count == 1 && |slot.mask| >= 3
    requires slot.mask[0] && !slot.mask[1] && !slot.decoded && slot.nackSent
    ensures var a := Absorb(code, track, slot, h, payload);
            && |a.outputs| == 1 && a.outputs[0].Delivered? && SameTrack(a.outputs[0].track, track)
            && a.outputs[0].groupId == a.outputs[0].objectId == 0
            && |a.outputs[0].data| == 1500 && a.outputs[0].data[1000] == payload[0]
            && a.outputs[0].data[500] == slot.buffers[0][500]
  {
    AbsorbPhases(code, track, slot, h, payload);
    var stored := Store(slot, 1, payload);
    assert NackNoted(track, stored) == stored;
    assert GotAllData(stored.mask, 2);
    RecoveredPlain(code, track, stored, h);
    var data := Assemble(stored.buffers, 2, 1000, 1500);
    assert data[1000] == stored.buffers[1][0] && data[500] == stored.buffers[0][500];
  }

  /** The slot that waits is the one the wrong symbol goes to. */
  lemma WrongSymbolFindsSlot(s: System, i: nat, raw: Block)
    requires Sane(Endpoints()) && Inv(Endpoints(), s) && Waits(s, i) && IsWrong(raw)
    ensures var h := ParseHeader(raw);
            && Resident(s.receiver, h) && Locate(s.receiver, h) == i && InBounds(s.receiver.slots[i], h)
    ensures Safe(Endpoints(), s, Arrive(raw))
  {
    var h := ParseHeader(raw);
    Published();
    assert Describes(s.sent[0], s.receiver.slots[i]) by {
      assert Holding(XorCode(), s.sent[0], s.receiver.slots[i]);
    }
    assert AssemblesFor(s.receiver.slots[i], h);
    HoldingInBounds(s.sent[0], s.receiver.slots[i], h);
  }

  lemma FirstSymbolThere(s: System, i: nat)
    requires Sane(Endpoints()) && Inv(Endpoints(), s) && Waits(s, i)
    ensures |s.receiver.slots[i].buffers| >= 1 && |s.receiver.slots[i].buffers[0]| >= 1000
    ensures s.receiver.slots[i].buffers[0][500] == 1
  {
    var slot := s.receiver.slots[i];
    assert Holding(XorCode(), s.sent[0], slot);
    var word := Symbols(XorCode(), Grouped(), Cut());
    assert slot.buffers[0][..1000] == word[0] == SymbolBlock(Grouped().data, 0, 1000);
    assert slot.buffers[0][..1000][500] == slot.buffers[0][500];
  }

  lemma WrongSymbolAbsorbed(s: System, i: nat, raw: Block)
    requires Sane(Endpoints()) && Inv(Endpoints(), s) && Waits(s, i) && IsWrong(raw)
    requires InBounds(s.receiver.slots[i], ParseHeader(raw))
    ensures var a := Absorb(XorCode(), TrackId(4, 0, []), s.receiver.slots[i], ParseHeader(raw),
                            raw[HEADER_SIZE..HEADER_SIZE + 1000]);
            |a.outputs| == 1 && Misleads(a.outputs[0])
  {
    FirstSymbolThere(s, i);
    assert Describes(s.sent[0], s.receiver.slots[i]) by {
      assert Holding(XorCode(), s.sent[0], s.receiver.slots[i]);
    }
    SecondCompletes(XorCode(), TrackId(4, 0, []), s.receiver.slots[i], ParseHeader(raw),
                    raw[HEADER_SIZE..HEADER_SIZE + 1000]);
  }

  lemma WrongSymbolDelivers(s: System, i: nat, raw: Block)
    requires Sane(Endpoints()) && Inv(Endpoints(), s) && Waits(s, i) && IsWrong(raw)
    ensures Safe(Endpoints(), s, Arrive(raw))
    ensures var s' := Arrived(Endpoints(), s, raw);
            |s'.log| == |s.log| + 1 && s'.sent == s.sent && Misleads(s'.log[|s.log|].output)
  {
    WrongSymbolFindsSlot(s, i, raw);
    WrongSymbolAbsorbed(s, i, raw);
    var h := ParseHeader(raw);
    var a := Absorb(XorCode(), TrackId(4, 0, []), s.receiver.slots[i], h, raw[HEADER_SIZE..HEADER_SIZE + 1000]);
    ReceivedParts(XorCode(), Empty(), s.receiver, raw, h, TrackId(4, 0, []), a);
    assert Receive(XorCode(), Empty(), s.receiver, raw).outputs == a.outputs;
    ArrivedIsNoted(Endpoints(), s, raw, h, TrackId(4, 0, []), 0);
  }

  /** An OBJECT event for object 0 of the tunnel track whose bytes are those of no object published. */
  predicate Misleads(o: Output) {
    && o.Delivered? && SameTrack(o.track, Tunnel()) && o.groupId == o.objectId == 0
    && |o.data| == 1500 && o.data[1000] == 0 && o.data[500] == 1
  }

  lemma MisleadingIsWrong(o: Output)
    requires Misleads(o)
    ensures o.data != Stray().data && o.data != Grouped().data
  {
    assert Stray().data[500] == 0;
    assert Grouped().data[1000] == NextPacket()[998];
  }

  // ----- The whole trace -----

  lemma AppendedTrace(cfg: Config, run: Run, a: Action, next: System)
    requires IsTrace(cfg, run) && GoesTo(cfg, Last(run), a, next)
    ensures IsTrace(cfg, Run(run.states + [next], run.actions + [a]))
  {
    var longer := Run(run.states + [next], run.actions + [a]);
    forall k: nat | k < |longer.actions|
      ensures GoesAt(cfg, longer, k)
    {
      if k < |run.actions| {
        assert GoesAt(cfg, run, k);
        SameGoing(cfg, run, longer, k);
      }
    }
  }

  lemma SameGoing(cfg: Config, run: Run, longer: Run, k: nat)
    requires GoesAt(cfg, run, k) && run.states <= longer.states && run.actions <= longer.actions
    ensures GoesAt(cfg, longer, k)
  {
    assert longer.states[k] == run.states[k] && longer.states[k + 1] == run.states[k + 1];
    assert longer.actions[k] == run.actions[k];
  }

  lemma RunIsTrace(cfg: Config, run: Run)
    requires IsRun(cfg, run)
    ensures IsTrace(cfg, run)
  {
    forall k: nat | k < |run.actions|
      ensures GoesAt(cfg, run, k)
    {
      assert StepAt(cfg, run, k);
    }
  }

  /** The publisher handles the receiver's own NACK, and a symbol it sends from the stray arrives. */
  lemma NackMisanswered(s: System, i: nat) returns (answer: Action, s': System, raw: Block, s'': System)
    requires Sane(Endpoints()) && Inv(Endpoints(), s) && Waits(s, i) && Asks(s)
    ensures answer.Answer? && FromReceiver(s, answer)
    ensures GoesTo(Endpoints(), s, answer, s') && GoesTo(Endpoints(), s', Arrive(raw), s'')
    ensures |s''.log| == 2 && s''.sent == s.sent && Misleads(s''.log[1].output)
  {
    var o := s.log[0].output;
    var times: seq<u64> := seq(|o.missing|, _ => 0);
    answer := Answer(4, 0, 0, o.missing, times);
    RingSafe(Endpoints(), s);
    raw := AnswerIsStray(s.ring.slots, o.missing, times);
    s' := Step(Endpoints(), s, answer);
    WrongSymbolDelivers(s, i, raw);
    SameButNet(s, s', raw);
    s'' := Step(Endpoints(), s', Arrive(raw));
  }

  lemma SameButNet(s: System, s': System, raw: Block)
    requires Safe(Endpoints(), s, Arrive(raw)) && s' == s.(net := s'.net)
    ensures Safe(Endpoints(), s', Arrive(raw))
    ensures Arrived(Endpoints(), s', raw).log == Arrived(Endpoints(), s, raw).log
    ensures Arrived(Endpoints(), s', raw).sent == Arrived(Endpoints(), s, raw).sent
  {}

  /** The first packet is published when no peer gets it; the second, grouped, is sent; its first symbol arrives and
      calls for a NACK; the NACK is answered from the first packet, which has the same track, group and object id; and
      what is then delivered is neither of the two. */
  lemma StartupMixesObjects() returns (run: Run)
    ensures var cfg := Endpoints();
            && Sane(cfg) && IsTrace(cfg, run) && AllFromReceiver(run) && !IsRun(cfg, run)
            && Items(run.actions) == [Stray(), Grouped()] && Last(run).sent == [Sent(Grouped(), 4, Cut())]
            && |Last(run).log| == 2 && Misleads(Last(run).log[1].output)
            && Last(run).log[1].output.data != Stray().data && Last(run).log[1].output.data != Grouped().data
            && !Truthful(Last(run))
  {
    var three, i := FirstSymbolArrives();
    RunKeeps(Endpoints(), three, 3);
    var answer, s4, raw, s5 := NackMisanswered(Last(three), i);
    run := Joined(Endpoints(), three, answer, s4, Arrive(raw), s5);
    EndsMisled(s5);
    FiveActions(run.actions, three.actions, answer, raw);
    NotRegular(Endpoints(), run);
    OneNack(run, three, answer);
  }

  lemma EndsMisled(s: System)
    requires s.sent == [Sent(Grouped(), 4, Cut())] && |s.log| == 2 && Misleads(s.log[1].output)
    ensures s.log[1].output.data != Stray().data && s.log[1].output.data != Grouped().data && !Truthful(s)
  {
    MisleadingIsWrong(s.log[1].output);
    assert !TrueOf(s, 1, 0);
  }

  lemma FiveActions(actions: seq<Action>, three: seq<Action>, answer: Action, raw: Block)
    requires |three| == 3 && three[2].Arrive? && answer.Answer? && actions == three + [answer, Arrive(raw)]
    requires three[..2] == [Stash(Stray(), Cut()), Publish(Grouped(), Cut(), [0, 0, 0], [0, 0, 0])]
    ensures three[0].Stash? && three[1].Publish? && actions[3] == answer && three <= actions
    ensures Items(actions) == [Stray(), Grouped()]
  {
    assert three[0] == three[..2][0] && three[1] == three[..2][1] && actions[..2] == three[..2];
    ItemsOfFive(actions);
  }

  lemma Joined(cfg: Config, run: Run, a: Action, s: System, b: Action, s': System) returns (longer: Run)
    requires IsRun(cfg, run) && GoesTo(cfg, Last(run), a, s) && GoesTo(cfg, s, b, s')
    ensures IsTrace(cfg, longer) && longer.actions == run.actions + [a, b] && longer.states == run.states + [s, s']
  {
    RunIsTrace(cfg, run);
    AppendedTrace(cfg, run, a, s);
    AppendedTrace(cfg, Run(run.states + [s], run.actions + [a]), b, s');
    longer := Run(run.states + [s] + [s'], run.actions + [a] + [b]);
  }

  lemma OneNack(run: Run, three: Run, answer: Action)
    requires |three.actions| == 3 && |three.states| == 4 && three.states <= run.states
    requires |run.actions| == 5 && three.actions <= run.actions && run.actions[3] == answer && run.actions[4].Arrive?
    requires three.actions[0].Stash? && three.actions[1].Publish? && three.actions[2].Arrive?
    requires FromReceiver(three.states[3], answer)
    ensures AllFromReceiver(run)
  {
    forall c | 0 <= c < |run.actions| && c < |run.states|
      ensures FromReceiver(run.states[c], run.actions[c])
    {
      assert c == 3 || !run.actions[c].Answer?;
    }
  }

  lemma NotRegular(cfg: Config, run: Run)
    requires Sane(cfg) && run.states != [] && Last(run).sent != [] && |Last(run).log| == 2 && !Truthful(Last(run))
    ensures !IsRun(cfg, run)
  {
    if IsRun(cfg, run) {
      forall k, n | 0 <= k < |Last(run).log| && 0 <= n < |Last(run).sent| && Last(run).log[k].output.Delivered?
        ensures TrueOf(Last(run), k, n)
      {
        DeliveredIsPublished(cfg, run, |run.actions|, k);
      }
    }
  }

  lemma ItemsOfFive(actions: seq<Action>)
    requires |actions| == 5 && actions[2].Arrive? && actions[3].Answer? && actions[4].Arrive?
    requires actions[..2] == [Stash(Stray(), Cut()), Publish(Grouped(), Cut(), [0, 0, 0], [0, 0, 0])]
    ensures Items(actions) == [Stray(), Grouped()]
  {
    assert actions[..5] == actions;
    assert actions[..5][..4] == actions[..4] && actions[..4][..3] == actions[..3] && actions[..3][..2] == actions[..2];
    assert actions[..2][..1] == actions[..1] && actions[..1][..0] == [];
    assert actions[0] == actions[..2][0] && actions[1] == actions[..2][1];
    assert Items(actions[..1]) == [Stray()];
    assert Items(actions[..2]) == [Stray(), Grouped()];
    assert Items(actions[..3]) == Items(actions[..2]) && Items(actions[..4]) == Items(actions[..3]);
  }
}
