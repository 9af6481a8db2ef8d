/** Delivery always remains possible: from every reachable state, every published object that the receiver admits can
    still reach it. */
module Progress {
  import opened Bytes
  import opened ErasureCode
  import opened Tracks
  import opened Wire
  import opened Sender
  import opened Assembler
  import opened Residency
  import opened Protocol
  import opened Delivery
  import opened Guarantees
  import opened Repair
  import opened Objects

  // ----- Every symbol has been handed to the network -----

  ghost predicate SymbolOn(code: Code, x: Sent, q: nat, net: set<Block>) {
    exists path, time, raw :: raw in net && IsSymbol(code, x, q, path, time, raw)
  }

  ghost predicate OnNetwork(code: Code, sent: seq<Sent>, net: set<Block>) {
    forall n, q :: 0 <= n < |sent| && 0 <= q < SentTotal(sent[n]) ==> SymbolOn(code, sent[n], q, net)
  }

  lemma SymbolStaysOn(code: Code, x: Sent, q: nat, net: set<Block>, more: set<Block>)
    requires SymbolOn(code, x, q, net)
    ensures SymbolOn(code, x, q, net + more)
  {
    var path, time, raw :| raw in net && IsSymbol(code, x, q, path, time, raw);
    assert raw in net + more;
  }

  lemma NetworkGrows(code: Code, sent: seq<Sent>, net: set<Block>, more: set<Block>)
    requires OnNetwork(code, sent, net)
    ensures OnNetwork(code, sent, net + more)
  {
    forall n, q | 0 <= n < |sent| && 0 <= q < SentTotal(sent[n])
      ensures SymbolOn(code, sent[n], q, net + more)
    {
      SymbolStaysOn(code, sent[n], q, net, more);
    }
  }

  lemma PublishPuts(code: Code, x: Sent, paths: seq<byte>, times: seq<u64>, net: set<Block>, q: nat)
    requires |Symbols(code, x.item, x.l)| == SentTotal(x) == |paths| == |times| && q < SentTotal(x)
    ensures var out := PublishDatagrams(code, x.item, x.alias, x.l, paths, times);
            SymbolOn(code, x, q, net + (set raw | raw in out))
  {
    var out := PublishDatagrams(code, x.item, x.alias, x.l, paths, times);
    assert out[q] in out;
    assert IsSymbol(code, x, q, paths[q], times[q], out[q]);
  }

  lemma PublishOnNetwork(code: Code, sent: seq<Sent>, net: set<Block>, x: Sent, paths: seq<byte>, times: seq<u64>)
    requires OnNetwork(code, sent, net) && |Symbols(code, x.item, x.l)| == SentTotal(x) == |paths| == |times|
    ensures var out := PublishDatagrams(code, x.item, x.alias, x.l, paths, times);
            OnNetwork(code, sent + [x], net + (set raw | raw in out))
  {
    var out := PublishDatagrams(code, x.item, x.alias, x.l, paths, times);
    var more := set raw | raw in out;
    NetworkGrows(code, sent, net, more);
    forall n, q | 0 <= n < |sent + [x]| && 0 <= q < SentTotal((sent + [x])[n])
      ensures SymbolOn(code, (sent + [x])[n], q, net + more)
    {
      if n == |sent| {
        PublishPuts(code, x, paths, times, net, q);
      }
    }
  }

  lemma ArriveLeavesNetwork(cfg: Config, s: System, raw: Block)
    requires Safe(cfg, s, Arrive(raw))
    ensures Arrived(cfg, s, raw).sent == s.sent && Arrived(cfg, s, raw).net == s.net
  {}

  lemma StepOnNetwork(cfg: Config, s: System, a: Action, s': System)
    requires StepsTo(cfg, s, a, s') && OnNetwork(cfg.code, s.sent, s.net)
    ensures OnNetwork(cfg.code, s'.sent, s'.net)
  {
    match a
    case Publish(item, l, paths, times) =>
      var x := Sent(item, FindByTrack(cfg.senderSubs, item.track).value, l);
      PublishOnNetwork(cfg.code, s.sent, s.net, x, paths, times);
    case Stash(_, _) =>
    case Answer(alias, groupId, objectId, missing, times) =>
      var out := HandleNack(cfg.code, s.ring.slots, cfg.senderSubs, alias, groupId, objectId, missing, times);
      NetworkGrows(cfg.code, s.sent, s.net, set raw | raw in out);
    case Arrive(raw) =>
      ArriveLeavesNetwork(cfg, s, raw);
  }

  lemma {:induction false} RunOnNetwork(cfg: Config, run: Run, t: nat)
    requires IsRun(cfg, run) && t < |run.states|
    ensures OnNetwork(cfg.code, run.states[t].sent, run.states[t].net)
  {
    if t > 0 {
      RunOnNetwork(cfg, run, t - 1);
      RunStepOnNetwork(cfg, run, t - 1);
    }
  }

  lemma RunStepOnNetwork(cfg: Config, run: Run, t: nat)
    requires IsRun(cfg, run) && t < |run.actions| && OnNetwork(cfg.code, run.states[t].sent, run.states[t].net)
    ensures OnNetwork(cfg.code, run.states[t + 1].sent, run.states[t + 1].net)
  {
    assert StepAt(cfg, run, t);
    StepOnNetwork(cfg, run.states[t], run.actions[t], run.states[t + 1]);
  }

  // ----- Collecting the symbols of one object -----

  /** An object the receiver's admission checks let through: not under the telemetry alias, and not too long. */
  predicate Deliverable(x: Sent) { x.alias != 6 && SentTotal(x) <= 16384 }

  ghost predicate Owns(s: System, n: nat, i: nat) {
    i < ASSEMBLER_CACHE_SIZE && Sized(s) && Used(s.receiver.slots[i]) && s.owners[i] == n
  }

  /** Slot i works on object n and has its first q symbols, or is done with it. */
  ghost predicate Gathered(s: System, n: nat, i: nat, q: nat) {
    Owns(s, n, i) && forall j :: 0 <= j < q ==> Has(s.receiver.slots[i], j)
  }

  lemma AdmitIs(subs: seq<Entry>, raw: Block, h: Header, track: TrackId)
    requires |raw| >= HEADER_SIZE + h.symbolSize && raw[0] != TRACK_TELEMETRY && h == ParseHeader(raw)
    requires FindByAlias(subs, h.alias) == Some(track)
    requires h.total <= MAX_TOTAL_SYMBOLS && h.symbolSize <= MAX_SYMBOL_SIZE
    ensures Admit(subs, raw) == Some((h, track))
  {}

  lemma HeaderBounds(x: Sent, h: Header)
    requires InLimits(x.item, x.l) && HeaderOf(x, h)
    ensures h.symbolSize == x.l.t <= MAX_SYMBOL_SIZE && h.total == SentTotal(x) && h.alias == x.alias
  {}

  lemma AliasKnown(cfg: Config, x: Sent)
    requires Sane(cfg) && ValidTrack(x.item.track) && FindByTrack(cfg.senderSubs, x.item.track) == Some(x.alias)
    ensures FindByAlias(cfg.receiverSubs, x.alias).Some?
  {}

  /** A symbol of a deliverable object is admitted, whatever the state. */
  lemma SymbolAdmitted(cfg: Config, s: System, raw: Block, n: nat, q: nat, path: byte, time: u64)
    requires Sane(cfg) && SentOk(cfg, s.sent) && n < |s.sent| && Deliverable(s.sent[n])
    requires IsSymbol(cfg.code, s.sent[n], q, path, time, raw)
    ensures var admitted := Admit(cfg.receiverSubs, raw);
            && admitted.Some?
            && var (h, track) := admitted.value;
               h.index == q && Carries(cfg, s, raw, h, track, n)
  {
    var x, h := s.sent[n], ParseHeader(raw);
    HonestHeader(cfg.code, x, q, path, time, raw);
    HeaderBounds(x, h);
    AliasKnown(cfg, x);
    AdmitIs(cfg.receiverSubs, raw, h, FindByAlias(cfg.receiverSubs, x.alias).value);
    SymbolCarries(cfg, s, n, q, path, time, raw);
  }

  /** Where the symbol goes: to a slot that owns the object afterwards and has the symbol; and if slot j owned the
      object before, to that one, which stays with its residency. */
  lemma SymbolGathers(cfg: Config, s: System, raw: Block, s': System, n: nat, q: nat, path: byte, time: u64, j: nat)
    returns (i: nat)
    requires Sane(cfg) && Inv(cfg, s) && Safe(cfg, s, Arrive(raw)) && s' == Arrived(cfg, s, raw)
    requires n < |s.sent| && Deliverable(s.sent[n])
    requires IsSymbol(cfg.code, s.sent[n], q, path, time, raw)
    ensures Owns(s', n, i) && Has(s'.receiver.slots[i], q)
    ensures Owns(s, n, j) ==> i == j && s'.rids[j] == s.rids[j]
  {
    SymbolAdmitted(cfg, s, raw, n, q, path, time);
    var (h, track) := Admit(cfg.receiverSubs, raw).value;
    var m := ArriveMoved(cfg, s, raw, h, track, n);
    i := m.i;
    MoveGathers(cfg, s, s', m, q);
    if Owns(s, n, j) {
      MoveStays(cfg, s, s', m, j);
    }
  }

  lemma MoveGathers(cfg: Config, s: System, s': System, m: Move, q: nat)
    requires SlotsOk(cfg, s) && Moved(cfg, s, s', m)
    requires q < |m.before.mask|
    requires !m.before.decoded ==> m.after.mask == m.before.mask[q := true]
    ensures Owns(s', m.n, m.i) && Has(s'.receiver.slots[m.i], q)
  {
    MoveMarks(cfg, s, s', m, q);
  }

  lemma MoveStays(cfg: Config, s: System, s': System, m: Move, j: nat)
    requires SlotsOk(cfg, s) && Moved(cfg, s, s', m) && Owns(s, m.n, j)
    ensures j == m.i && s'.rids[j] == s.rids[j]
  {
    assert m.resident;
  }

  /** One more symbol in the same slot. */
  lemma NextSymbol(cfg: Config, s: System, raw: Block, s': System, n: nat, i: nat, q: nat, path: byte, time: u64)
    requires Sane(cfg) && Inv(cfg, s) && raw in s.net && Safe(cfg, s, Arrive(raw)) && s' == Arrived(cfg, s, raw)
    requires n < |s.sent| && Deliverable(s.sent[n]) && Gathered(s, n, i, q)
    requires IsSymbol(cfg.code, s.sent[n], q, path, time, raw)
    ensures Gathered(s', n, i, q + 1)
  {
    var j := SymbolGathers(cfg, s, raw, s', n, q, path, time, i);
    ArriveKeepsSlot(cfg, s, raw, i);
    AdvancesKeeps(s, s', n, i, q);
  }

  lemma AdvancesKeeps(s: System, s': System, n: nat, i: nat, q: nat)
    requires Gathered(s, n, i, q) && Owns(s', n, i) && Has(s'.receiver.slots[i], q)
    requires SlotKept(s, s', i) && s'.rids[i] == s.rids[i]
    ensures Gathered(s', n, i, q + 1)
  {
    forall j | 0 <= j < q + 1
      ensures Has(s'.receiver.slots[i], j)
    {
      assert j < q ==> Has(s.receiver.slots[i], j);
    }
  }

  // ----- Runs that go on -----

  ghost function Last(run: Run): (s: System)
    requires run.states != []
  {
    run.states[|run.states| - 1]
  }

  /** `longer` continues `run` with nothing but arrivals. */
  ghost predicate Continues(run: Run, longer: Run) {
    && run.actions <= longer.actions && run.states <= longer.states
    && forall j :: |run.actions| <= j < |longer.actions| ==> longer.actions[j].Arrive?
  }

  lemma Extend(cfg: Config, run: Run, a: Action) returns (longer: Run)
    requires Sane(cfg) && IsRun(cfg, run) && Enabled(cfg, Last(run), a)
    ensures IsRun(cfg, longer) && longer.actions == run.actions + [a] && run.states <= longer.states
    ensures Safe(cfg, Last(run), a) && Last(longer) == Step(cfg, Last(run), a)
  {
    RunKeeps(cfg, run, |run.actions|);
    StepKeeps(cfg, Last(run), a);
    var next := Step(cfg, Last(run), a);
    longer := Run(run.states + [next], run.actions + [a]);
    Appended(cfg, run, a, next);
  }

  lemma Appended(cfg: Config, run: Run, a: Action, next: System)
    requires IsRun(cfg, run) && StepsTo(cfg, Last(run), a, next)
    ensures IsRun(cfg, Run(run.states + [next], run.actions + [a]))
  {
    var longer := Run(run.states + [next], run.actions + [a]);
    forall k: nat | k < |longer.actions|
      ensures StepAt(cfg, longer, k)
    {
      if k < |run.actions| {
        assert StepAt(cfg, run, k);
        SameStep(cfg, run, longer, k);
      }
    }
  }

  lemma SameStep(cfg: Config, run: Run, longer: Run, k: nat)
    requires StepAt(cfg, run, k) && run.states <= longer.states && run.actions <= longer.actions
    ensures StepAt(cfg, longer, k)
  {}

  /** The arrival of symbol q of object n, which is somewhere on the network. */
  lemma ArrivalOf(cfg: Config, run: Run, n: nat, q: nat) returns (longer: Run, raw: Block, path: byte, time: u64)
    requires Sane(cfg) && IsRun(cfg, run) && n < |Last(run).sent| && q < SentTotal(Last(run).sent[n])
    ensures IsSymbol(cfg.code, Last(run).sent[n], q, path, time, raw) && raw in Last(run).net
    ensures IsRun(cfg, longer) && longer.actions == run.actions + [Arrive(raw)] && run.states <= longer.states
    ensures Safe(cfg, Last(run), Arrive(raw)) && Last(longer) == Arrived(cfg, Last(run), raw)
    ensures Last(longer).sent == Last(run).sent
  {
    RunOnNetwork(cfg, run, |run.actions|);
    assert SymbolOn(cfg.code, Last(run).sent[n], q, Last(run).net);
    path, time, raw :| raw in Last(run).net && IsSymbol(cfg.code, Last(run).sent[n], q, path, time, raw);
    longer := Extend(cfg, run, Arrive(raw));
    ArriveLeavesNetwork(cfg, Last(run), raw);
  }

  lemma GatherFirst(cfg: Config, run: Run, n: nat) returns (longer: Run, i: nat)
    requires Sane(cfg) && IsRun(cfg, run) && n < |Last(run).sent| && 0 < SentTotal(Last(run).sent[n])
    requires Deliverable(Last(run).sent[n])
    ensures IsRun(cfg, longer) && Continues(run, longer) && Last(longer).sent == Last(run).sent
    ensures Gathered(Last(longer), n, i, 1)
  {
    var raw, path, time;
    longer, raw, path, time := ArrivalOf(cfg, run, n, 0);
    i := FirstGathers(cfg, run, raw, Last(longer), n, path, time);
  }

  lemma FirstGathers(cfg: Config, run: Run, raw: Block, s': System, n: nat, path: byte, time: u64) returns (i: nat)
    requires Sane(cfg) && IsRun(cfg, run) && Safe(cfg, Last(run), Arrive(raw)) && s' == Arrived(cfg, Last(run), raw)
    requires n < |Last(run).sent| && Deliverable(Last(run).sent[n])
    requires IsSymbol(cfg.code, Last(run).sent[n], 0, path, time, raw)
    ensures Gathered(s', n, i, 1)
  {
    RunKeeps(cfg, run, |run.actions|);
    i := SymbolGathers(cfg, Last(run), raw, s', n, 0, path, time, 0);
  }

  lemma GatherNext(cfg: Config, run: Run, n: nat, i: nat, q: nat) returns (longer: Run)
    requires Sane(cfg) && IsRun(cfg, run) && n < |Last(run).sent| && q < SentTotal(Last(run).sent[n])
    requires Deliverable(Last(run).sent[n]) && Gathered(Last(run), n, i, q)
    ensures IsRun(cfg, longer) && Continues(run, longer) && Last(longer).sent == Last(run).sent
    ensures Gathered(Last(longer), n, i, q + 1)
  {
    var raw, path, time;
    longer, raw, path, time := ArrivalOf(cfg, run, n, q);
    RunKeeps(cfg, run, |run.actions|);
    NextSymbol(cfg, Last(run), raw, Last(longer), n, i, q, path, time);
  }

  lemma ContinuesTransitive(a: Run, b: Run, c: Run)
    requires Continues(a, b) && Continues(b, c)
    ensures Continues(a, c)
  {}

  /** Any run can go on until some slot has the first q symbols of object n. */
  lemma {:induction false} Gather(cfg: Config, run: Run, n: nat, q: nat) returns (longer: Run, i: nat)
    requires Sane(cfg) && IsRun(cfg, run) && n < |Last(run).sent| && 0 < q <= SentTotal(Last(run).sent[n])
    requires Deliverable(Last(run).sent[n])
    ensures IsRun(cfg, longer) && Continues(run, longer) && Last(longer).sent == Last(run).sent
    ensures Gathered(Last(longer), n, i, q)
  {
    if q == 1 {
      longer, i := GatherFirst(cfg, run, n);
    } else {
      var before;
      before, i := Gather(cfg, run, n, q - 1);
      longer := GatherNext(cfg, before, n, i, q - 1);
      ContinuesTransitive(run, before, longer);
    }
  }

  /** In this state a slot holds object n decoded, and its residency has delivered it. */
  ghost predicate Arrives(s: System, n: nat, i: nat) {
    Owns(s, n, i) && s.receiver.slots[i].decoded && Tally(s.log, s.rids[i], Object) == 1
  }

  /** From every reachable state every deliverable object ever published can still be delivered: the run can go on, by
      arrivals alone, to a state in which a slot holds that object decoded and has delivered it. */
  lemma DeliveryRemainsPossible(cfg: Config, run: Run, n: nat) returns (longer: Run, i: nat)
    requires Sane(cfg) && IsRun(cfg, run) && n < |Last(run).sent| && Deliverable(Last(run).sent[n])
    ensures IsRun(cfg, longer) && Continues(run, longer) && Last(longer).sent == Last(run).sent
    ensures Arrives(Last(longer), n, i)
  {
    RunKeeps(cfg, run, |run.actions|);
    HasSymbols(cfg, Last(run).sent, n);
    longer, i := Gather(cfg, run, n, SentTotal(Last(run).sent[n]));
    CompleteIsDelivered(cfg, longer, |longer.actions|, i);
  }

  lemma HasSymbols(cfg: Config, sent: seq<Sent>, n: nat)
    requires SentOk(cfg, sent) && n < |sent|
    ensures SentTotal(sent[n]) > 0
  {}

  /** No slot works on an object sent under the telemetry alias. */
  ghost predicate NoTelemetry(s: System) {
    Sized(s) &&
    forall i :: 0 <= i < ASSEMBLER_CACHE_SIZE && Used(s.receiver.slots[i]) ==>
      s.owners[i] < |s.sent| && s.sent[s.owners[i]].alias != TRACK_TELEMETRY
  }

  lemma MovedNoTelemetry(cfg: Config, s: System, s': System, m: Move)
    requires SlotsOk(cfg, s) && Moved(cfg, s, s', m) && NoTelemetry(s) && s.sent[m.n].alias != TRACK_TELEMETRY
    ensures NoTelemetry(s')
  {
    forall i | 0 <= i < ASSEMBLER_CACHE_SIZE && Used(s'.receiver.slots[i])
      ensures s'.owners[i] < |s'.sent| && s'.sent[s'.owners[i]].alias != TRACK_TELEMETRY
    {
      MovedElsewhere(cfg, s, s', m, i);
    }
  }

  lemma {:induction false} RunNoTelemetry(cfg: Config, run: Run, t: nat)
    requires Sane(cfg) && IsRun(cfg, run) && t < |run.states|
    ensures NoTelemetry(run.states[t])
  {
    if t > 0 {
      RunNoTelemetry(cfg, run, t - 1);
      RunStepNoTelemetry(cfg, run, t - 1);
    }
  }

  lemma RunStepNoTelemetry(cfg: Config, run: Run, t: nat)
    requires Sane(cfg) && IsRun(cfg, run) && t < |run.actions| && NoTelemetry(run.states[t])
    ensures NoTelemetry(run.states[t + 1])
  {
    var m, q := RunMoves(cfg, run, t);
    if m.Some? {
      MovedNoTelemetry(cfg, run.states[t], run.states[t + 1], m.value);
    }
  }

  /** Nothing but a deliverable object ever gets a slot in any run. */
  lemma OnlyDeliverableArrives(cfg: Config, run: Run, t: nat, n: nat, i: nat)
    requires Sane(cfg) && IsRun(cfg, run) && t < |run.states| && n < |run.states[t].sent|
    requires Owns(run.states[t], n, i)
    ensures Deliverable(run.states[t].sent[n])
  {
    RunKeeps(cfg, run, t);
    RunNoTelemetry(cfg, run, t);
  }

  /** A published object can still be delivered if and only if it is not under the telemetry alias and has at most 16384
      symbols. */
  lemma DeliveryPossibleIff(cfg: Config, run: Run, n: nat)
    requires Sane(cfg) && IsRun(cfg, run) && n < |Last(run).sent|
    ensures (exists longer, i :: Delivers(cfg, run, longer, n, i)) <==> Deliverable(Last(run).sent[n])
  {
    if Deliverable(Last(run).sent[n]) {
      var longer, i := DeliveryRemainsPossible(cfg, run, n);
      assert Delivers(cfg, run, longer, n, i);
    } else if longer, i :| Delivers(cfg, run, longer, n, i) {
      OnlyDeliverableArrives(cfg, longer, |longer.actions|, n, i);
    }
  }

  ghost predicate Delivers(cfg: Config, run: Run, longer: Run, n: nat, i: nat)
    requires run.states != []
  {
    IsRun(cfg, longer) && Continues(run, longer) && Last(longer).sent == Last(run).sent && Arrives(Last(longer), n, i)
  }
}
