/** Concrete runs of the object protocol: that there are any, and inputs on which it does less, or more, than one might
    expect. */
module Scenarios {
  import opened Bytes
  import opened ErasureCode
  import opened Tracks
  import opened Wire
  import opened Sender
  import opened Assembler
  import opened Residency
  import opened Protocol
  import opened Delivery
  import opened Guarantees
  import opened Repair
  import opened Lifetime
  import opened Objects
  import opened Progress
  import Outcomes

  lemma {:induction false} EmptyHolds(n: nat, kind: byte, name: Block, alias: byte)
    requires n <= SUBSCRIPTIONS
    ensures IndexOf(Empty()[n..], kind, name) == SUBSCRIPTIONS - n
    ensures IndexOfAlias(Empty()[n..], alias) == SUBSCRIPTIONS - n
    decreases SUBSCRIPTIONS - n
  {
    if n < SUBSCRIPTIONS {
      EmptyHolds(n + 1, kind, name, alias);
      assert Empty()[n..][1..] == Empty()[n + 1..];
    }
  }

  /** Two endpoints that have subscribed to nothing, with the XOR code, meet every assumption of the guarantees. */
  lemma EmptyTablesAreSane()
    ensures Sane(Config(XorCode(), Empty(), Empty()))
  {
    XorCodeMeetsContract();
    assert Empty()[0..] == Empty();
    forall kind: byte, name: Block, alias: byte
      ensures IndexOf(Empty(), kind, name) == SUBSCRIPTIONS && IndexOfAlias(Empty(), alias) == SUBSCRIPTIONS
    {
      EmptyHolds(0, kind, name, alias);
    }
  }

  /** They have a run that publishes a two-symbol object with one parity symbol and delivers it. */
  lemma SomeRunDelivers() returns (run: Run, i: nat)
    ensures var cfg := Config(XorCode(), Empty(), Empty());
            && Sane(cfg) && IsRun(cfg, run) && |Last(run).sent| == 1
            && Arrives(Last(run), 0, i)
  {
    var cfg := Config(XorCode(), Empty(), Empty());
    EmptyTablesAreSane();
    var item := Item(TrackId(TRACK_DATA, 2, []), 0, 0, Zeros(1500), false, 1);
    var l := Layout(2, 1, 1000);
    assert InLimits(item, l);
    var start := Run([Init()], []);
    var published := Extend(cfg, start, Publish(item, l, [0, 0, 0], [0, 0, 0]));
    run, i := DeliveryRemainsPossible(cfg, published, 0);
  }

  /** A DATA object of 16385 symbols without parity can be published, and is never delivered in any continuation. */
  lemma LongObjectIsNeverDelivered() returns (run: Run)
    ensures var cfg := Config(XorCode(), Empty(), Empty());
            && Sane(cfg) && IsRun(cfg, run) && |Last(run).sent| == 1 && SentTotal(Last(run).sent[0]) == 16385
            && Last(run).sent[0].item.track.kind == TRACK_DATA
            && !exists longer, i :: Delivers(cfg, run, longer, 0, i)
  {
    var cfg := Config(XorCode(), Empty(), Empty());
    EmptyTablesAreSane();
    var item := Item(TrackId(TRACK_DATA, 0, []), 0, 0, Zeros(16385000), false, 1);
    var l := Layout(16385, 0, 1000);
    assert InLimits(item, l);
    var start := Run([Init()], []);
    run := Extend(cfg, start, Publish(item, l, seq(16385, _ => 0), seq(16385, _ => 0)));
    DeliveryPossibleIff(cfg, run, 0);
  }

  // ----- An object delivered twice -----

  /** Small objects: one symbol, no parity. */
  function Small(n: nat): (x: Sent)
  {
    Sent(Item(TrackId(TRACK_DATA, 0, []), 0, n, [], false, 0), TRACK_DATA, Layout(1, 0, 1000))
  }

  predicate AllSmall(sent: seq<Sent>) {
    |sent| < 0x1_0000_0000 && forall n :: 0 <= n < |sent| ==> sent[n] == Small(n)
  }

  lemma SmallIsSendable(cfg: Config, s: System)
    requires cfg == Config(XorCode(), Empty(), Empty()) && AllSmall(s.sent) && |s.sent| < 100
    ensures var x := Small(|s.sent|);
            && Enabled(cfg, s, Publish(x.item, x.l, [0], [0])) && Deliverable(x)
            && FindByTrack(cfg.senderSubs, x.item.track) == Some(x.alias)
  {}

  /** Publishes m small objects before anything arrives. */
  lemma {:induction false} PublishSmall(m: nat) returns (run: Run)
    requires m < 100
    ensures var cfg := Config(XorCode(), Empty(), Empty());
            && Sane(cfg) && IsRun(cfg, run)
            && |Last(run).sent| == m && AllSmall(Last(run).sent)
            && Last(run).receiver == NewReceiver() && Last(run).claims == 0 && Last(run).log == []
  {
    var cfg := Config(XorCode(), Empty(), Empty());
    EmptyTablesAreSane();
    if m == 0 {
      run := Run([Init()], []);
    } else {
      var before := PublishSmall(m - 1);
      SmallIsSendable(cfg, Last(before));
      var x := Small(m - 1);
      run := Extend(cfg, before, Publish(x.item, x.l, [0], [0]));
    }
  }

  /** What has been delivered so far: object j in residency j. */
  ghost predicate Ledger(s: System, m: nat) {
    && Fifo(s) && s.claims == m == |s.log|
    && (forall j :: 0 <= j < m ==> s.log[j].output.Delivered? && s.log[j].sentIndex == j)
    && (forall i :: 0 <= i < ASSEMBLER_CACHE_SIZE && Used(s.receiver.slots[i]) ==>
          s.receiver.slots[i].decoded && s.owners[i] == s.rids[i])
  }

  /** A small object that no slot works on is delivered at once, if nothing pending is evicted. */
  lemma SmallIsDelivered(cfg: Config, s: System, s': System, m: Move)
    requires SlotsOk(cfg, s) && Moved(cfg, s, s', m) && s.sent[m.n] == Small(m.n)
    requires Has(m.after, 0) && !m.resident && !Evicts(s, m)
    ensures m.after.decoded && s'.claims == s.claims + 1
    ensures |s'.log| == |s.log| + 1 && s'.log[..|s.log|] == s.log
    ensures s'.log[|s.log|].output.Delivered? && s'.log[|s.log|].sentIndex == m.n
  {
    assert m.after.decoded by {
      assert GotAllData(m.after.mask, 1) || m.after.decoded;
    }
    assert m.lost == [] && m.nacks == [] && |m.delivered| == 1;
    assert s'.log == s.log + m.delivered;
    assert m.delivered[0] in m.delivered;
  }

  /** No slot works on object n, and nothing is pending. */
  ghost predicate Idle(s: System, n: nat) {
    Sized(s) && forall i :: 0 <= i < ASSEMBLER_CACHE_SIZE && Used(s.receiver.slots[i]) ==>
      s.receiver.slots[i].decoded && s.owners[i] != n
  }

  /** What is known after one more small object has been delivered: `i` is the slot it took. */
  ghost predicate DeliversNext(s: System, s': System, n: nat, i: nat) {
    && Sized(s) && Sized(s') && i < ASSEMBLER_CACHE_SIZE
    && s'.sent == s.sent && s'.claims == s.claims + 1
    && |s'.log| == |s.log| + 1 && s'.log[..|s.log|] == s.log
    && s'.log[|s.log|].output.Delivered? && s'.log[|s.log|].sentIndex == n
    && s'.rids == s.rids[i := s.claims] && s'.owners == s.owners[i := n]
    && s'.receiver.slots == s.receiver.slots[i := s'.receiver.slots[i]] && s'.receiver.slots[i].decoded
  }

  lemma MoveDelivers(cfg: Config, s: System, s': System, m: Move)
    requires SlotsOk(cfg, s) && Moved(cfg, s, s', m) && s.sent[m.n] == Small(m.n) && Idle(s, m.n)
    requires 0 < |m.before.mask| && (!m.before.decoded ==> m.after.mask == m.before.mask[0 := true])
    ensures DeliversNext(s, s', m.n, m.i)
  {
    MoveGathers(cfg, s, s', m, 0);
    assert s'.receiver.slots[m.i] == m.after;
    SmallIsDelivered(cfg, s, s', m);
  }

  lemma DeliverSmall(cfg: Config, run: Run, n: nat) returns (longer: Run, i: nat)
    requires Sane(cfg) && IsRun(cfg, run) && AllSmall(Last(run).sent) && n < |Last(run).sent| && Idle(Last(run), n)
    ensures IsRun(cfg, longer) && DeliversNext(Last(run), Last(longer), n, i)
  {
    var raw, path, time;
    longer, raw, path, time := ArrivalOf(cfg, run, n, 0);
    RunKeeps(cfg, run, |run.actions|);
    SymbolAdmitted(cfg, Last(run), raw, n, 0, path, time);
    var (h, track) := Admit(cfg.receiverSubs, raw).value;
    var m := ArriveMoved(cfg, Last(run), raw, h, track, n);
    i := m.i;
    MoveDelivers(cfg, Last(run), Last(longer), m);
  }

  lemma LedgerGrows(s: System, s': System, m: nat, i: nat)
    requires Ledger(s, m) && Fifo(s') && DeliversNext(s, s', m, i)
    ensures Ledger(s', m + 1)
  {
    forall j | 0 <= j < m + 1
      ensures s'.log[j].output.Delivered? && s'.log[j].sentIndex == j
    {
      assert j < m ==> s'.log[..m][j] == s.log[j];
    }
  }

  /** The first m of 17 small objects arrive in order. */
  lemma {:induction false} DeliverInOrder(m: nat) returns (run: Run)
    requires m <= 17
    ensures var cfg := Config(XorCode(), Empty(), Empty());
            && Sane(cfg) && IsRun(cfg, run) && |Last(run).sent| == 17 && AllSmall(Last(run).sent)
            && Ledger(Last(run), m)
  {
    var cfg := Config(XorCode(), Empty(), Empty());
    if m == 0 {
      run := PublishSmall(17);
      RunFifo(cfg, run, |run.actions|);
    } else {
      var before := DeliverInOrder(m - 1);
      var i;
      run, i := DeliverSmall(cfg, before, m - 1);
      RunFifo(cfg, run, |run.actions|);
      LedgerGrows(Last(before), Last(run), m - 1, i);
    }
  }

  /** The bound of Objects.OutcomesBounded is reached: 17 objects are published and arrive in order, then a duplicate of
      the first one's symbol arrives, and it is delivered again. */
  lemma DeliveredTwice() returns (run: Run)
    ensures var cfg := Config(XorCode(), Empty(), Empty());
            && Sane(cfg) && IsRun(cfg, run) && Last(run).claims == |Last(run).log| == 18
            && Last(run).log[0].output.Delivered? && Last(run).log[0].sentIndex == 0
            && Last(run).log[17].output.Delivered? && Last(run).log[17].sentIndex == 0
            && Events(Last(run).log, 0, Object) >= 2
  {
    var cfg := Config(XorCode(), Empty(), Empty());
    var before := DeliverInOrder(17);
    var i;
    run, i := DeliverSmall(cfg, before, 0);
    var log := Last(run).log;
    assert log[..17][0] == log[0];
    EventsOfOne(log[..17], 0, Object, 0);
  }

  lemma {:induction false} EventsOfOne(log: seq<Record>, n: nat, kind: Kind, j: nat)
    requires j < |log| && log[j].sentIndex == n && Is(kind, log[j].output)
    ensures Events(log, n, kind) >= 1
  {
    if j < |log| - 1 {
      assert log[..|log| - 1][j] == log[j];
      EventsOfOne(log[..|log| - 1], n, kind, j);
    }
  }

  // ----- An object reported lost after its delivery -----

  /** Two symbols, no parity. */
  function Double(): (x: Sent)
  {
    Sent(Item(TrackId(TRACK_DATA, 0, []), 0, 0, Zeros(1500), false, 0), TRACK_DATA, Layout(2, 0, 1000))
  }

  predicate DoubleThenSmall(sent: seq<Sent>) {
    sent != [] && sent[0] == Double() && forall n :: 1 <= n < |sent| ==> sent[n] == Small(n)
  }

  lemma NextIsSendable(cfg: Config, s: System, x: Sent)
    requires cfg == Config(XorCode(), Empty(), Empty()) && |s.sent| < 100
    requires (s.sent == [] && x == Double()) || (DoubleThenSmall(s.sent) && x == Small(|s.sent|))
    ensures Enabled(cfg, s, Publish(x.item, x.l, seq(x.l.k, _ => 0), seq(x.l.k, _ => 0))) && Deliverable(x)
    ensures FindByTrack(cfg.senderSubs, x.item.track) == Some(x.alias)
  {}

  lemma {:induction false} PublishDouble(m: nat) returns (run: Run)
    requires m < 99
    ensures var cfg := Config(XorCode(), Empty(), Empty());
            && Sane(cfg) && IsRun(cfg, run)
            && |Last(run).sent| == m + 1 && DoubleThenSmall(Last(run).sent)
            && Last(run).receiver == NewReceiver() && Last(run).claims == 0 && Last(run).log == []
  {
    var cfg := Config(XorCode(), Empty(), Empty());
    EmptyTablesAreSane();
    var before := Run([Init()], []);
    if m > 0 {
      before := PublishDouble(m - 1);
    }
    var x := if m == 0 then Double() else Small(m);
    NextIsSendable(cfg, Last(before), x);
    run := Extend(cfg, before, Publish(x.item, x.l, seq(x.l.k, _ => 0), seq(x.l.k, _ => 0)));
  }

  /** No slot works on an object from m on; only residency r may still be at work on object 0, which has d deliveries
      and b residencies so far. */
  ghost predicate Seen(s: System, m: nat, r: nat, claims: nat, d: nat, b: nat) {
    && Fifo(s) && s.claims == claims && Events(s.log, 0, Object) == d && Balance(s, 0) == b
    && forall i :: 0 <= i < ASSEMBLER_CACHE_SIZE && Used(s.receiver.slots[i]) ==>
         s.owners[i] < m && (s.owners[i] == 0 ==> s.rids[i] == r)
  }

  /** Symbol q of object n arrives; a slot taken over for it had no symbol before. */
  lemma ArrivesAs(cfg: Config, run: Run, n: nat, q: nat) returns (longer: Run, m: Move)
    requires Sane(cfg) && IsRun(cfg, run) && n < |Last(run).sent| && q < SentTotal(Last(run).sent[n])
    requires Deliverable(Last(run).sent[n])
    ensures IsRun(cfg, longer) && Last(longer).sent == Last(run).sent && Fifo(Last(run)) && Fifo(Last(longer))
    ensures run.actions < longer.actions && |longer.actions| == |run.actions| + 1
    ensures longer.actions[|run.actions|].Arrive?
    ensures SlotsOk(cfg, Last(run)) && Moved(cfg, Last(run), Last(longer), m) && m.n == n && q < |m.before.mask|
    ensures !m.before.decoded ==> m.after.mask == m.before.mask[q := true]
    ensures !m.resident ==> Count(m.before.mask) == 0 && !m.before.mask[q]
  {
    var raw, path, time;
    longer, raw, path, time := ArrivalOf(cfg, run, n, q);
    RunFifo(cfg, run, |run.actions|);
    RunFifo(cfg, longer, |longer.actions|);
    RunKeeps(cfg, run, |run.actions|);
    m := MovesAs(cfg, Last(run), raw, n, q, path, time);
  }

  lemma MovesAs(cfg: Config, s: System, raw: Block, n: nat, q: nat, path: byte, time: u64) returns (m: Move)
    requires Sane(cfg) && Inv(cfg, s) && Safe(cfg, s, Arrive(raw)) && n < |s.sent| && Deliverable(s.sent[n])
    requires IsSymbol(cfg.code, s.sent[n], q, path, time, raw)
    ensures Moved(cfg, s, Arrived(cfg, s, raw), m) && m.n == n && q < |m.before.mask|
    ensures !m.before.decoded ==> m.after.mask == m.before.mask[q := true]
    ensures !m.resident ==> Count(m.before.mask) == 0 && !m.before.mask[q]
  {
    SymbolAdmitted(cfg, s, raw, n, q, path, time);
    var (h, track) := Admit(cfg.receiverSubs, raw).value;
    m := ArriveMoved(cfg, s, raw, h, track, n);
    if !m.resident {
      ClaimedIsEmpty(s.receiver, h);
    }
  }

  lemma ClaimedIsEmpty(r: Receiver, h: Header)
    requires ReceiverShape(r) && !Resident(r, h)
    ensures var mask := Target(r, h).mask; Count(mask) == 0 && forall q :: 0 <= q < |mask| ==> !mask[q]
  {
    CountNone(Target(r, h).mask);
  }

  /** One more small object arrives. */
  lemma OtherArrives(cfg: Config, run: Run, n: nat, r: nat, claims: nat, d: nat, b: nat) returns (longer: Run)
    requires Sane(cfg) && IsRun(cfg, run) && DoubleThenSmall(Last(run).sent) && 1 <= n < |Last(run).sent|
    requires Seen(Last(run), n, r, claims, d, b)
    ensures IsRun(cfg, longer) && Last(longer).sent == Last(run).sent
    ensures Seen(Last(longer), n + 1, r, claims + 1, d, b)
  {
    var m;
    longer, m := ArrivesAs(cfg, run, n, 0);
    OtherSeen(cfg, Last(run), Last(longer), m, r, claims, d, b);
  }

  lemma OtherSeen(cfg: Config, s: System, s': System, m: Move, r: nat, claims: nat, d: nat, b: nat)
    requires SlotsOk(cfg, s) && Moved(cfg, s, s', m) && Fifo(s') && m.n >= 1 && Seen(s, m.n, r, claims, d, b)
    ensures Seen(s', m.n + 1, r, claims + 1, d, b)
  {
    MovedEvents(cfg, s, s', m, 0, Object);
    MovedBalance(cfg, s, s', m, 0);
    assert !m.resident;
    Outcomes.MovedTouches(cfg, s, s', m);
  }

  lemma {:induction false} OthersArrive(cfg: Config, run: Run, n: nat, count: nat, r: nat, claims: nat, d: nat, b: nat)
    returns (longer: Run)
    requires Sane(cfg) && IsRun(cfg, run) && DoubleThenSmall(Last(run).sent) && 1 <= n <= n + count <= |Last(run).sent|
    requires Seen(Last(run), n, r, claims, d, b)
    ensures IsRun(cfg, longer) && Last(longer).sent == Last(run).sent
    ensures Seen(Last(longer), n + count, r, claims + count, d, b)
  {
    if count == 0 {
      longer := run;
    } else {
      var before := OthersArrive(cfg, run, n, count - 1, r, claims, d, b);
      longer := OtherArrives(cfg, before, n + count - 1, r, claims + count - 1, d, b);
    }
  }

  /** One symbol of object 0 arrives when no slot works on it: it waits in a slot of its own. */
  lemma DoubleArrives(cfg: Config, run: Run, n: nat, r: nat, claims: nat, d: nat, b: nat) returns (longer: Run, i: nat)
    requires Sane(cfg) && IsRun(cfg, run) && DoubleThenSmall(Last(run).sent) && n >= 1
    requires Seen(Last(run), n, r, claims, d, b) && (claims > r + ASSEMBLER_CACHE_SIZE || claims == 0)
    ensures IsRun(cfg, longer) && Last(longer).sent == Last(run).sent
    ensures Seen(Last(longer), n, claims, claims + 1, d, b + 1)
    ensures Owns(Last(longer), 0, i) && !Last(longer).receiver.slots[i].decoded
    ensures 0 < |Last(longer).receiver.slots[i].mask| && Last(longer).receiver.slots[i].mask[0]
  {
    var m;
    longer, m := ArrivesAs(cfg, run, 0, 0);
    i := m.i;
    DoubleSeen(cfg, Last(run), Last(longer), m, n, r, claims, d, b);
  }

  lemma DoubleSeen(cfg: Config, s: System, s': System, m: Move, n: nat, r: nat, claims: nat, d: nat, b: nat)
    requires SlotsOk(cfg, s) && Moved(cfg, s, s', m) && Fifo(s') && m.n == 0 && s.sent[0] == Double() && n >= 1
    requires Seen(s, n, r, claims, d, b) && (claims > r + ASSEMBLER_CACHE_SIZE || claims == 0)
    requires 0 < |m.before.mask| && (!m.before.decoded ==> m.after.mask == m.before.mask[0 := true])
    requires !m.resident ==> Count(m.before.mask) == 0 && !m.before.mask[0]
    ensures Seen(s', n, claims, claims + 1, d, b + 1)
    ensures Owns(s', 0, m.i) && !s'.receiver.slots[m.i].decoded
    ensures 0 < |s'.receiver.slots[m.i].mask| && s'.receiver.slots[m.i].mask[0]
  {
    assert !m.resident;
    CountSet(m.before.mask, 0);
    assert Holding(cfg.code, s.sent[0], m.after) && m.after.count == 1;
    Outcomes.MovedTouches(cfg, s, s', m);
    assert s'.receiver.slots[m.i] == m.after;
    MovedEvents(cfg, s, s', m, 0, Object);
    MovedBalance(cfg, s, s', m, 0);
  }

  /** The other symbol of object 0 arrives while the first waits: the object is delivered. */
  lemma DoubleCompletes(cfg: Config, run: Run, n: nat, r: nat, claims: nat, d: nat, b: nat, i: nat)
    returns (longer: Run)
    requires Sane(cfg) && IsRun(cfg, run) && DoubleThenSmall(Last(run).sent) && n >= 1
    requires Seen(Last(run), n, r, claims, d, b)
    requires Owns(Last(run), 0, i) && !Last(run).receiver.slots[i].decoded
    requires 0 < |Last(run).receiver.slots[i].mask| && Last(run).receiver.slots[i].mask[0]
    ensures IsRun(cfg, longer) && Last(longer).sent == Last(run).sent
    ensures Seen(Last(longer), n, r, claims, d + 1, b)
  {
    var m;
    longer, m := ArrivesAs(cfg, run, 0, 1);
    CompleteSeen(cfg, Last(run), Last(longer), m, n, r, claims, d, b, i);
  }

  lemma CompleteSeen(cfg: Config, s: System, s': System, m: Move, n: nat, r: nat, claims: nat, d: nat, b: nat, i: nat)
    requires SlotsOk(cfg, s) && Moved(cfg, s, s', m) && Fifo(s') && m.n == 0 && s.sent[0] == Double() && n >= 1
    requires Seen(s, n, r, claims, d, b) && Owns(s, 0, i) && !s.receiver.slots[i].decoded
    requires 0 < |s.receiver.slots[i].mask| && s.receiver.slots[i].mask[0]
    requires 1 < |m.before.mask| && (!m.before.decoded ==> m.after.mask == m.before.mask[1 := true])
    ensures Seen(s', n, r, claims, d + 1, b)
  {
    MoveStays(cfg, s, s', m, i);
    assert m.resident && m.before == s.receiver.slots[i];
    assert m.after.decoded by {
      assert GotAllData(m.after.mask, 2);
    }
    Outcomes.MovedTouches(cfg, s, s', m);
    MovedEvents(cfg, s, s', m, 0, Object);
    MovedBalance(cfg, s, s', m, 0);
  }

  /** Object 0 is delivered; 16 others arrive; a late symbol of object 0 starts it once more; 16 others arrive, and
      object 0 is reported lost. */
  lemma LostAfterDelivery() returns (run: Run)
    ensures var cfg := Config(XorCode(), Empty(), Empty());
            && Sane(cfg) && IsRun(cfg, run) && Last(run).claims == 34
            && Events(Last(run).log, 0, Object) == 1 && Events(Last(run).log, 0, Loss) == 1
  {
    var cfg := Config(XorCode(), Empty(), Empty());
    var start := PublishDouble(32);
    RunFifo(cfg, start, |start.actions|);
    NotWaiting(Last(start), 0);
    var one, i := DoubleArrives(cfg, start, 1, 0, 0, 0, 0);
    var two := DoubleCompletes(cfg, one, 1, 0, 1, 0, 1, i);
    var three := OthersArrive(cfg, two, 1, 16, 0, 1, 1, 1);
    var four, j := DoubleArrives(cfg, three, 17, 0, 17, 1, 1);
    run := OthersArrive(cfg, four, 17, 16, 17, 18, 1, 2);
    assert forall i :: 0 <= i < ASSEMBLER_CACHE_SIZE && Used(Last(run).receiver.slots[i]) ==>
      InTurn(34, Last(run).rids[i], i);
    NotWaiting(Last(run), 0);
  }
}
