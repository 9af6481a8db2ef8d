/** What every run of the FEC object protocol keeps: delivered objects are the published ones, every residency
    ends exactly once, NACKs are exact, and recovery happens at the threshold. */
module Delivery {
  import opened Bytes
  import opened ErasureCode
  import opened Tracks
  import opened Wire
  import opened Sender
  import opened Assembler
  import opened Residency
  import opened Protocol

  // ----- The invariant -----

  ghost predicate SentOk(cfg: Config, sent: seq<Sent>) {
    && (forall i :: 0 <= i < |sent| ==>
          && InLimits(sent[i].item, sent[i].l) && ValidTrack(sent[i].item.track)
          && FindByTrack(cfg.senderSubs, sent[i].item.track) == Some(sent[i].alias))
    && (forall i, j :: 0 <= i < j < |sent| ==> !SameKey(sent[i], sent[j]))
  }

  /** `raw` is the datagram of symbol i of x, stamped with some path and time. */
  ghost predicate IsSymbol(code: Code, x: Sent, i: nat, path: byte, time: u64, raw: Block) {
    && i < SentTotal(x) == |Symbols(code, x.item, x.l)|
    && raw == SymbolDatagram(code, x.item, x.alias, x.l, i, path, time)
  }

  ghost predicate Honest(code: Code, sent: seq<Sent>, raw: Block) {
    exists n, i, path, time :: 0 <= n < |sent| && IsSymbol(code, sent[n], i, path, time, raw)
  }

  predicate Used(slot: Slot) { slot.total > 0 }
  predicate Pending(slot: Slot) { slot.total > 0 && !slot.decoded }

  ghost predicate SlotsOk(cfg: Config, s: System) {
    && ReceiverShape(s.receiver) && |s.rids| == |s.owners| == ASSEMBLER_CACHE_SIZE
    && (forall i :: 0 <= i < ASSEMBLER_CACHE_SIZE && Used(s.receiver.slots[i]) ==>
          && s.rids[i] < s.claims && s.owners[i] < |s.sent|
          && s.receiver.slots[i].total <= MAX_TOTAL_SYMBOLS
          && Holding(cfg.code, s.sent[s.owners[i]], s.receiver.slots[i]))
    && (forall i, j :: 0 <= i < j < ASSEMBLER_CACHE_SIZE && Used(s.receiver.slots[i]) && Used(s.receiver.slots[j]) ==>
          s.rids[i] != s.rids[j] && s.owners[i] != s.owners[j])
  }

  /** What the ring has been given, oldest first. */
  function Caches(kept: seq<Kept>): (r: seq<Cached>)
    ensures |r| == |kept|
  {
    seq(|kept|, m requires 0 <= m < |kept| => Cache(kept[m].item, kept[m].l))
  }

  ghost predicate KeptOk(sent: seq<Sent>, kept: seq<Kept>) {
    forall m :: 0 <= m < |kept| ==>
      && InLimits(kept[m].item, kept[m].l) && kept[m].item.track.kind == TRACK_DATA
      && (kept[m].sentAs.Some? ==>
            kept[m].sentAs.value < |sent| && sent[kept[m].sentAs.value].item == kept[m].item
            && sent[kept[m].sentAs.value].l == kept[m].l)
  }

  /** An output is the one its published object calls for. */
  ghost predicate OutputOk(cfg: Config, x: Sent, e: Record) {
    match e.output
    case Delivered(track, groupId, objectId, data, keyframe, priority) =>
      && SameTrack(track, x.item.track) && FecEnabled(track.flags) && !Reliable(track.flags)
      && groupId == x.item.groupId && objectId == x.item.objectId
      && data == x.item.data && keyframe == x.item.keyframe && priority == x.item.priority
    case Lost(track, groupId, objectId) =>
      SameTrack(track, x.item.track) && groupId == x.item.groupId && objectId == x.item.objectId
    case Nack(alias, groupId, objectId, missing) =>
      && alias == x.alias && groupId == x.item.groupId && objectId == x.item.objectId
      && x.item.track.kind == TRACK_DATA && x.l.k >= 2
      && |e.mask| >= SentTotal(x) && Count(e.mask[..SentTotal(x)]) == NackThreshold(x.l.k)
      && missing == MissingIndices(e.mask[..SentTotal(x)])
  }

  ghost predicate LogOk(cfg: Config, s: System) {
    forall k :: 0 <= k < |s.log| ==>
      && s.log[k].rid < s.claims && s.log[k].sentIndex < |s.sent|
      && OutputOk(cfg, s.sent[s.log[k].sentIndex], s.log[k])
  }

  datatype Kind = Object | Loss | Request

  predicate Is(kind: Kind, o: Output) {
    match kind
    case Object => o.Delivered?
    case Loss => o.Lost?
    case Request => o.Nack?
  }

  /** How many outputs of the given kind residency r has produced. */
  function Tally(log: seq<Record>, r: nat, kind: Kind): (n: nat)
  {
    if log == [] then 0
    else
      var e := log[|log| - 1];
      Tally(log[..|log| - 1], r, kind) + if e.rid == r && Is(kind, e.output) then 1 else 0
  }

  ghost predicate PendingResidency(s: System, r: nat)
    requires |s.rids| == |s.receiver.slots|
  {
    exists i :: 0 <= i < |s.rids| && Pending(s.receiver.slots[i]) && s.rids[i] == r
  }

  /** A residency has produced its one OBJECT or LOST event exactly if it is no longer pending;
      it has sent at most one NACK, and a resident slot remembers whether it has. */
  ghost predicate OutcomesOk(s: System)
    requires |s.rids| == |s.receiver.slots|
  {
    && (forall r :: 0 <= r < s.claims ==>
          Tally(s.log, r, Object) + Tally(s.log, r, Loss) == if PendingResidency(s, r) then 0 else 1)
    && (forall r :: 0 <= r < s.claims ==> Tally(s.log, r, Request) <= 1)
    && (forall i :: 0 <= i < |s.rids| && Used(s.receiver.slots[i]) ==>
          && Tally(s.log, s.rids[i], Loss) == 0
          && Tally(s.log, s.rids[i], Request) == if s.receiver.slots[i].nackSent then 1 else 0)
  }

  ghost predicate Inv(cfg: Config, s: System) {
    && SentOk(cfg, s.sent)
    && (forall raw :: raw in s.net ==> Honest(cfg.code, s.sent, raw))
    && KeptOk(s.sent, s.kept) && HoldsLatest(s.ring, Caches(s.kept))
    && SlotsOk(cfg, s) && LogOk(cfg, s) && OutcomesOk(s)
  }

  lemma InitInv(cfg: Config)
    ensures Inv(cfg, Init())
  {}

  // ----- Publishing and answering -----

  /** The receiver's part of the invariant does not depend on later publications. */
  lemma SlotsOkGrows(cfg: Config, s: System, s': System, x: Sent)
    requires SlotsOk(cfg, s) && LogOk(cfg, s)
    requires s'.sent == s.sent + [x] && s'.receiver == s.receiver && s'.claims == s.claims
    requires s'.rids == s.rids && s'.owners == s.owners && s'.log == s.log
    ensures SlotsOk(cfg, s') && LogOk(cfg, s')
  {
    forall i | 0 <= i < ASSEMBLER_CACHE_SIZE && Used(s.receiver.slots[i])
      ensures s'.sent[s.owners[i]] == s.sent[s.owners[i]]
    {}
    forall k | 0 <= k < |s.log|
      ensures s'.sent[s.log[k].sentIndex] == s.sent[s.log[k].sentIndex]
    {}
  }

  lemma KeptGrows(sent: seq<Sent>, s: System, item: Item, l: Layout, sentAs: Option<nat>)
    requires KeptOk(sent, s.kept) && HoldsLatest(s.ring, Caches(s.kept)) && InLimits(item, l)
    requires sentAs.Some? ==> sentAs.value < |sent| && sent[sentAs.value].item == item && sent[sentAs.value].l == l
    ensures var s' := Remembering(s, item, l, sentAs);
            KeptOk(sent, s'.kept) && HoldsLatest(s'.ring, Caches(s'.kept))
  {
    if item.track.kind == TRACK_DATA {
      RememberHoldsLatest(s.ring, Caches(s.kept), Cache(item, l));
      assert Caches(s.kept + [Kept(item, l, sentAs)]) == Caches(s.kept) + [Cache(item, l)];
    }
  }

  lemma KeptStays(sent: seq<Sent>, x: Sent, kept: seq<Kept>)
    requires KeptOk(sent, kept)
    ensures KeptOk(sent + [x], kept)
  {}

  lemma SentGrows(cfg: Config, s: System, item: Item, l: Layout, paths: seq<byte>, times: seq<u64>)
    requires SentOk(cfg, s.sent) && Enabled(cfg, s, Publish(item, l, paths, times))
    ensures SentOk(cfg, s.sent + [Sent(item, FindByTrack(cfg.senderSubs, item.track).value, l)])
  {}

  lemma NetGrows(code: Code, sent: seq<Sent>, net: set<Block>, x: Sent, paths: seq<byte>, times: seq<u64>)
    requires forall raw :: raw in net ==> Honest(code, sent, raw)
    requires SentTotal(x) == |Symbols(code, x.item, x.l)| == |paths| == |times|
    ensures forall raw :: raw in net || raw in PublishDatagrams(code, x.item, x.alias, x.l, paths, times) ==>
              Honest(code, sent + [x], raw)
  {
    var out := PublishDatagrams(code, x.item, x.alias, x.l, paths, times);
    forall raw | raw in net || raw in out
      ensures Honest(code, sent + [x], raw)
    {
      if raw in net {
        HonestGrows(code, sent, x, raw);
      } else {
        var i :| 0 <= i < |out| && out[i] == raw;
        assert IsSymbol(code, (sent + [x])[|sent|], i, paths[i], times[i], raw);
      }
    }
  }

  lemma PublishSafe(cfg: Config, s: System, item: Item, l: Layout, paths: seq<byte>, times: seq<u64>)
    requires Sane(cfg) && Inv(cfg, s)
    ensures Safe(cfg, s, Publish(item, l, paths, times))
  {
    SymbolsShape(cfg.code, item, l);
  }

  lemma PublishKeeps(cfg: Config, s: System, item: Item, l: Layout, paths: seq<byte>, times: seq<u64>)
    requires Inv(cfg, s)
    requires Enabled(cfg, s, Publish(item, l, paths, times)) && Safe(cfg, s, Publish(item, l, paths, times))
    ensures Inv(cfg, Published(cfg, s, item, l, paths, times))
  {
    var s' := Published(cfg, s, item, l, paths, times);
    var x := Sent(item, FindByTrack(cfg.senderSubs, item.track).value, l);
    SentGrows(cfg, s, item, l, paths, times);
    NetGrows(cfg.code, s.sent, s.net, x, paths, times);
    KeptStays(s.sent, x, s.kept);
    KeptGrows(s.sent + [x], s, item, l, Some(|s.sent|));
    SlotsOkGrows(cfg, s, s', x);
    OutcomesSame(s, s');
  }

  /** So does a stray. */
  lemma StashKeeps(cfg: Config, s: System, item: Item, l: Layout)
    requires Inv(cfg, s) && Possible(cfg, s, Stash(item, l))
    ensures s.ring.next < |s.ring.slots| && Inv(cfg, Remembering(s, item, l, None))
  {
    KeptGrows(s.sent, s, item, l, None);
    OutcomesSame(s, Remembering(s, item, l, None));
  }

  lemma OutcomesSame(s: System, s': System)
    requires |s.rids| == |s.receiver.slots| && OutcomesOk(s)
    requires s'.receiver == s.receiver && s'.claims == s.claims && s'.rids == s.rids && s'.log == s.log
    ensures OutcomesOk(s')
  {
    forall r | 0 <= r < s.claims
      ensures PendingResidency(s, r) == PendingResidency(s', r)
    {}
  }

  lemma HonestGrows(code: Code, sent: seq<Sent>, x: Sent, raw: Block)
    requires Honest(code, sent, raw)
    ensures Honest(code, sent + [x], raw)
  {
    var n, i, path, time :| 0 <= n < |sent| && IsSymbol(code, sent[n], i, path, time, raw);
    assert IsSymbol(code, (sent + [x])[n], i, path, time, raw);
  }

  /** What occupies the ring is one of the last 32 objects remembered. */
  lemma RingOrigin(cfg: Config, s: System, j: nat) returns (m: nat)
    requires Inv(cfg, s) && j < SENT_CACHE_SIZE && s.ring.slots[j].Some?
    ensures Remembered(s, m) && j == m % SENT_CACHE_SIZE
    ensures s.ring.slots[j].value == Cache(s.kept[m].item, s.kept[m].l)
  {
    m := OccupiedIsRecent(s.ring, Caches(s.kept), j);
  }

  lemma RingSafe(cfg: Config, s: System)
    requires Sane(cfg) && Inv(cfg, s)
    ensures RingShape(cfg.code, s.ring.slots)
  {
    forall j | 0 <= j < SENT_CACHE_SIZE && s.ring.slots[j].Some?
      ensures s.ring.slots[j].value.dataSymbols <= s.ring.slots[j].value.total
                == |RepairSymbols(cfg.code, s.ring.slots[j].value)|
      ensures HEADER_SIZE + s.ring.slots[j].value.symbolSize <= PACKET_BUFFER
    {
      var m := RingOrigin(cfg, s, j);
      RetransmissionFidelity(cfg.code, s.kept[m].item, s.kept[m].l, 0, [], []);
    }
  }

  /** The answer to any NACK, unless it comes from a stray, consists of datagrams of one object sent, under the alias it
      was sent with. */
  lemma AnswerIsHonest(cfg: Config, s: System, alias: byte, groupId: nat, objectId: nat,
                       missing: seq<nat>, times: seq<u64>, raw: Block)
    requires Sane(cfg) && Inv(cfg, s) && |missing| == |times| && RingShape(cfg.code, s.ring.slots)
    requires !FindsStray(cfg, s, alias, groupId, objectId)
    requires raw in HandleNack(cfg.code, s.ring.slots, cfg.senderSubs, alias, groupId, objectId, missing, times)
    ensures Honest(cfg.code, s.sent, raw)
  {
    var track := FindByAlias(cfg.senderSubs, alias).value;
    var j := IndexOfCached(s.ring.slots, track, groupId, objectId);
    var m := RingOrigin(cfg, s, j);
    var n := s.kept[m].sentAs.value;
    var x := s.sent[n];
    assert FindByTrack(cfg.senderSubs, track) == Some(alias);
    SameTrackSameAlias(cfg.senderSubs, track, x.item.track);
    RetransmissionFidelity(cfg.code, x.item, x.l, alias, Asked(missing), Asked(times));
    var q := OriginalsOnly(cfg.code, x.item, alias, x.l, Asked(missing), Asked(times), raw);
    assert IsSymbol(cfg.code, s.sent[n], missing[q], 0, times[q], raw);
  }

  lemma SameTrackSameAlias(subs: seq<Entry>, a: TrackId, b: TrackId)
    requires SameTrack(a, b)
    ensures FindByTrack(subs, a) == FindByTrack(subs, b)
  {}

  lemma AnswerKeeps(cfg: Config, s: System, alias: byte, groupId: nat, objectId: nat,
                    missing: seq<nat>, times: seq<u64>)
    requires Sane(cfg) && Inv(cfg, s) && |missing| == |times| && !FindsStray(cfg, s, alias, groupId, objectId)
    ensures RingShape(cfg.code, s.ring.slots)
    ensures Inv(cfg, Answered(cfg, s, alias, groupId, objectId, missing, times))
  {
    RingSafe(cfg, s);
    var out := HandleNack(cfg.code, s.ring.slots, cfg.senderSubs, alias, groupId, objectId, missing, times);
    forall raw | raw in out
      ensures Honest(cfg.code, s.sent, raw)
    {
      AnswerIsHonest(cfg, s, alias, groupId, objectId, missing, times, raw);
    }
    HonestNet(cfg, s, out);
  }

  /** Honest datagrams may be added to the network. */
  lemma HonestNet(cfg: Config, s: System, out: seq<Block>)
    requires Inv(cfg, s) && forall raw :: raw in out ==> Honest(cfg.code, s.sent, raw)
    ensures Inv(cfg, s.(net := s.net + (set raw | raw in out)))
  {
    OutcomesSame(s, s.(net := s.net + (set raw | raw in out)));
  }

  // ----- Arrival -----

  lemma HonestHeader(code: Code, x: Sent, i: nat, path: byte, time: u64, raw: Block)
    requires Lawful(code) && InLimits(x.item, x.l) && IsSymbol(code, x, i, path, time, raw)
    ensures |raw| == HEADER_SIZE + x.l.t && raw[0] == x.alias
    ensures HeaderOf(x, ParseHeader(raw)) && ParseHeader(raw).index == i
    ensures raw[HEADER_SIZE..HEADER_SIZE + x.l.t] == Symbols(code, x.item, x.l)[i]
  {
    SymbolsShape(code, x.item, x.l);
    var h := MakeHeader(x.item, x.alias, x.l, i, path, time);
    HeaderFits(x, i, path, time);
    HeaderRoundTrip(h, Symbols(code, x.item, x.l)[i]);
  }

  lemma HeaderFits(x: Sent, i: nat, path: byte, time: u64)
    requires InLimits(x.item, x.l) && i < SentTotal(x)
    ensures var h := MakeHeader(x.item, x.alias, x.l, i, path, time); Fits(h) && HeaderOf(x, h) && h.index == i
  {}

  /** What an admitted datagram is: a symbol of the one published object with its key. */
  ghost predicate Carries(cfg: Config, s: System, raw: Block, h: Header, track: TrackId, n: nat) {
    && n < |s.sent| && HeaderOf(s.sent[n], h)
    && |raw| >= HEADER_SIZE + h.symbolSize && |Symbols(cfg.code, s.sent[n].item, s.sent[n].l)| == h.total
    && raw[HEADER_SIZE..HEADER_SIZE + h.symbolSize] == Symbols(cfg.code, s.sent[n].item, s.sent[n].l)[h.index]
    && FindByAlias(cfg.receiverSubs, h.alias) == Some(track)
    && SameTrack(track, s.sent[n].item.track)
    && SentFor(s.sent, h) == n
  }

  lemma KeyIsUnique(sent: seq<Sent>, h: Header, n: nat)
    requires n < |sent| && KeyOf(sent[n], h)
    requires forall i, j :: 0 <= i < j < |sent| ==> !SameKey(sent[i], sent[j])
    ensures SentFor(sent, h) == n
  {
    var other := SentFor(sent, h);
    assert SameKey(sent[n], sent[other]) && SameKey(sent[other], sent[n]);
  }

  lemma SymbolCarries(cfg: Config, s: System, n: nat, i: nat, path: byte, time: u64, raw: Block)
    requires Sane(cfg) && SentOk(cfg, s.sent) && Admit(cfg.receiverSubs, raw).Some?
    requires n < |s.sent| && IsSymbol(cfg.code, s.sent[n], i, path, time, raw)
    ensures var (h, track) := Admit(cfg.receiverSubs, raw).value; Carries(cfg, s, raw, h, track, n)
  {
    HonestHeader(cfg.code, s.sent[n], i, path, time, raw);
    KeyIsUnique(s.sent, ParseHeader(raw), n);
  }

  lemma AdmittedCarries(cfg: Config, s: System, raw: Block) returns (n: nat)
    requires Sane(cfg) && SentOk(cfg, s.sent) && Honest(cfg.code, s.sent, raw) && Admit(cfg.receiverSubs, raw).Some?
    ensures var (h, track) := Admit(cfg.receiverSubs, raw).value; Carries(cfg, s, raw, h, track, n)
  {
    var m, i, path, time :| 0 <= m < |s.sent| && IsSymbol(cfg.code, s.sent[m], i, path, time, raw);
    n := m;
    SymbolCarries(cfg, s, n, i, path, time, raw);
  }

  /** The slot the datagram goes to holds its object, whether it was resident or has just been claimed. */
  lemma TargetHolds(cfg: Config, s: System, raw: Block, h: Header, track: TrackId, n: nat)
    requires Sane(cfg) && SentOk(cfg, s.sent) && SlotsOk(cfg, s) && Carries(cfg, s, raw, h, track, n)
    ensures Holding(cfg.code, s.sent[n], Target(s.receiver, h)) && InBounds(Target(s.receiver, h), h)
    ensures Resident(s.receiver, h) ==> s.owners[Locate(s.receiver, h)] == n
    ensures !Resident(s.receiver, h) ==>
              forall j :: 0 <= j < ASSEMBLER_CACHE_SIZE && Used(s.receiver.slots[j]) ==> s.owners[j] != n
  {
    var x := s.sent[n];
    var i := Locate(s.receiver, h);
    if Resident(s.receiver, h) {
      var m := s.owners[i];
      assert Holding(cfg.code, s.sent[m], s.receiver.slots[i]);
      assert SameKey(s.sent[n], s.sent[m]) && SameKey(s.sent[m], s.sent[n]);
    } else {
      ClaimHolds(Symbols(cfg.code, x.item, x.l), Recoverable(cfg.code, x), x, s.receiver.slots[i], h);
      forall j | 0 <= j < ASSEMBLER_CACHE_SIZE && Used(s.receiver.slots[j])
        ensures s.owners[j] != n
      {
        assert Holding(cfg.code, s.sent[s.owners[j]], s.receiver.slots[j]);
        assert !AssemblesFor(s.receiver.slots[j], h);
      }
    }
    HoldingInBounds(x, Target(s.receiver, h), h);
  }

  /** The effect of an admitted datagram: slot i moves from `before` to `after` while it holds object n, and up to
      three records are appended, each present exactly when its condition holds. */
  datatype Move = Move(i: nat, n: nat, resident: bool, before: Slot, after: Slot,
                       lost: seq<Record>, nacks: seq<Record>, delivered: seq<Record>)

  ghost predicate Moved(cfg: Config, s: System, s': System, m: Move)
    requires SlotsOk(cfg, s)
  {
    && m.i < ASSEMBLER_CACHE_SIZE && m.n < |s.sent|
    && s'.sent == s.sent && s'.net == s.net && s'.ring == s.ring && s'.kept == s.kept
    && s'.receiver.slots == s.receiver.slots[m.i := m.after] && s'.receiver.next < ASSEMBLER_CACHE_SIZE
    && Holding(cfg.code, s.sent[m.n], m.after) && 0 < m.after.total <= MAX_TOTAL_SYMBOLS
    && (m.before.decoded ==> m.after.decoded) && (m.before.nackSent ==> m.after.nackSent)
    && s'.rids == s.rids[m.i := if m.resident then s.rids[m.i] else s.claims]
    && s'.owners == s.owners[m.i := m.n]
    && s'.claims == (if m.resident then s.claims else s.claims + 1)
    && (if m.resident then
          Used(s.receiver.slots[m.i]) && s.owners[m.i] == m.n && m.before == s.receiver.slots[m.i]
        else
          !m.before.decoded && !m.before.nackSent
          && forall j :: 0 <= j < ASSEMBLER_CACHE_SIZE && Used(s.receiver.slots[j]) ==> s.owners[j] != m.n)
    && s'.log == s.log + m.lost + m.nacks + m.delivered
    && Recorded(cfg, s.sent, m.lost, Loss, Evicts(s, m), s.rids[m.i], s.owners[m.i])
    && Recorded(cfg, s.sent, m.nacks, Request, m.after.nackSent && !m.before.nackSent, s'.rids[m.i], m.n)
    && Recorded(cfg, s.sent, m.delivered, Object, m.after.decoded && !m.before.decoded, s'.rids[m.i], m.n)
    && forall e :: e in m.nacks ==> e.mask == m.after.mask
  }

  predicate Evicts(s: System, m: Move)
    requires m.i < |s.receiver.slots|
  {
    !m.resident && Pending(s.receiver.slots[m.i])
  }

  /** One record of this kind, correct for object n, if and only if `present`. */
  ghost predicate Recorded(cfg: Config, sent: seq<Sent>, recs: seq<Record>, kind: Kind, present: bool,
                           rid: nat, n: nat) {
    && |recs| == (if present then 1 else 0)
    && forall e :: e in recs ==>
         && e.rid == rid && e.sentIndex == n && Is(kind, e.output)
         && (n < |sent| ==> OutputOk(cfg, sent[n], e))
  }

  lemma MovedSlots(cfg: Config, s: System, s': System, m: Move)
    requires SlotsOk(cfg, s) && Moved(cfg, s, s', m)
    ensures SlotsOk(cfg, s')
  {}

  lemma MovedLog(cfg: Config, s: System, s': System, m: Move)
    requires SlotsOk(cfg, s) && LogOk(cfg, s) && Moved(cfg, s, s', m)
    ensures LogOk(cfg, s')
  {
    forall k | 0 <= k < |s'.log|
      ensures s'.log[k].rid < s'.claims && s'.log[k].sentIndex < |s'.sent|
      ensures OutputOk(cfg, s'.sent[s'.log[k].sentIndex], s'.log[k])
    {
      var e := s'.log[k];
      if k < |s.log| {
        assert e == s.log[k];
      } else {
        assert e in m.lost || e in m.nacks || e in m.delivered;
      }
    }
  }

  lemma {:induction false} TallyConcat(a: seq<Record>, b: seq<Record>, r: nat, kind: Kind)
    ensures Tally(a + b, r, kind) == Tally(a, r, kind) + Tally(b, r, kind)
  {
    if b == [] {
      assert a + b == a;
    } else {
      assert (a + b)[..|a + b| - 1] == a + b[..|b| - 1];
      TallyConcat(a, b[..|b| - 1], r, kind);
    }
  }

  lemma {:induction false} TallyFresh(log: seq<Record>, r: nat, kind: Kind)
    requires forall k :: 0 <= k < |log| ==> log[k].rid != r
    ensures Tally(log, r, kind) == 0
  {
    if log != [] {
      TallyFresh(log[..|log| - 1], r, kind);
    }
  }

  /** The contribution of a record list of the shape `Recorded`. */
  lemma TallyRecorded(cfg: Config, sent: seq<Sent>, recs: seq<Record>, of: Kind, present: bool, rid: nat, n: nat,
                      r: nat, kind: Kind)
    requires Recorded(cfg, sent, recs, of, present, rid, n)
    ensures Tally(recs, r, kind) == if present && r == rid && kind == of then 1 else 0
  {
    if present {
      var e := recs[0];
      assert recs == [e];
      assert e in recs;
      assert Tally([], r, kind) == 0;
    }
  }

  lemma MovedTally(cfg: Config, s: System, s': System, m: Move, r: nat, kind: Kind)
    requires SlotsOk(cfg, s) && Moved(cfg, s, s', m)
    ensures Tally(s'.log, r, kind) == Tally(s.log, r, kind)
              + (if Evicts(s, m) && r == s.rids[m.i] && kind == Loss then 1 else 0)
              + (if m.after.nackSent && !m.before.nackSent && r == s'.rids[m.i] && kind == Request then 1 else 0)
              + (if m.after.decoded && !m.before.decoded && r == s'.rids[m.i] && kind == Object then 1 else 0)
  {
    TallyConcat(s.log + m.lost + m.nacks, m.delivered, r, kind);
    TallyConcat(s.log + m.lost, m.nacks, r, kind);
    TallyConcat(s.log, m.lost, r, kind);
    TallyRecorded(cfg, s.sent, m.lost, Loss, Evicts(s, m), s.rids[m.i], s.owners[m.i], r, kind);
    TallyRecorded(cfg, s.sent, m.nacks, Request, m.after.nackSent && !m.before.nackSent, s'.rids[m.i], m.n, r, kind);
    TallyRecorded(cfg, s.sent, m.delivered, Object, m.after.decoded && !m.before.decoded, s'.rids[m.i], m.n, r, kind);
  }

  /** Which residencies are pending after a move. */
  lemma MovedPending(cfg: Config, s: System, s': System, m: Move, r: nat)
    requires SlotsOk(cfg, s) && SlotsOk(cfg, s') && Moved(cfg, s, s', m)
    ensures r == s'.rids[m.i] ==> (PendingResidency(s', r) <==> !m.after.decoded)
    ensures r == s.rids[m.i] && !m.resident && Used(s.receiver.slots[m.i]) ==> !PendingResidency(s', r)
    ensures r != s'.rids[m.i] && (r != s.rids[m.i] || !Used(s.receiver.slots[m.i])) ==>
              (PendingResidency(s', r) <==> PendingResidency(s, r))
    ensures r == s.rids[m.i] && Used(s.receiver.slots[m.i]) ==>
              (PendingResidency(s, r) <==> Pending(s.receiver.slots[m.i]))
  {
    var others := forall j :: 0 <= j < ASSEMBLER_CACHE_SIZE && j != m.i ==>
      s'.rids[j] == s.rids[j] && s'.receiver.slots[j] == s.receiver.slots[j];
    assert others;
    assert s'.receiver.slots[m.i] == m.after;
    if j :| 0 <= j < ASSEMBLER_CACHE_SIZE && Pending(s.receiver.slots[j]) && s.rids[j] == r && j != m.i {
      assert Pending(s'.receiver.slots[j]) && s'.rids[j] == r;
    }
  }

  lemma MovedResidency(cfg: Config, s: System, s': System, m: Move, r: nat)
    requires SlotsOk(cfg, s) && LogOk(cfg, s) && OutcomesOk(s) && SlotsOk(cfg, s') && Moved(cfg, s, s', m)
    requires r < s'.claims
    ensures Tally(s'.log, r, Object) + Tally(s'.log, r, Loss) == if PendingResidency(s', r) then 0 else 1
    ensures Tally(s'.log, r, Request) <= 1
  {
    if r == s.claims {
      TallyFresh(s.log, r, Object);
      TallyFresh(s.log, r, Loss);
      TallyFresh(s.log, r, Request);
    }
    MovedTally(cfg, s, s', m, r, Object);
    MovedTally(cfg, s, s', m, r, Loss);
    MovedTally(cfg, s, s', m, r, Request);
    MovedPending(cfg, s, s', m, r);
  }

  lemma MovedOutcomes(cfg: Config, s: System, s': System, m: Move)
    requires SlotsOk(cfg, s) && LogOk(cfg, s) && OutcomesOk(s) && SlotsOk(cfg, s') && Moved(cfg, s, s', m)
    ensures OutcomesOk(s')
  {
    forall r | 0 <= r < s'.claims
      ensures Tally(s'.log, r, Object) + Tally(s'.log, r, Loss) == if PendingResidency(s', r) then 0 else 1
      ensures Tally(s'.log, r, Request) <= 1
    {
      MovedResidency(cfg, s, s', m, r);
    }
    forall j | 0 <= j < ASSEMBLER_CACHE_SIZE && Used(s'.receiver.slots[j])
      ensures Tally(s'.log, s'.rids[j], Loss) == 0
      ensures Tally(s'.log, s'.rids[j], Request) == if s'.receiver.slots[j].nackSent then 1 else 0
    {
      MovedCurrent(cfg, s, s', m, j);
    }
  }

  lemma MovedCurrent(cfg: Config, s: System, s': System, m: Move, j: nat)
    requires SlotsOk(cfg, s) && LogOk(cfg, s) && OutcomesOk(s) && SlotsOk(cfg, s') && Moved(cfg, s, s', m)
    requires j < ASSEMBLER_CACHE_SIZE && Used(s'.receiver.slots[j])
    ensures Tally(s'.log, s'.rids[j], Loss) == 0
    ensures Tally(s'.log, s'.rids[j], Request) == if s'.receiver.slots[j].nackSent then 1 else 0
  {
    TallyFresh(s.log, s.claims, Loss);
    TallyFresh(s.log, s.claims, Request);
    MovedTally(cfg, s, s', m, s'.rids[j], Loss);
    MovedTally(cfg, s, s', m, s'.rids[j], Request);
    assert j != m.i ==> s'.rids[j] == s.rids[j] && s'.receiver.slots[j] == s.receiver.slots[j];
  }

  lemma TaggedParts(log: seq<Record>, a: seq<Output>, b: seq<Output>, c: seq<Output>, ended: Stamp, now: Stamp)
    ensures log + Tagged(a + (b + c), ended, now) ==
            log + Tagged(a, ended, now) + Tagged(b, ended, now) + Tagged(c, ended, now)
  {}

  /** A pending slot that is taken over reports its own object as lost, and no other slot reports anything. */
  lemma LostRecorded(cfg: Config, s: System, i: nat, now: Stamp)
    requires Sane(cfg) && SentOk(cfg, s.sent) && SlotsOk(cfg, s) && i < ASSEMBLER_CACHE_SIZE
    ensures Recorded(cfg, s.sent,
                     Tagged(Evicted(cfg.receiverSubs, s.receiver.slots[i]),
                            Stamp(s.rids[i], s.owners[i], s.receiver.slots[i].mask), now),
                     Loss, Pending(s.receiver.slots[i]), s.rids[i], s.owners[i])
  {
    var slot := s.receiver.slots[i];
    if Pending(slot) {
      var x := s.sent[s.owners[i]];
      assert Holding(cfg.code, x, slot);
      assert FindByTrack(cfg.senderSubs, x.item.track) == Some(slot.alias);
      assert FindByAlias(cfg.receiverSubs, slot.alias).Some?;
    }
  }

  lemma NackRecorded(cfg: Config, sent: seq<Sent>, n: nat, after: Slot, sends: bool, ended: Stamp, rid: nat)
    requires n < |sent| && Holding(cfg.code, sent[n], after)
    requires sends ==> NackDue(sent[n], after.count) && after.count == NackThreshold(sent[n].l.k)
    ensures Recorded(cfg, sent,
                     Tagged(if sends then [NackOutput(sent[n], after)] else [], ended, Stamp(rid, n, after.mask)),
                     Request, sends, rid, n)
  {
    CountPrefix(after.mask, after.total);
  }

  lemma DeliveredRecorded(cfg: Config, sent: seq<Sent>, n: nat, track: TrackId, delivers: bool,
                          ended: Stamp, now: Stamp)
    requires n < |sent| && SameTrack(track, sent[n].item.track) && now.sentIndex == n
    ensures Recorded(cfg, sent, Tagged(if delivers then [DeliveredOutput(sent[n], track)] else [], ended, now),
                     Object, delivers, now.rid, n)
  {}

  /** How the system changes when slot i absorbs a symbol of object n with result `a`. */
  ghost predicate Absorbs(cfg: Config, s: System, s': System, i: nat, n: nat, resident: bool, a: Absorbed)
    requires SlotsOk(cfg, s)
  {
    && i < ASSEMBLER_CACHE_SIZE && n < |s.sent|
    && s'.sent == s.sent && s'.net == s.net && s'.ring == s.ring && s'.kept == s.kept
    && s'.receiver.slots == s.receiver.slots[i := a.slot] && s'.receiver.next < ASSEMBLER_CACHE_SIZE
    && s'.claims == (if resident then s.claims else s.claims + 1)
    && s'.rids == s.rids[i := if resident then s.rids[i] else s.claims]
    && s'.owners == s.owners[i := n]
    && s'.log == s.log + Tagged((if resident then [] else Evicted(cfg.receiverSubs, s.receiver.slots[i])) + a.outputs,
                                Stamp(s.rids[i], s.owners[i], s.receiver.slots[i].mask),
                                Stamp(s'.rids[i], n, a.slot.mask))
  }

  lemma ArrivedIsNoted(cfg: Config, s: System, raw: Block, h: Header, track: TrackId, n: nat)
    requires Safe(cfg, s, Arrive(raw)) && Admit(cfg.receiverSubs, raw) == Some((h, track))
    requires n == if Resident(s.receiver, h) then s.owners[Locate(s.receiver, h)] else SentFor(s.sent, h)
    ensures Arrived(cfg, s, raw) == Noted(s, Receive(cfg.code, cfg.receiverSubs, s.receiver, raw),
                                          Locate(s.receiver, h), Resident(s.receiver, h), n)
  {}

  lemma NotedAbsorbs(cfg: Config, s: System, reaction: Reaction, i: nat, resident: bool, n: nat, a: Absorbed)
    requires SlotsOk(cfg, s) && ReceiverShape(reaction.receiver) && i < ASSEMBLER_CACHE_SIZE && n < |s.sent|
    requires reaction.receiver.slots == s.receiver.slots[i := a.slot]
    requires reaction.outputs == (if resident then [] else Evicted(cfg.receiverSubs, s.receiver.slots[i])) + a.outputs
    ensures Absorbs(cfg, s, Noted(s, reaction, i, resident, n), i, n, resident, a)
  {}

  lemma ArrivedAbsorbs(cfg: Config, s: System, raw: Block, h: Header, track: TrackId, n: nat)
    requires SlotsOk(cfg, s) && Safe(cfg, s, Arrive(raw))
    requires Admit(cfg.receiverSubs, raw) == Some((h, track)) && Carries(cfg, s, raw, h, track, n)
    requires Resident(s.receiver, h) ==> s.owners[Locate(s.receiver, h)] == n
    ensures Absorbs(cfg, s, Arrived(cfg, s, raw), Locate(s.receiver, h), n, Resident(s.receiver, h),
                    Absorb(cfg.code, track, Target(s.receiver, h), h,
                           Symbols(cfg.code, s.sent[n].item, s.sent[n].l)[h.index]))
  {
    var a := Absorb(cfg.code, track, Target(s.receiver, h), h, Symbols(cfg.code, s.sent[n].item, s.sent[n].l)[h.index]);
    ReceivedParts(cfg.code, cfg.receiverSubs, s.receiver, raw, h, track, a);
    ArrivedIsNoted(cfg, s, raw, h, track, n);
    NotedAbsorbs(cfg, s, Receive(cfg.code, cfg.receiverSubs, s.receiver, raw), Locate(s.receiver, h),
                 Resident(s.receiver, h), n, a);
  }

  lemma AbsorbRecords(cfg: Config, s: System, s': System, i: nat, n: nat, resident: bool, track: TrackId,
                      before: Slot, index: nat, a: Absorbed)
    returns (lost: seq<Record>, nacks: seq<Record>, dels: seq<Record>)
    requires Sane(cfg) && SentOk(cfg, s.sent) && SlotsOk(cfg, s) && Absorbs(cfg, s, s', i, n, resident, a)
    requires SameTrack(track, s.sent[n].item.track) && Holding(cfg.code, s.sent[n], a.slot)
    requires index < |before.mask| && Steps(s.sent[n], track, before, index, a)
    ensures s'.log == s.log + lost + nacks + dels
    ensures Recorded(cfg, s.sent, lost, Loss, !resident && Pending(s.receiver.slots[i]), s.rids[i], s.owners[i])
    ensures Recorded(cfg, s.sent, nacks, Request, a.slot.nackSent && !before.nackSent, s'.rids[i], n)
    ensures forall e :: e in nacks ==> e.mask == a.slot.mask
    ensures Recorded(cfg, s.sent, dels, Object, a.slot.decoded && !before.decoded, s'.rids[i], n)
  {
    var x := s.sent[n];
    var ended := Stamp(s.rids[i], s.owners[i], s.receiver.slots[i].mask);
    var now := Stamp(s'.rids[i], n, a.slot.mask);
    var evicted := if resident then [] else Evicted(cfg.receiverSubs, s.receiver.slots[i]);
    var sends, delivers := a.slot.nackSent && !before.nackSent, a.slot.decoded && !before.decoded;
    var requests := if sends then [NackOutput(x, a.slot)] else [];
    var objects := if delivers then [DeliveredOutput(x, track)] else [];
    TaggedParts(s.log, evicted, requests, objects, ended, now);
    LostRecorded(cfg, s, i, now);
    NackRecorded(cfg, s.sent, n, a.slot, sends, ended, now.rid);
    DeliveredRecorded(cfg, s.sent, n, track, delivers, ended, now);
    lost, nacks, dels := Tagged(evicted, ended, now), Tagged(requests, ended, now), Tagged(objects, ended, now);
  }

  lemma AbsorbsMoved(cfg: Config, s: System, s': System, i: nat, n: nat, resident: bool, track: TrackId,
                     before: Slot, index: nat, a: Absorbed) returns (m: Move)
    requires Sane(cfg) && SentOk(cfg, s.sent) && SlotsOk(cfg, s) && Absorbs(cfg, s, s', i, n, resident, a)
    requires SameTrack(track, s.sent[n].item.track)
    requires Holding(cfg.code, s.sent[n], a.slot)
    requires index < |before.mask| && Steps(s.sent[n], track, before, index, a) && 0 < before.total <= MAX_TOTAL_SYMBOLS
    requires if resident then Used(s.receiver.slots[i]) && s.owners[i] == n && before == s.receiver.slots[i]
             else !before.decoded && !before.nackSent
                  && forall j :: 0 <= j < ASSEMBLER_CACHE_SIZE && Used(s.receiver.slots[j]) ==> s.owners[j] != n
    ensures Moved(cfg, s, s', m)
    ensures m.i == i && m.n == n && m.resident == resident && m.before == before && m.after == a.slot
  {
    var lost, nacks, dels := AbsorbRecords(cfg, s, s', i, n, resident, track, before, index, a);
    m := Move(i, n, resident, before, a.slot, lost, nacks, dels);
  }

  lemma ArriveMoved(cfg: Config, s: System, raw: Block, h: Header, track: TrackId, n: nat) returns (m: Move)
    requires Sane(cfg) && SentOk(cfg, s.sent) && SlotsOk(cfg, s) && Safe(cfg, s, Arrive(raw))
    requires Admit(cfg.receiverSubs, raw) == Some((h, track)) && Carries(cfg, s, raw, h, track, n)
    ensures Moved(cfg, s, Arrived(cfg, s, raw), m)
    ensures m.i == Locate(s.receiver, h) && m.n == n
    ensures m.before == Target(s.receiver, h) && m.resident == Resident(s.receiver, h)
    ensures h.index < |m.before.mask|
    ensures !m.before.decoded ==> m.after.mask == m.before.mask[h.index := true]
    ensures m.before.decoded ==> m.after == m.before
  {
    var x, before := s.sent[n], Target(s.receiver, h);
    TargetHolds(cfg, s, raw, h, track, n);
    ArrivedAbsorbs(cfg, s, raw, h, track, n);
    AbsorbHolds(cfg.code, x, track, before, h);
    var a := Absorb(cfg.code, track, before, h, Symbols(cfg.code, x.item, x.l)[h.index]);
    m := AbsorbsMoved(cfg, s, Arrived(cfg, s, raw), Locate(s.receiver, h), n, Resident(s.receiver, h),
                      track, before, h.index, a);
  }

  lemma ArriveKeeps(cfg: Config, s: System, raw: Block)
    requires Sane(cfg) && Inv(cfg, s) && raw in s.net
    ensures Safe(cfg, s, Arrive(raw)) && Inv(cfg, Arrived(cfg, s, raw))
  {
    ArriveSafe(cfg, s, raw);
    var admitted := Admit(cfg.receiverSubs, raw);
    var s' := Arrived(cfg, s, raw);
    if admitted.None? {
      assert s' == s;
    } else {
      var n := AdmittedCarries(cfg, s, raw);
      var m := ArriveMoved(cfg, s, raw, admitted.value.0, admitted.value.1, n);
      MovedSlots(cfg, s, s', m);
      MovedLog(cfg, s, s', m);
      MovedOutcomes(cfg, s, s', m);
    }
  }

  /** Every datagram that can arrive is handled within the bounds of the slot it goes to. */
  lemma ArriveSafe(cfg: Config, s: System, raw: Block)
    requires Sane(cfg) && Inv(cfg, s) && raw in s.net
    ensures Safe(cfg, s, Arrive(raw))
  {
    var admitted := Admit(cfg.receiverSubs, raw);
    if admitted.Some? {
      var n := AdmittedCarries(cfg, s, raw);
      TargetHolds(cfg, s, raw, admitted.value.0, admitted.value.1, n);
    }
  }

  lemma StepKeeps(cfg: Config, s: System, a: Action)
    requires Sane(cfg) && Inv(cfg, s) && Enabled(cfg, s, a)
    ensures Safe(cfg, s, a) && Inv(cfg, Step(cfg, s, a))
  {
    match a
    case Publish(item, l, paths, times) =>
      PublishSafe(cfg, s, item, l, paths, times);
      PublishKeeps(cfg, s, item, l, paths, times);
    case Stash(item, l) =>
      StashKeeps(cfg, s, item, l);
    case Answer(alias, groupId, objectId, missing, times) =>
      AnswerKeeps(cfg, s, alias, groupId, objectId, missing, times);
    case Arrive(raw) =>
      ArriveKeeps(cfg, s, raw);
  }

  /** The invariant holds in every state of every run. */
  lemma {:induction false} RunKeeps(cfg: Config, run: Run, k: nat)
    requires Sane(cfg) && IsRun(cfg, run) && k < |run.states|
    ensures Inv(cfg, run.states[k])
  {
    if k == 0 {
      RunStarts(cfg, run, k);
    } else {
      RunKeeps(cfg, run, k - 1);
      RunStepKeeps(cfg, run, k - 1, k);
    }
  }

  lemma RunStarts(cfg: Config, run: Run, k: nat)
    requires run.states != [] && run.states[0] == Init() && k == 0
    ensures Inv(cfg, run.states[k])
  {
    InitInv(cfg);
  }

  lemma RunStepKeeps(cfg: Config, run: Run, k: nat, k': nat)
    requires Sane(cfg) && IsRun(cfg, run) && k < |run.actions| && k' == k + 1 && Inv(cfg, run.states[k])
    ensures Inv(cfg, run.states[k'])
  {
    assert StepAt(cfg, run, k);
    StepKeeps(cfg, run.states[k], run.actions[k]);
  }

  // ----- A step as a move -----

  /** What everything but an admitted datagram leaves alone. */
  ghost predicate Quiet(s: System, s': System) {
    && s'.receiver == s.receiver && s'.claims == s.claims && s'.rids == s.rids && s'.owners == s.owners
    && s'.log == s.log && s.sent <= s'.sent
  }

  /** More about a move: symbol q is marked, slots are claimed in turn, and the object is not under the telemetry
      alias. */
  ghost predicate Details(s: System, s': System, m: Move, q: nat)
    requires m.n < |s.sent|
  {
    && q < |m.before.mask|
    && (!m.before.decoded ==> m.after.mask == m.before.mask[q := true])
    && (m.before.decoded ==> m.after == m.before)
    && (if m.resident then s'.receiver.next == s.receiver.next
        else m.i == s.receiver.next && s'.receiver.next == (s.receiver.next + 1) % ASSEMBLER_CACHE_SIZE)
    && s.sent[m.n].alias != TRACK_TELEMETRY
  }

  /** What an admitted datagram does to the turn counter. */
  lemma ArrivedNext(cfg: Config, s: System, raw: Block, h: Header, track: TrackId)
    requires Safe(cfg, s, Arrive(raw)) && Admit(cfg.receiverSubs, raw) == Some((h, track))
    ensures var next := Arrived(cfg, s, raw).receiver.next;
            if Resident(s.receiver, h) then next == s.receiver.next
            else next == (s.receiver.next + 1) % ASSEMBLER_CACHE_SIZE && Locate(s.receiver, h) == s.receiver.next
  {
    ReceivedNext(cfg.code, cfg.receiverSubs, s.receiver, raw, h, track);
    assert Arrived(cfg, s, raw).receiver == Receive(cfg.code, cfg.receiverSubs, s.receiver, raw).receiver;
  }

  lemma AdmittedAlias(subs: seq<Entry>, raw: Block)
    requires Admit(subs, raw).Some?
    ensures Admit(subs, raw).value.0.alias != TRACK_TELEMETRY
  {}

  lemma ArriveMoves(cfg: Config, s: System, raw: Block) returns (m: Option<Move>, q: nat)
    requires Sane(cfg) && Inv(cfg, s) && raw in s.net && Safe(cfg, s, Arrive(raw))
    ensures m.None? ==> Quiet(s, Arrived(cfg, s, raw))
    ensures m.Some? ==> Moved(cfg, s, Arrived(cfg, s, raw), m.value) && Details(s, Arrived(cfg, s, raw), m.value, q)
  {
    m, q := None, 0;
    if Admit(cfg.receiverSubs, raw).Some? {
      var (h, track) := Admit(cfg.receiverSubs, raw).value;
      var n := AdmittedCarries(cfg, s, raw);
      var move := ArriveMoved(cfg, s, raw, h, track, n);
      ArrivedNext(cfg, s, raw, h, track);
      AdmittedAlias(cfg.receiverSubs, raw);
      m, q := Some(move), h.index;
    }
  }

  lemma QuietStep(cfg: Config, s: System, a: Action, s': System)
    requires StepsTo(cfg, s, a, s') && !a.Arrive?
    ensures Quiet(s, s')
  {}

  lemma StepMoves(cfg: Config, s: System, a: Action, s': System) returns (m: Option<Move>, q: nat)
    requires Sane(cfg) && Inv(cfg, s) && StepsTo(cfg, s, a, s')
    ensures m.None? ==> Quiet(s, s')
    ensures m.Some? ==> Moved(cfg, s, s', m.value) && Details(s, s', m.value, q)
  {
    if a.Arrive? {
      m, q := ArriveMoves(cfg, s, a.raw);
    } else {
      m, q := None, 0;
      QuietStep(cfg, s, a, s');
    }
  }

  lemma RunSlots(cfg: Config, run: Run, t: nat)
    requires Sane(cfg) && IsRun(cfg, run) && t < |run.states|
    ensures SlotsOk(cfg, run.states[t])
  {
    RunKeeps(cfg, run, t);
  }

  /** Every step of a run is quiet or a move. */
  lemma RunMoves(cfg: Config, run: Run, t: nat) returns (m: Option<Move>, q: nat)
    requires Sane(cfg) && IsRun(cfg, run) && t < |run.actions|
    ensures SlotsOk(cfg, run.states[t])
    ensures m.None? ==> Quiet(run.states[t], run.states[t + 1])
    ensures m.Some? ==> Moved(cfg, run.states[t], run.states[t + 1], m.value)
                        && Details(run.states[t], run.states[t + 1], m.value, q)
  {
    RunKeeps(cfg, run, t);
    assert StepAt(cfg, run, t);
    m, q := StepMoves(cfg, run.states[t], run.actions[t], run.states[t + 1]);
  }
}
