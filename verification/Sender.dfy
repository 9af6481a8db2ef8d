/** The publishing side of the datagram path: splitting an object into zero-padded symbols, adding parity,
    remembering sent objects, and rebuilding symbols when a NACK arrives. */
module Sender {
  import opened Bytes
  import opened ErasureCode
  import opened Tracks
  import opened Wire
  import Codec

  const SENT_CACHE_SIZE: nat := 32

  /** The buffer a retransmitted datagram is built in. */
  const PACKET_BUFFER: nat := 2048

  /** moq_object_t. */
  datatype Item = Item(
    track: TrackId, groupId: nat, objectId: nat, data: Block, keyframe: bool, priority: byte)

  /** How an object is cut: k data symbols and p parity symbols of t bytes each. */
  datatype Layout = Layout(k: nat, p: nat, t: nat)

  /** sent_object_cache_t; the identifiers and counts are truncated by the fields that hold them. */
  datatype Cached = Cached(
    track: TrackId, groupId: nat, objectId: nat, data: Block, priority: byte, keyframe: bool,
    total: nat, dataSymbols: nat, symbolSize: nat)

  // ----- Splitting -----

  function DataSymbols(size: nat, t: nat): (k: nat)
    requires t > 0
    ensures 1 <= k && size <= k * t
    ensures k > 1 ==> (k - 1) * t < size
  {
    var k := (size + t - 1) / t;
    assert size <= k * t < size + t by { CeilingCovers(size, t); }
    assert (k - 1) * t == k * t - t;
    if k == 0 then 1 else k
  }

  lemma CeilingCovers(size: nat, t: nat)
    requires t > 0
    ensures size <= (size + t - 1) / t * t < size + t
  {
    var n := size + t - 1;
    assert n == n / t * t + n % t;
  }

  /** The t bytes from this offset on, zero padded. */
  function SymbolFrom(data: Block, offset: nat, t: nat): (b: Block)
    ensures |b| == t
  {
    seq(t, c requires 0 <= c < t => if offset + c < |data| then data[offset + c] else 0)
  }

  function SymbolBlock(data: Block, i: nat, t: nat): (b: Block)
    ensures |b| == t
  {
    SymbolFrom(data, i * t, t)
  }

  /** Byte j of symbol i is byte i * t + j of the object, or zero behind its end. */
  lemma SymbolByte(data: Block, i: nat, t: nat, j: nat)
    requires j < t
    ensures SymbolBlock(data, i, t)[j] == if i * t + j < |data| then data[i * t + j] else 0
  {}

  function Split(data: Block, k: nat, t: nat): (r: seq<Block>)
    ensures Shaped(r, k, t)
  {
    seq(k, i requires 0 <= i < k => SymbolBlock(data, i, t))
  }

  lemma CellInRange(j: nat, size: nat, k: nat, t: nat)
    requires j < size <= k * t && t > 0
    ensures j / t < k && j / t * t + j % t == j
  {
    if k <= j / t {
      MulMonotone(k, j / t, t);
    }
  }

  lemma MulMonotone(a: nat, b: nat, t: nat)
    requires a <= b
    ensures a * t <= b * t
  {}

  /** The receiver's reassembly: the first size bytes of the blocks laid end to end, t bytes from each. */
  function Assemble(blocks: seq<Block>, k: nat, t: nat, size: nat): (r: Block)
    requires t > 0 && k <= |blocks| && size <= k * t
    requires forall i :: 0 <= i < k ==> |blocks[i]| >= t
    ensures |r| == size
  {
    seq(size, j requires 0 <= j < size => CellInRange(j, size, k, t); blocks[j / t][j % t])
  }

  /** Reassembly undoes splitting and forgets the padding. */
  lemma AssembleSplit(data: Block, blocks: seq<Block>, k: nat, t: nat)
    requires t > 0 && k <= |blocks| && |data| <= k * t
    requires forall i :: 0 <= i < k ==> |blocks[i]| >= t && blocks[i][..t] == Split(data, k, t)[i]
    ensures Assemble(blocks, k, t, |data|) == data
  {
    var whole := Assemble(blocks, k, t, |data|);
    forall j | 0 <= j < |data|
      ensures whole[j] == data[j]
    {
      CellInRange(j, |data|, k, t);
      assert blocks[j / t][..t][j % t] == SymbolBlock(data, j / t, t)[j % t];
    }
  }

  // ----- Choosing the code -----

  function SenderKind(track: TrackId, k: nat, p: nat): (r: FecKind)
  {
    var wanted := if FecEnabled(track.flags) && k > 1 && track.kind == TRACK_DATA then RaptorQ else ReedSolomon;
    if wanted == RaptorQ && k + p <= 255 then ReedSolomon else wanted
  }

  function RetransmitKind(total: nat): (r: FecKind) { if total > 255 then RaptorQ else ReedSolomon }

  function ReceiverKind(kind: byte, total: nat): (r: FecKind)
  {
    if kind == TRACK_DATA && total > 255 then RaptorQ else ReedSolomon
  }

  /** The parity rule of transport_publish: none without FEC or for one symbol, otherwise at least one. */
  predicate LaidOut(item: Item, l: Layout) {
    && l.t > 0
    && l.k == DataSymbols(|item.data|, l.t)
    && if FecEnabled(item.track.flags) && l.k > 1 then l.p >= 1 else l.p == 0
  }

  /** Whenever parity is sent, all three ends of the protocol pick the same code: RaptorQ exactly for DATA objects of
      more than 255 symbols. */
  lemma KindsAgree(item: Item, l: Layout)
    requires LaidOut(item, l) && l.p > 0
    ensures SenderKind(item.track, l.k, l.p) == RaptorQ <==> item.track.kind == TRACK_DATA && l.k + l.p > 255
    ensures SenderKind(item.track, l.k, l.p) == ReceiverKind(item.track.kind, l.k + l.p)
    ensures item.track.kind == TRACK_DATA ==>
              SenderKind(item.track, l.k, l.p) == RetransmitKind(l.k + l.p)
  {}

  function Params(item: Item, l: Layout): (f: FecParams)
  {
    FecParams(SenderKind(item.track, l.k, l.p), l.k, l.p, l.t)
  }

  /** All symbols of an object: the data blocks, then the parity blocks. */
  function Symbols(code: Code, item: Item, l: Layout): (r: seq<Block>)
  {
    Codeword(code, Params(item, l), Split(item.data, l.k, l.t))
  }

  lemma SymbolsShape(code: Code, item: Item, l: Layout)
    requires Lawful(code)
    ensures Shaped(Symbols(code, item, l), l.k + l.p, l.t)
  {
    CodewordShape(code, Params(item, l), Split(item.data, l.k, l.t));
  }

  // ----- Publishing -----

  function MakeHeader(item: Item, alias: byte, l: Layout, s: nat, path: byte, time: u64): (h: Header)
  {
    Header(alias, if item.keyframe then 1 else 0, item.priority, U32(item.groupId), U32(item.objectId),
           U16(s), U16(l.k + l.p), U16(l.k), U16(l.t), U32(|item.data|),
           path, time)
  }

  function SymbolDatagram(code: Code, item: Item, alias: byte, l: Layout, s: nat, path: byte, time: u64): (r: Block)
    requires s < |Symbols(code, item, l)|
  {
    HeaderBytes(MakeHeader(item, alias, l, s, path, time)) + Symbols(code, item, l)[s]
  }

  /** One datagram per symbol; path and send time are stamped per symbol. */
  function PublishDatagrams(code: Code, item: Item, alias: byte, l: Layout, paths: seq<byte>, times: seq<u64>)
    : (r: seq<Block>)
    requires l.k + l.p == |Symbols(code, item, l)| == |paths| == |times|
    ensures |r| == l.k + l.p
  {
    seq(l.k + l.p, s requires 0 <= s < l.k + l.p => SymbolDatagram(code, item, alias, l, s, paths[s], times[s]))
  }

  /** Each datagram carries the path and the time given for its symbol, its number, and the symbol itself. */
  lemma StampedAsGiven(code: Code, item: Item, alias: byte, l: Layout, paths: seq<byte>, times: seq<u64>, s: nat)
    requires s < l.k + l.p == |Symbols(code, item, l)| == |paths| == |times|
    ensures var raw := PublishDatagrams(code, item, alias, l, paths, times)[s];
            && |raw| >= HEADER_SIZE && raw[HEADER_SIZE..] == Symbols(code, item, l)[s]
            && ParseHeader(raw).pathId == paths[s] && ParseHeader(raw).sendTime == times[s]
            && ParseHeader(raw).index == U16(s)
  {
    HeaderRoundTrip(MakeHeader(item, alias, l, s, paths[s], times[s]), Symbols(code, item, l)[s]);
  }

  function Cache(item: Item, l: Layout): (c: Cached)
  {
    Cached(item.track, U32(item.groupId), U32(item.objectId), item.data, item.priority, item.keyframe,
           U16(l.k + l.p), U16(l.k), U16(l.t))
  }

  // ----- Retransmission -----

  predicate Matches(c: Option<Cached>, track: TrackId, groupId: nat, objectId: nat) {
    c.Some? && SameTrack(c.value.track, track) && c.value.groupId == groupId && c.value.objectId == objectId
  }

  function IndexOfCached(ring: seq<Option<Cached>>, track: TrackId, groupId: nat, objectId: nat): (i: nat)
    ensures i <= |ring| && (i < |ring| ==> Matches(ring[i], track, groupId, objectId))
    ensures forall j :: 0 <= j < i ==> !Matches(ring[j], track, groupId, objectId)
  {
    if ring == [] then 0
    else if Matches(ring[0], track, groupId, objectId) then 0
    else 1 + IndexOfCached(ring[1..], track, groupId, objectId)
  }

  function RepairParams(c: Cached): (f: FecParams)
    requires c.dataSymbols <= c.total
  {
    FecParams(RetransmitKind(c.total), c.dataSymbols, c.total - c.dataSymbols, c.symbolSize)
  }

  function RepairSymbols(code: Code, c: Cached): (r: seq<Block>)
    requires c.dataSymbols <= c.total
  {
    Codeword(code, RepairParams(c), Split(c.data, c.dataSymbols, c.symbolSize))
  }

  function RepairHeader(c: Cached, alias: byte, s: nat, time: u64): (h: Header)
  {
    Header(alias, if c.keyframe then 1 else 0, c.priority, U32(c.groupId), U32(c.objectId),
           U16(s), U16(c.total), U16(c.dataSymbols), U16(c.symbolSize), U32(|c.data|),
           0, time)
  }

  /** Answers each requested index below the total, in the order of the request. */
  function Answers(code: Code, c: Cached, alias: byte, missing: seq<nat>, times: seq<u64>): (r: seq<Block>)
    requires c.dataSymbols <= c.total == |RepairSymbols(code, c)|
    requires |times| == |missing|
  {
    if missing == [] then []
    else
      var n := |missing| - 1;
      var s := missing[n];
      Answers(code, c, alias, missing[..n], times[..n]) +
      if s >= c.total then []
      else [HeaderBytes(RepairHeader(c, alias, s, times[n])) + RepairSymbols(code, c)[s]]
  }

  /** What the answering code relies on: the counts fit together, and a datagram fits its buffer. */
  predicate RingShape(code: Code, ring: seq<Option<Cached>>) {
    && |ring| == SENT_CACHE_SIZE
    && forall i :: 0 <= i < |ring| && ring[i].Some? ==>
         && ring[i].value.dataSymbols <= ring[i].value.total == |RepairSymbols(code, ring[i].value)|
         && HEADER_SIZE + ring[i].value.symbolSize <= PACKET_BUFFER
  }

  /** At most the first 256 indices of a NACK are looked at. */
  function Asked<T>(s: seq<T>): (r: seq<T>)
    ensures r <= s && (r == s <==> |s| <= Codec.MAX_NACK) && |r| <= Codec.MAX_NACK
  {
    if |s| > Codec.MAX_NACK then s[..Codec.MAX_NACK] else s
  }

  function HandleNack(code: Code, ring: seq<Option<Cached>>, subs: seq<Entry>,
                      alias: byte, groupId: nat, objectId: nat, missing: seq<nat>, times: seq<u64>): (r: seq<Block>)
    requires RingShape(code, ring) && |times| == |missing|
  {
    var track := FindByAlias(subs, alias);
    if track.None? then []
    else
      var i := IndexOfCached(ring, track.value, groupId, objectId);
      if i == |ring| then [] else Answers(code, ring[i].value, alias, Asked(missing), Asked(times))
  }

  // ----- What retransmission promises -----

  /** Object fields and layouts for which no header field is truncated and no fixed buffer overflows. */
  predicate InLimits(item: Item, l: Layout) {
    && LaidOut(item, l)
    && 1000 <= l.t <= 2016
    && l.k + l.p < 0x1_0000 && (l.p > 0 ==> l.k + l.p <= 256)
    && |item.data| < 0x1_0000_0000 && item.groupId < 0x1_0000_0000 && item.objectId < 0x1_0000_0000
  }

  lemma RepairSymbolsAgree(code: Code, item: Item, l: Layout)
    requires InLimits(item, l) && item.track.kind == TRACK_DATA
    ensures RepairSymbols(code, Cache(item, l)) == Symbols(code, item, l)
  {
    if l.p > 0 {
      KindsAgree(item, l);
    }
  }

  lemma RepairHeaderAgrees(item: Item, l: Layout, alias: byte, s: nat, time: u64)
    requires InLimits(item, l)
    ensures RepairHeader(Cache(item, l), alias, s, time) == MakeHeader(item, alias, l, s, 0, time)
  {}

  /** The datagrams first published for the requested symbols, as they would be sent on path 0 at these times. */
  function Originals(code: Code, item: Item, alias: byte, l: Layout, missing: seq<nat>, times: seq<u64>)
    : (r: seq<Block>)
    requires |times| == |missing| && |Symbols(code, item, l)| == l.k + l.p
  {
    if missing == [] then []
    else
      var n := |missing| - 1;
      Originals(code, item, alias, l, missing[..n], times[..n]) +
      if missing[n] < l.k + l.p then [SymbolDatagram(code, item, alias, l, missing[n], 0, times[n])] else []
  }

  /** Fidelity: the answer to a NACK is, bit for bit and in order, the datagrams first published for the
      requested symbols, apart from the path id (always 0) and the send time. */
  lemma {:induction false} RetransmissionFidelity(code: Code, item: Item, l: Layout, alias: byte,
                                                  missing: seq<nat>, times: seq<u64>)
    requires Lawful(code) && InLimits(item, l) && item.track.kind == TRACK_DATA
    requires |times| == |missing|
    ensures |RepairSymbols(code, Cache(item, l))| == |Symbols(code, item, l)| == l.k + l.p
    ensures Answers(code, Cache(item, l), alias, missing, times) == Originals(code, item, alias, l, missing, times)
  {
    SymbolsShape(code, item, l);
    RepairSymbolsAgree(code, item, l);
    if missing != [] {
      var n := |missing| - 1;
      var s := missing[n];
      RetransmissionFidelity(code, item, l, alias, missing[..n], times[..n]);
      if s < l.k + l.p {
        RepairHeaderAgrees(item, l, alias, s, times[n]);
      }
    }
  }

  /** Every requested symbol that exists is answered. */
  lemma {:induction false} OriginalsCover(code: Code, item: Item, alias: byte, l: Layout,
                                          missing: seq<nat>, times: seq<u64>, n: nat)
    requires |times| == |missing| && |Symbols(code, item, l)| == l.k + l.p
    requires n < |missing| && missing[n] < l.k + l.p
    ensures SymbolDatagram(code, item, alias, l, missing[n], 0, times[n])
            in Originals(code, item, alias, l, missing, times)
  {
    var last := |missing| - 1;
    if n < last {
      OriginalsCover(code, item, alias, l, missing[..last], times[..last], n);
    }
  }

  /** Nothing else is sent. */
  lemma {:induction false} OriginalsOnly(code: Code, item: Item, alias: byte, l: Layout,
                                         missing: seq<nat>, times: seq<u64>, raw: Block) returns (n: nat)
    requires |times| == |missing| && |Symbols(code, item, l)| == l.k + l.p
    requires raw in Originals(code, item, alias, l, missing, times)
    ensures n < |missing| && missing[n] < l.k + l.p
    ensures raw == SymbolDatagram(code, item, alias, l, missing[n], 0, times[n])
  {
    n := |missing| - 1;
    if raw in Originals(code, item, alias, l, missing[..n], times[..n]) {
      n := OriginalsOnly(code, item, alias, l, missing[..n], times[..n], raw);
    }
  }

  // ----- The sent-object ring -----

  datatype Ring = Ring(slots: seq<Option<Cached>>, next: nat)

  function EmptyRing(): (r: Ring) { Ring(seq(SENT_CACHE_SIZE, _ => None), 0) }

  function Remember(r: Ring, c: Cached): (r': Ring)
    requires r.next < |r.slots|
  {
    Ring(r.slots[r.next := Some(c)], (r.next + 1) % SENT_CACHE_SIZE)
  }

  /** The ring holds exactly the last min(|history|, 32) remembered objects, each at its index modulo 32. */
  ghost predicate HoldsLatest(r: Ring, history: seq<Cached>) {
    && |r.slots| == SENT_CACHE_SIZE
    && r.next == |history| % SENT_CACHE_SIZE
    && (forall i :: 0 <= i < |history| && |history| <= i + SENT_CACHE_SIZE ==>
          r.slots[i % SENT_CACHE_SIZE] == Some(history[i]))
    && (forall j :: |history| <= j < SENT_CACHE_SIZE ==> r.slots[j] == None)
  }

  lemma DistinctResidues(i: nat, n: nat)
    requires i < n < i + SENT_CACHE_SIZE
    ensures i % SENT_CACHE_SIZE != n % SENT_CACHE_SIZE
  {}

  lemma RememberHoldsLatest(r: Ring, history: seq<Cached>, c: Cached)
    requires HoldsLatest(r, history)
    ensures HoldsLatest(Remember(r, c), history + [c])
  {
    var n := |history|;
    var after, longer := Remember(r, c), history + [c];
    forall i | 0 <= i < n + 1 && n + 1 <= i + SENT_CACHE_SIZE
      ensures after.slots[i % SENT_CACHE_SIZE] == Some(longer[i])
    {
      if i < n {
        DistinctResidues(i, n);
        assert r.slots[i % SENT_CACHE_SIZE] == Some(history[i]);
      }
    }
  }

  lemma ResidueAfter(base: nat, j: nat) returns (i: nat)
    requires j < SENT_CACHE_SIZE
    ensures base <= i < base + SENT_CACHE_SIZE && i % SENT_CACHE_SIZE == j
  {
    var q, r := base / SENT_CACHE_SIZE, base % SENT_CACHE_SIZE;
    i := (if r <= j then q else q + 1) * SENT_CACHE_SIZE + j;
  }

  /** Every occupied slot is one of the latest objects. */
  lemma OccupiedIsRecent(r: Ring, history: seq<Cached>, j: nat) returns (i: nat)
    requires HoldsLatest(r, history) && j < SENT_CACHE_SIZE && r.slots[j].Some?
    ensures i < |history| && |history| <= i + SENT_CACHE_SIZE && history[i] == r.slots[j].value
    ensures i % SENT_CACHE_SIZE == j
  {
    var n := |history|;
    if n < SENT_CACHE_SIZE {
      i := j;
      assert j < n;
      assert r.slots[i % SENT_CACHE_SIZE] == Some(history[i]);
    } else {
      var base := n - SENT_CACHE_SIZE;
      i := ResidueAfter(base, j);
      assert r.slots[i % SENT_CACHE_SIZE] == Some(history[i]);
    }
  }
}
