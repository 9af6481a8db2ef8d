/** The receiving side of the datagram path: sixteen reusable assembler slots, one-shot NACKs, recovery. */
module Assembler {
  import opened Bytes
  import opened ErasureCode
  import opened Tracks
  import opened Wire
  import opened Sender

  const ASSEMBLER_CACHE_SIZE: nat := 16
  const MAX_TOTAL_SYMBOLS: nat := 16384
  const MAX_SYMBOL_SIZE: nat := 4096

  /** frame_assembler_t; |buffers| is capacity_symbols. A slot with total == 0 has never been used. */
  datatype Slot = Slot(
    alias: byte, groupId: nat, objectId: nat,
    total: nat, dataSymbols: nat, symbolSize: nat, originalSize: nat,
    count: nat, capacitySize: nat, buffers: seq<Block>, mask: seq<bool>,
    decoded: bool, priority: byte, nackSent: bool)

  datatype Receiver = Receiver(slots: seq<Slot>, next: nat)

  /** What one datagram makes the connection do: events for the application, and NACKs for the peer. */
  datatype Output =
    | Delivered(track: TrackId, groupId: nat, objectId: nat, data: Block, keyframe: bool, priority: byte)
    | Lost(track: TrackId, groupId: nat, objectId: nat)
    | Nack(alias: byte, groupId: nat, objectId: nat, missing: seq<nat>)

  function UnusedSlot(): (s: Slot) { Slot(0, 0, 0, 0, 0, 0, 0, 0, 0, [], [], false, 0, false) }

  function NewReceiver(): (r: Receiver) { Receiver(seq(ASSEMBLER_CACHE_SIZE, _ => UnusedSlot()), 0) }

  // ----- One datagram -----

  predicate AssemblesFor(slot: Slot, h: Header) {
    slot.total > 0 && slot.alias == h.alias && slot.groupId == h.groupId && slot.objectId == h.objectId
  }

  function IndexOfSlot(slots: seq<Slot>, h: Header): (i: nat)
    ensures i <= |slots| && (i < |slots| ==> AssemblesFor(slots[i], h))
    ensures forall j :: 0 <= j < i ==> !AssemblesFor(slots[j], h)
  {
    if slots == [] then 0
    else if AssemblesFor(slots[0], h) then 0
    else 1 + IndexOfSlot(slots[1..], h)
  }

  /** Takes a slot over for a new object. Buffers are kept, stale bytes included, when they are large enough. */
  function Claim(slot: Slot, h: Header): (r: Slot)
  {
    var grow := slot.buffers == [] || |slot.buffers| < h.total || slot.capacitySize < h.symbolSize;
    var size := if grow then (if h.symbolSize > 1250 then h.symbolSize else 1250) else slot.capacitySize;
    var buffers :=
      if grow then seq(if h.total > 256 then h.total else 256, _ => Zeros(size)) else slot.buffers;
    Slot(h.alias, h.groupId, h.objectId, h.total, h.dataSymbols, h.symbolSize, h.originalSize,
         0, size, buffers, seq(|buffers|, _ => false), false, h.priority, false)
  }

  /** Buffers that are there and large enough stay, with what is in them; otherwise there are new ones, all zero, at
      least 256 of at least 1250 bytes. */
  lemma ClaimAllocates(slot: Slot, h: Header)
    ensures var r := Claim(slot, h);
            if slot.buffers != [] && h.total <= |slot.buffers| && h.symbolSize <= slot.capacitySize
            then r.buffers == slot.buffers && r.capacitySize == slot.capacitySize
            else && h.total <= |r.buffers| && 256 <= |r.buffers| && (|r.buffers| == 256 || |r.buffers| == h.total)
                 && h.symbolSize <= r.capacitySize && 1250 <= r.capacitySize
                 && (r.capacitySize == 1250 || r.capacitySize == h.symbolSize)
                 && forall i :: 0 <= i < |r.buffers| ==> r.buffers[i] == Zeros(r.capacitySize)
  {}

  /** Memory shape of a slot: every buffer has the slot's capacity. */
  predicate SlotShape(slot: Slot) {
    |slot.mask| == |slot.buffers| && Shaped(slot.buffers, |slot.buffers|, slot.capacitySize)
  }

  /** What the header says stays within the slot's buffers, the object's size and the array of 256 erasure marks. It
      need not say what the slot was claimed with. */
  predicate InBounds(slot: Slot, h: Header) {
    && SlotShape(slot) && slot.total <= |slot.buffers|
    && 0 < h.symbolSize <= slot.capacitySize && h.dataSymbols <= h.total <= |slot.buffers|
    && h.originalSize <= h.dataSymbols * h.symbolSize
    && (h.dataSymbols < h.total ==> h.total <= 256)
  }

  /** memcpy of the payload over the front of the symbol's buffer, unless the symbol was already there. */
  function Store(slot: Slot, i: nat, payload: Block): (r: Slot)
    requires SlotShape(slot) && i < |slot.buffers| && |payload| <= slot.capacitySize
    ensures SlotShape(r)
  {
    if slot.mask[i] then slot
    else slot.(buffers := slot.buffers[i := payload + slot.buffers[i][|payload|..]],
               mask := slot.mask[i := true], count := slot.count + 1)
  }

  /** The first symbol of its number to arrive is written over the front of its buffer, marked and counted, and no other
      buffer or mark changes; a later one changes nothing, whatever it carries. */
  lemma StoredOnce(slot: Slot, i: nat, payload: Block, later: Block)
    requires SlotShape(slot) && i < |slot.buffers| && |payload| <= slot.capacitySize && |later| <= slot.capacitySize
    ensures var r := Store(slot, i, payload);
            && r.mask[i] && (forall j :: 0 <= j < |slot.mask| && j != i ==> r.mask[j] == slot.mask[j])
            && (forall j :: 0 <= j < |slot.buffers| && j != i ==> r.buffers[j] == slot.buffers[j])
            && (!slot.mask[i] ==> r.buffers[i][..|payload|] == payload && r.count == slot.count + 1
                                  && r.buffers[i][|payload|..] == slot.buffers[i][|payload|..])
            && (slot.mask[i] ==> r == slot)
            && Store(r, i, later) == r
  {}

  /** The indices not received, in the order of the scan. */
  function MissingIndices(mask: seq<bool>): (r: seq<nat>)
    ensures |r| == |mask| - Count(mask)
  {
    if mask == [] then []
    else
      var n := |mask| - 1;
      MissingIndices(mask[..n]) + if mask[n] then [] else [n]
  }

  predicate Ascending(s: seq<nat>) { forall i, j :: 0 <= i < j < |s| ==> s[i] < s[j] }

  lemma {:induction false} MissingExact(mask: seq<bool>)
    ensures forall x :: x in MissingIndices(mask) <==> 0 <= x < |mask| && !mask[x]
    ensures Ascending(MissingIndices(mask))
  {
    if mask != [] {
      var n := |mask| - 1;
      MissingExact(mask[..n]);
      var front := MissingIndices(mask[..n]);
      var whole := MissingIndices(mask);
      forall i, j | 0 <= i < j < |whole|
        ensures whole[i] < whole[j]
      {
        assert front[i] in front;
        assert whole[i] == front[i];
      }
    }
  }

  predicate WantsNack(track: TrackId, slot: Slot)
    requires slot.total <= |slot.mask|
  {
    && track.kind == TRACK_DATA && !slot.decoded && !slot.nackSent
    && slot.count >= (slot.dataSymbols + 1) / 2
    && MissingIndices(slot.mask[..slot.total]) != []
  }

  function Prefixes(buffers: seq<Block>, n: nat, t: nat): (r: seq<Block>)
    requires n <= |buffers| && forall i :: 0 <= i < |buffers| ==> t <= |buffers[i]|
    ensures Shaped(r, n, t)
  {
    seq(n, i requires 0 <= i < n => buffers[i][..t])
  }

  /** The decoder writes its symbols over the front of the data buffers. */
  function Overlay(buffers: seq<Block>, data: seq<Block>, t: nat): (r: seq<Block>)
    requires |data| <= |buffers| && forall i :: 0 <= i < |buffers| ==> t <= |buffers[i]|
    ensures |r| == |buffers|
  {
    seq(|buffers|, i requires 0 <= i < |buffers| => if i < |data| then data[i] + buffers[i][t..] else buffers[i])
  }

  predicate GotAllData(mask: seq<bool>, k: nat)
    requires k <= |mask|
  {
    forall i :: 0 <= i < k ==> mask[i]
  }

  /** The buffers after recovery, if recovery succeeds with the symbols now present. */
  function Recovered(code: Code, track: TrackId, slot: Slot, h: Header): (r: Option<seq<Block>>)
    requires Lawful(code) && InBounds(slot, h)
    ensures r.Some? ==> Shaped(r.value, |slot.buffers|, slot.capacitySize)
  {
    if slot.count < h.dataSymbols then None
    else if GotAllData(slot.mask, h.dataSymbols) then Some(slot.buffers)
    else
      var f := FecParams(ReceiverKind(track.kind, h.total), h.dataSymbols, h.total - h.dataSymbols, h.symbolSize);
      if f.p == 0 || !code.creates(f) then None
      else
        var missing := Negate(slot.mask[..h.total]);
        match code.decode(f, Prefixes(slot.buffers, h.total, h.symbolSize), missing)
        case None => None
        case Some(data) =>
          assert Shaped(data, f.k, f.t);
          Some(Overlay(slot.buffers, data, h.symbolSize))
  }

  datatype Absorbed = Absorbed(slot: Slot, outputs: seq<Output>)

  /** Everything that happens to the located slot. */
  function Absorb(code: Code, track: TrackId, slot: Slot, h: Header, payload: Block): (r: Absorbed)
    requires Lawful(code) && InBounds(slot, h) && |payload| == h.symbolSize
    ensures SlotShape(r.slot)
  {
    if slot.decoded || h.index >= h.total then Absorbed(slot, [])
    else
      var stored := Store(slot, h.index, payload);
      var nack := WantsNack(track, stored);
      var noted := if nack then stored.(nackSent := true) else stored;
      var nacks :=
        if nack then [Nack(h.alias, h.groupId, h.objectId, MissingIndices(stored.mask[..stored.total]))] else [];
      match Recovered(code, track, noted, h)
      case None => Absorbed(noted, nacks)
      case Some(buffers) =>
        var data := Assemble(buffers, h.dataSymbols, h.symbolSize, h.originalSize);
        Absorbed(noted.(buffers := buffers, decoded := true),
                 nacks + [Delivered(track.(flags := AsDatagram(track.flags)), h.groupId, h.objectId,
                                    data, h.keyframe != 0, slot.priority)])
  }

  /** The slot a header goes to: the one assembling its object, else the next slot of the ring. */
  function Locate(r: Receiver, h: Header): (i: nat)
    ensures ReceiverShape(r) ==> i < ASSEMBLER_CACHE_SIZE
  {
    var i := IndexOfSlot(r.slots, h);
    if i < |r.slots| then i else r.next
  }

  predicate Resident(r: Receiver, h: Header) { IndexOfSlot(r.slots, h) < |r.slots| }

  function Evicted(subs: seq<Entry>, slot: Slot): (r: seq<Output>)
  {
    if slot.total > 0 && !slot.decoded then
      match FindByAlias(subs, slot.alias)
      case Some(track) => [Lost(track, slot.groupId, slot.objectId)]
      case None => []
    else []
  }

  predicate ReceiverShape(r: Receiver) {
    && |r.slots| == ASSEMBLER_CACHE_SIZE && r.next < ASSEMBLER_CACHE_SIZE
    && forall i :: 0 <= i < |r.slots| ==> SlotShape(r.slots[i])
  }

  /** The header and track a datagram is assembled under, or None when it is dropped before the assembler. */
  function Admit(subs: seq<Entry>, raw: Block): (r: Option<(Header, TrackId)>)
    ensures r.Some? ==> |raw| >= HEADER_SIZE + r.value.0.symbolSize
    ensures r.Some? ==> r.value.0.total <= MAX_TOTAL_SYMBOLS && r.value.0.symbolSize <= MAX_SYMBOL_SIZE
  {
    if |raw| < 1 || raw[0] == TRACK_TELEMETRY || |raw| < HEADER_SIZE then None
    else
      var h := ParseHeader(raw);
      match FindByAlias(subs, h.alias)
      case None => None
      case Some(track) =>
        if h.total > MAX_TOTAL_SYMBOLS || h.symbolSize > MAX_SYMBOL_SIZE || |raw| < HEADER_SIZE + h.symbolSize then
          None
        else Some((h, track))
  }

  /** Which datagrams reach the assembler: those with a whole header and a whole symbol, not under the telemetry
      alias, for an alias that means a track, of at most 16384 symbols of at most 4096 bytes. */
  lemma AdmittedIff(subs: seq<Entry>, raw: Block)
    ensures Admit(subs, raw).Some? <==>
            && |raw| >= 32 && raw[0] != 6 && FindByAlias(subs, raw[0]).Some?
            && ParseHeader(raw).total <= 16384 && ParseHeader(raw).symbolSize <= 4096
            && |raw| >= 32 + ParseHeader(raw).symbolSize
    ensures Admit(subs, raw).Some? ==>
              Admit(subs, raw) == Some((ParseHeader(raw), FindByAlias(subs, ParseHeader(raw).alias).value))
  {}

  /** The slot as the datagram finds it, taken over first if the object is not resident. */
  function Target(r: Receiver, h: Header): (s: Slot)
    requires ReceiverShape(r)
  {
    var slot := r.slots[Locate(r, h)];
    if Resident(r, h) then slot else Claim(slot, h)
  }

  datatype Reaction = Reaction(receiver: Receiver, outputs: seq<Output>)

  /** on_receive_datagram_frame behind the authentication gate. */
  function Receive(code: Code, subs: seq<Entry>, r: Receiver, raw: Block): (x: Reaction)
    requires Lawful(code) && ReceiverShape(r)
    requires var a := Admit(subs, raw); a.Some? ==> InBounds(Target(r, a.value.0), a.value.0)
    ensures ReceiverShape(x.receiver)
  {
    match Admit(subs, raw)
    case None => Reaction(r, [])
    case Some((h, track)) =>
      var i := Locate(r, h);
      var evicted := if Resident(r, h) then [] else Evicted(subs, r.slots[i]);
      var next := if Resident(r, h) then r.next else (r.next + 1) % ASSEMBLER_CACHE_SIZE;
      var a := Absorb(code, track, Target(r, h), h, raw[HEADER_SIZE..HEADER_SIZE + h.symbolSize]);
      Reaction(Receiver(r.slots[i := a.slot], next), evicted + a.outputs)
  }

  /** What the receiver does with an admitted datagram, the slot's part being `a`. */
  lemma ReceivedParts(code: Code, subs: seq<Entry>, r: Receiver, raw: Block, h: Header, track: TrackId, a: Absorbed)
    requires Lawful(code) && ReceiverShape(r) && Admit(subs, raw) == Some((h, track)) && InBounds(Target(r, h), h)
    requires a == Absorb(code, track, Target(r, h), h, raw[HEADER_SIZE..HEADER_SIZE + h.symbolSize])
    ensures var x := Receive(code, subs, r, raw);
            && Locate(r, h) < |r.slots| && x.receiver.slots == r.slots[Locate(r, h) := a.slot]
            && x.outputs == (if Resident(r, h) then [] else Evicted(subs, r.slots[Locate(r, h)])) + a.outputs
  {}

  lemma ReceivedNext(code: Code, subs: seq<Entry>, r: Receiver, raw: Block, h: Header, track: TrackId)
    requires Lawful(code) && ReceiverShape(r) && Admit(subs, raw) == Some((h, track)) && InBounds(Target(r, h), h)
    ensures var next := Receive(code, subs, r, raw).receiver.next;
            if Resident(r, h) then next == r.next
            else next == (r.next + 1) % ASSEMBLER_CACHE_SIZE && Locate(r, h) == r.next
  {}
}
