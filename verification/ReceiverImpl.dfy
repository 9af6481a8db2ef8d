/** The datagram receive path in its imperative form: the connection's assembler ring, updated in place. */
module ReceiverImpl {
  import opened Bytes
  import opened ErasureCode
  import opened Tracks
  import opened Wire
  import opened Sender
  import opened Assembler
  import opened TracksImpl

  method ListMissing(mask: seq<bool>, total: nat) returns (missing: seq<nat>)
    requires total <= |mask|
    ensures missing == MissingIndices(mask[..total])
  {
    missing := [];
    for i := 0 to total
      invariant missing == MissingIndices(mask[..i])
    {
      assert mask[..i + 1][..i] == mask[..i];
      if !mask[i] {
        missing := missing + [i];
      }
    }
  }

  method HasAllData(mask: seq<bool>, k: nat) returns (all: bool)
    requires k <= |mask|
    ensures all == GotAllData(mask, k)
  {
    for i := 0 to k
      invariant forall j :: 0 <= j < i ==> mask[j]
    {
      if !mask[i] {
        return false;
      }
    }
    return true;
  }

  method ErasureMarks(mask: seq<bool>, total: nat) returns (missing: seq<bool>)
    requires total <= |mask|
    ensures missing == Negate(mask[..total])
  {
    missing := [];
    for i := 0 to total
      invariant |missing| == i && forall j :: 0 <= j < i ==> missing[j] == !mask[j]
    {
      missing := missing + [!mask[i]];
    }
  }

  lemma MulStep(a: nat, b: nat, t: nat)
    requires a < b
    ensures a * t + t <= b * t
  {
    MulMonotone(a + 1, b, t);
  }

  lemma QuotientOf(j: nat, i: nat, t: nat)
    requires t > 0 && i * t <= j < i * t + t
    ensures j / t == i && j % t == j - i * t
  {
    if j / t < i {
      MulStep(j / t, i, t);
    } else if i < j / t {
      MulStep(i, j / t, t);
    }
  }

  /** One more row, or the last part of it. */
  lemma AssembleRow(buffers: seq<Block>, k: nat, t: nat, i: nat, size: nat, chunk: nat)
    requires t > 0 && i < k <= |buffers| && size == i * t && chunk <= t && size + chunk <= k * t
    requires forall i :: 0 <= i < k ==> |buffers[i]| >= t
    ensures Assemble(buffers, k, t, size + chunk) == Assemble(buffers, k, t, size) + buffers[i][..chunk]
  {
    var whole := Assemble(buffers, k, t, size + chunk);
    forall j | 0 <= j < |whole|
      ensures whole[j] == (Assemble(buffers, k, t, size) + buffers[i][..chunk])[j]
    {
      if j >= size {
        QuotientOf(j, i, t);
      }
    }
  }

  /** Copies at most t bytes out of each data buffer until originalSize bytes are there. */
  method CopyOut(buffers: seq<Block>, k: nat, t: nat, originalSize: nat) returns (data: Block)
    requires t > 0 && k <= |buffers| && originalSize <= k * t
    requires forall i :: 0 <= i < k ==> |buffers[i]| >= t
    ensures data == Assemble(buffers, k, t, originalSize)
  {
    data := [];
    var bytesLeft, offset := originalSize, 0;
    for i := 0 to k
      invariant offset == i * t && bytesLeft >= 0 && |data| + bytesLeft == originalSize
      invariant bytesLeft > 0 ==> |data| == offset
      invariant data == Assemble(buffers, k, t, |data|)
    {
      var chunk := if bytesLeft < t then bytesLeft else t;
      if chunk > 0 {
        AssembleRow(buffers, k, t, i, offset, chunk);
        data := data + buffers[i][..chunk];
        bytesLeft := bytesLeft - chunk;
      }
      offset := offset + t;
    }
  }

  /** The checks a datagram passes before it reaches the assembler. */
  method CheckDatagram(subs: seq<Entry>, raw: Block) returns (r: Option<(Header, TrackId)>)
    ensures r == Admit(subs, raw)
  {
    if |raw| < 1 || raw[0] == TRACK_TELEMETRY || |raw| < HEADER_SIZE {
      return None;
    }
    var h := ParseHeader(raw);
    var track := FindTrack(subs, h.alias);
    if track.None? || h.total > MAX_TOTAL_SYMBOLS || h.symbolSize > MAX_SYMBOL_SIZE
       || |raw| < HEADER_SIZE + h.symbolSize {
      return None;
    }
    r := Some((h, track.value));
  }

  /** The part of transport_conn_t that reassembles objects. */
  class AssemblerRing {
    var slots: array<Slot>
    var next: nat

    ghost predicate Valid()
      reads this, slots
    {
      ReceiverShape(State())
    }

    ghost function State(): (r: Receiver)
      reads this, slots
    {
      Receiver(slots[..], next)
    }

    constructor ()
      ensures Valid() && fresh(slots) && State() == NewReceiver()
    {
      slots := new Slot[ASSEMBLER_CACHE_SIZE](_ => UnusedSlot());
      next := 0;
      new;
      assert slots[..] == NewReceiver().slots;
    }

    method FindSlot(h: Header) returns (i: nat)
      requires Valid()
      ensures i == IndexOfSlot(slots[..], h)
    {
      i := 0;
      while i < slots.Length && !AssemblesFor(slots[i], h)
        invariant i <= slots.Length
        invariant forall j :: 0 <= j < i ==> !AssemblesFor(slots[j], h)
      {
        i := i + 1;
      }
      assert slots.Length == |slots[..]|;
      assert i < slots.Length ==> AssemblesFor(slots[..][i], h);
    }

    /** Finds the slot of the header's object, or takes over the next one and reports what was lost with it. */
    method Acquire(subs: seq<Entry>, h: Header) returns (i: nat, outputs: seq<Output>)
      requires Valid() && h.total <= MAX_TOTAL_SYMBOLS
      modifies this, slots
      ensures Valid() && slots == old(slots) && i == Locate(old(State()), h) < slots.Length
      ensures slots[..] == old(slots[..])[i := Target(old(State()), h)]
      ensures var r := old(State());
              if Resident(r, h) then next == r.next && outputs == []
              else next == (r.next + 1) % ASSEMBLER_CACHE_SIZE && outputs == Evicted(subs, r.slots[i])
    {
      outputs := [];
      i := FindSlot(h);
      if i == slots.Length {
        i := next;
        next := (next + 1) % ASSEMBLER_CACHE_SIZE;
        if slots[i].total > 0 && !slots[i].decoded {
          var evicted := FindTrack(subs, slots[i].alias);
          if evicted.Some? {
            outputs := [Lost(evicted.value, slots[i].groupId, slots[i].objectId)];
          }
        }
        slots[i] := Claim(slots[i], h);
      }
    }

    /** Sends the one NACK of a residency when it is due. */
    method RequestRepair(track: TrackId, i: nat, h: Header) returns (outputs: seq<Output>)
      requires i < slots.Length && slots[i].total <= |slots[i].mask|
      modifies slots
      ensures var was := old(slots[i]);
              if WantsNack(track, was)
              then && outputs == [Nack(h.alias, h.groupId, h.objectId, MissingIndices(was.mask[..was.total]))]
                   && slots[..] == old(slots[..])[i := was.(nackSent := true)]
              else outputs == [] && slots[..] == old(slots[..])
    {
      outputs := [];
      if track.kind == TRACK_DATA && !slots[i].decoded && !slots[i].nackSent
         && slots[i].count >= (slots[i].dataSymbols + 1) / 2 {
        var missing := ListMissing(slots[i].mask, slots[i].total);
        if |missing| > 0 {
          outputs := [Nack(h.alias, h.groupId, h.objectId, missing)];
          slots[i] := slots[i].(nackSent := true);
        }
      }
    }

    /** Stores the symbol, sends the NACK if it is due, and delivers the object if it can be recovered. */
    method Absorb(code: Code, track: TrackId, i: nat, h: Header, payload: Block) returns (outputs: seq<Output>)
      requires Valid() && i < slots.Length && Lawful(code)
      requires InBounds(slots[i], h) && |payload| == h.symbolSize
      modifies slots
      ensures slots[..] == old(slots[..])[i := Assembler.Absorb(code, track, old(slots[i]), h, payload).slot]
      ensures outputs == Assembler.Absorb(code, track, old(slots[i]), h, payload).outputs
    {
      outputs := [];
      if slots[i].decoded || h.index >= h.total {
        assert slots[..] == old(slots[..])[i := old(slots[i])];
        return;
      }
      slots[i] := Store(slots[i], h.index, payload);
      outputs := RequestRepair(track, i, h);
      var recovered := TryRecover(code, track, slots[i], h);
      if recovered.Some? {
        var data := CopyOut(recovered.value, h.dataSymbols, h.symbolSize, h.originalSize);
        outputs := outputs + [Delivered(track.(flags := AsDatagram(track.flags)), h.groupId, h.objectId,
                                        data, h.keyframe != 0, slots[i].priority)];
        slots[i] := slots[i].(buffers := recovered.value, decoded := true);
      }
    }

    /** on_receive_datagram_frame once the connection's authentication gate has been passed. */
    method OnDatagram(code: Code, subs: seq<Entry>, raw: Block) returns (outputs: seq<Output>)
      requires Valid() && Lawful(code)
      requires var a := Admit(subs, raw); a.Some? ==> InBounds(Target(State(), a.value.0), a.value.0)
      modifies this, slots
      ensures Valid() && slots == old(slots)
      ensures Reaction(State(), outputs) == Receive(code, subs, old(State()), raw)
    {
      outputs := [];
      var admitted := CheckDatagram(subs, raw);
      if admitted.None? {
        return;
      }
      var (h, track) := admitted.value;
      ghost var before := State();
      outputs := Take(code, subs, track, h, raw[HEADER_SIZE..HEADER_SIZE + h.symbolSize]);
      ReceivedParts(code, subs, before, raw, h, track,
                    Assembler.Absorb(code, track, Target(before, h), h, raw[HEADER_SIZE..HEADER_SIZE + h.symbolSize]));
      ReceivedNext(code, subs, before, raw, h, track);
    }

    /** The part behind the checks. */
    method Take(code: Code, subs: seq<Entry>, track: TrackId, h: Header, payload: Block) returns (outputs: seq<Output>)
      requires Valid() && Lawful(code) && h.total <= MAX_TOTAL_SYMBOLS
      requires InBounds(Target(State(), h), h) && |payload| == h.symbolSize
      modifies this, slots
      ensures Valid() && slots == old(slots)
      ensures var r := old(State());
              var a, i := Assembler.Absorb(code, track, Target(r, h), h, payload), Locate(r, h);
              && i < |r.slots| && State().slots == r.slots[i := a.slot]
              && State().next == (if Resident(r, h) then r.next else (r.next + 1) % ASSEMBLER_CACHE_SIZE)
              && outputs == (if Resident(r, h) then [] else Evicted(subs, r.slots[i])) + a.outputs
    {
      ghost var target := Target(State(), h);
      var i;
      i, outputs := Acquire(subs, h);
      assert slots[i] == target;
      var more := Absorb(code, track, i, h, payload);
      outputs := outputs + more;
    }
  }

  method TryRecover(code: Code, track: TrackId, slot: Slot, h: Header) returns (r: Option<seq<Block>>)
    requires Lawful(code) && InBounds(slot, h)
    ensures r == Recovered(code, track, slot, h)
  {
    if slot.count < h.dataSymbols {
      return None;
    }
    var all := HasAllData(slot.mask, h.dataSymbols);
    if all {
      return Some(slot.buffers);
    }
    var f := FecParams(ReceiverKind(track.kind, h.total), h.dataSymbols, h.total - h.dataSymbols, h.symbolSize);
    if f.p == 0 || !code.creates(f) {
      return None;
    }
    var missing := ErasureMarks(slot.mask, h.total);
    var decoded := code.decode(f, Prefixes(slot.buffers, h.total, h.symbolSize), missing);
    if decoded.None? {
      return None;
    }
    assert Shaped(decoded.value, f.k, f.t);
    return Some(Overlay(slot.buffers, decoded.value, h.symbolSize));
  }
}
