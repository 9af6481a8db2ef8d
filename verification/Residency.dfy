/** What an assembler slot guarantees while it works on one published object. */
module Residency {
  import opened Bytes
  import opened ErasureCode
  import opened Tracks
  import opened Wire
  import opened Sender
  import opened Assembler

  /** An object published on the datagram path, with the alias and layout it went out under. */
  datatype Sent = Sent(item: Item, alias: byte, l: Layout)

  function SentTotal(x: Sent): nat { x.l.k + x.l.p }

  predicate HeaderOf(x: Sent, h: Header) {
    && h.alias == x.alias && h.groupId == x.item.groupId && h.objectId == x.item.objectId
    && h.total == SentTotal(x) && h.dataSymbols == x.l.k && h.symbolSize == x.l.t
    && h.originalSize == |x.item.data|
    && h.keyframe == (if x.item.keyframe then 1 else 0) && h.priority == x.item.priority
    && h.index < h.total
  }

  predicate Describes(x: Sent, slot: Slot) {
    && slot.alias == x.alias && slot.groupId == x.item.groupId && slot.objectId == x.item.objectId
    && slot.total == SentTotal(x) && slot.dataSymbols == x.l.k && slot.symbolSize == x.l.t
    && slot.originalSize == |x.item.data| && slot.priority == x.item.priority
    && SlotShape(slot) && slot.total <= |slot.buffers| && x.l.t <= slot.capacitySize
  }

  /** Every symbol marked received holds that symbol's bytes; stale bytes may lie anywhere else. */
  ghost predicate Filled(word: seq<Block>, x: Sent, slot: Slot)
    requires Describes(x, slot)
  {
    && |word| == slot.total
    && (forall i :: 0 <= i < slot.total && slot.mask[i] ==> slot.buffers[i][..x.l.t] == word[i])
    && (forall i :: slot.total <= i < |slot.mask| ==> !slot.mask[i])
    && slot.count == Count(slot.mask)
  }

  /** The number of distinct symbols at which the one NACK of a residency goes out. */
  function NackThreshold(k: nat): nat { (k + 1) / 2 }

  predicate NackDue(x: Sent, count: nat) {
    x.item.track.kind == TRACK_DATA && x.l.k >= 2 && count >= NackThreshold(x.l.k)
  }

  /** Either no parity is used, or the context exists and any k symbols suffice. */
  ghost predicate Recoverable(code: Code, x: Sent) {
    x.l.p == 0 || (code.creates(Params(x.item, x.l)) && AnyK(code, Params(x.item, x.l)))
  }

  /** `word` is the object's codeword, and `anyK` says whether any k of its symbols suffice. */
  ghost predicate HoldingWord(word: seq<Block>, anyK: bool, x: Sent, slot: Slot) {
    && Describes(x, slot)
    && Filled(word, x, slot)
    && (slot.nackSent <==> NackDue(x, slot.count))
    && (slot.decoded ==> slot.count >= x.l.k)
    && (!slot.decoded ==> !GotAllData(slot.mask, x.l.k))
    && (anyK ==> (slot.decoded <==> slot.count >= x.l.k))
  }

  ghost predicate Holding(code: Code, x: Sent, slot: Slot) {
    HoldingWord(Symbols(code, x.item, x.l), Recoverable(code, x), x, slot)
  }

  // ----- Counting -----

  lemma CountPrefix(mask: seq<bool>, n: nat)
    requires n <= |mask| && forall i :: n <= i < |mask| ==> !mask[i]
    ensures Count(mask[..n]) == Count(mask)
  {
    assert mask == mask[..n] + mask[n..];
    CountConcat(mask[..n], mask[n..]);
    CountNone(mask[n..]);
  }

  lemma CountGotAll(mask: seq<bool>, k: nat)
    requires k <= |mask| && GotAllData(mask, k)
    ensures Count(mask) >= k
  {
    assert mask == mask[..k] + mask[k..];
    CountConcat(mask[..k], mask[k..]);
    CountFull(mask[..k]);
  }

  // ----- Claiming -----

  lemma ClaimHolds(word: seq<Block>, anyK: bool, x: Sent, slot: Slot, h: Header)
    requires SlotShape(slot) && HeaderOf(x, h) && |word| == SentTotal(x) && x.l.k >= 1
    ensures HoldingWord(word, anyK, x, Claim(slot, h))
  {
    var mask := Claim(slot, h).mask;
    CountNone(mask);
    assert !mask[0];
  }

  lemma HoldingInBounds(x: Sent, slot: Slot, h: Header)
    requires InLimits(x.item, x.l) && Describes(x, slot) && HeaderOf(x, h)
    ensures InBounds(slot, h)
  {}

  // ----- Absorbing one symbol -----

  lemma StoreFills(word: seq<Block>, x: Sent, slot: Slot, i: nat)
    requires Describes(x, slot) && Filled(word, x, slot) && i < slot.total
    requires |word[i]| == x.l.t
    ensures var s := Store(slot, i, word[i]);
            && Describes(x, s) && Filled(word, x, s)
            && s.mask == slot.mask[i := true]
            && s.count == if slot.mask[i] then slot.count else slot.count + 1
  {
    if !slot.mask[i] {
      CountSet(slot.mask, i);
      var b := word[i] + slot.buffers[i][|word[i]|..];
      assert b[..x.l.t] == word[i];
    } else {
      assert slot.mask[i := true] == slot.mask;
    }
  }

  /** The received symbols form a word the code's contract speaks about. */
  lemma SlotAgrees(code: Code, x: Sent, slot: Slot)
    requires Describes(x, slot) && Filled(Symbols(code, x.item, x.l), x, slot)
    requires x.l.p > 0 && slot.count >= x.l.k && code.creates(Params(x.item, x.l))
    ensures Agrees(code, Params(x.item, x.l), Split(x.item.data, x.l.k, x.l.t),
                   Prefixes(slot.buffers, slot.total, x.l.t), Negate(slot.mask[..slot.total]))
  {
    var got := slot.mask[..slot.total];
    CountPrefix(slot.mask, slot.total);
    assert Negate(Negate(got)) == got;
  }

  /** The buffers hold the word's data symbols, and still hold every symbol that was received. */
  ghost predicate Restored(word: seq<Block>, x: Sent, slot: Slot, buffers: seq<Block>)
    requires Describes(x, slot) && |word| == slot.total
  {
    && Shaped(buffers, |slot.buffers|, slot.capacitySize)
    && forall i :: 0 <= i < slot.total && (i < x.l.k || slot.mask[i]) ==> buffers[i][..x.l.t] == word[i]
  }

  lemma OverlayRestores(word: seq<Block>, x: Sent, slot: Slot)
    requires Describes(x, slot) && Filled(word, x, slot) && Shaped(word, slot.total, x.l.t)
    ensures Restored(word, x, slot, Overlay(slot.buffers, word[..x.l.k], x.l.t))
  {
    var r := Overlay(slot.buffers, word[..x.l.k], x.l.t);
    forall i | 0 <= i < slot.total && (i < x.l.k || slot.mask[i])
      ensures r[i][..x.l.t] == word[i]
    {}
  }

  lemma NoParityNeedsAll(word: seq<Block>, x: Sent, slot: Slot)
    requires Describes(x, slot) && Filled(word, x, slot) && x.l.p == 0 && slot.count >= x.l.k
    ensures GotAllData(slot.mask, x.l.k)
  {
    var got := slot.mask[..slot.total];
    CountPrefix(slot.mask, slot.total);
    CountFull(got);
    assert forall i :: 0 <= i < x.l.k ==> got[i] == slot.mask[i];
  }

  lemma DecodeRestores(code: Code, x: Sent, slot: Slot)
    requires Lawful(code) && Describes(x, slot) && Filled(Symbols(code, x.item, x.l), x, slot)
    requires x.l.p > 0 && slot.count >= x.l.k && code.creates(Params(x.item, x.l))
    ensures var out := code.decode(Params(x.item, x.l), Prefixes(slot.buffers, slot.total, x.l.t),
                                   Negate(slot.mask[..slot.total]));
            && (out.Some? ==> out.value == Symbols(code, x.item, x.l)[..x.l.k])
            && (Recoverable(code, x) ==> out.Some?)
  {
    SlotAgrees(code, x, slot);
    assert Symbols(code, x.item, x.l)[..x.l.k] == Split(x.item.data, x.l.k, x.l.t);
  }

  /** Recovered, case by case: without decoding. */
  lemma RecoveredPlain(code: Code, track: TrackId, slot: Slot, h: Header)
    requires Lawful(code) && InBounds(slot, h)
    ensures slot.count < h.dataSymbols ==> Recovered(code, track, slot, h) == None
    ensures slot.count >= h.dataSymbols && GotAllData(slot.mask, h.dataSymbols) ==>
              Recovered(code, track, slot, h) == Some(slot.buffers)
  {}

  /** And with decoding, by a context with parameters f. */
  lemma RecoveredDecoded(code: Code, track: TrackId, slot: Slot, h: Header, f: FecParams)
    requires Lawful(code) && InBounds(slot, h)
    requires slot.count >= h.dataSymbols && !GotAllData(slot.mask, h.dataSymbols)
    requires f == FecParams(ReceiverKind(track.kind, h.total), h.dataSymbols, h.total - h.dataSymbols, h.symbolSize)
    ensures var r := Recovered(code, track, slot, h);
            var out := code.decode(f, Prefixes(slot.buffers, h.total, h.symbolSize), Negate(slot.mask[..h.total]));
            && (f.p == 0 || !code.creates(f) || out.None? ==> r == None)
            && (f.p > 0 && code.creates(f) && out.Some? ==>
                  |out.value| <= |slot.buffers| && r == Some(Overlay(slot.buffers, out.value, h.symbolSize)))
  {}

  lemma WholeRestored(word: seq<Block>, x: Sent, slot: Slot)
    requires Describes(x, slot) && Filled(word, x, slot) && GotAllData(slot.mask, x.l.k)
    ensures slot.count >= x.l.k && Restored(word, x, slot, slot.buffers)
  {
    CountGotAll(slot.mask, x.l.k);
  }

  /** Decoding, when it happens, puts the object's own data symbols in place. */
  lemma DecodedIsData(code: Code, x: Sent, track: TrackId, slot: Slot, h: Header)
    requires Lawful(code) && InBounds(slot, h) && HeaderOf(x, h) && LaidOut(x.item, x.l)
    requires Describes(x, slot) && Filled(Symbols(code, x.item, x.l), x, slot)
    requires track.kind == x.item.track.kind && x.l.p > 0
    requires slot.count >= x.l.k && !GotAllData(slot.mask, x.l.k)
    ensures var r := Recovered(code, track, slot, h);
            && (r.Some? ==> Restored(Symbols(code, x.item, x.l), x, slot, r.value))
            && (Recoverable(code, x) ==> r.Some?)
  {
    KindsAgree(x.item, x.l);
    var f := Params(x.item, x.l);
    RecoveredDecoded(code, track, slot, h, f);
    if code.creates(f) {
      DecodeRestores(code, x, slot);
      SymbolsShape(code, x.item, x.l);
      OverlayRestores(Symbols(code, x.item, x.l), x, slot);
    }
  }

  /** Recovery, when it happens, puts the object's own data symbols in place. It happens as soon as all data
      symbols are there, and with an any-k code as soon as k distinct symbols are there. */
  lemma RecoveredIsData(code: Code, x: Sent, track: TrackId, slot: Slot, h: Header)
    requires Lawful(code) && InBounds(slot, h) && HeaderOf(x, h) && LaidOut(x.item, x.l)
    requires Describes(x, slot) && Filled(Symbols(code, x.item, x.l), x, slot)
    requires track.kind == x.item.track.kind
    ensures var r := Recovered(code, track, slot, h);
            && (r.Some? ==> slot.count >= x.l.k && Restored(Symbols(code, x.item, x.l), x, slot, r.value))
            && (r.None? ==> !GotAllData(slot.mask, x.l.k))
            && (Recoverable(code, x) && slot.count >= x.l.k ==> r.Some?)
  {
    RecoveredPlain(code, track, slot, h);
    if GotAllData(slot.mask, x.l.k) {
      WholeRestored(Symbols(code, x.item, x.l), x, slot);
    } else if slot.count >= x.l.k {
      if x.l.p == 0 {
        NoParityNeedsAll(Symbols(code, x.item, x.l), x, slot);
      } else {
        DecodedIsData(code, x, track, slot, h);
      }
    }
  }

  function NackOutput(x: Sent, slot: Slot): Output
    requires slot.total <= |slot.mask|
  {
    Nack(x.alias, x.item.groupId, x.item.objectId, MissingIndices(slot.mask[..slot.total]))
  }

  function DeliveredOutput(x: Sent, track: TrackId): Output
  {
    Delivered(track.(flags := AsDatagram(track.flags)), x.item.groupId, x.item.objectId,
              x.item.data, x.item.keyframe, x.item.priority)
  }

  /** The slot after the NACK phase, before recovery. */
  function NackNoted(track: TrackId, stored: Slot): (r: Slot)
    requires stored.total <= |stored.mask|
  {
    if WantsNack(track, stored) then stored.(nackSent := true) else stored
  }

  /** Absorb in its phases. */
  lemma AbsorbPhases(code: Code, track: TrackId, slot: Slot, h: Header, payload: Block)
    requires Lawful(code) && InBounds(slot, h) && |payload| == h.symbolSize && !slot.decoded && h.index < h.total
    ensures var a, stored := Absorb(code, track, slot, h, payload), Store(slot, h.index, payload);
            var noted := NackNoted(track, stored);
            var nacks := if WantsNack(track, stored)
                         then [Nack(h.alias, h.groupId, h.objectId, MissingIndices(stored.mask[..stored.total]))]
                         else [];
            && InBounds(noted, h)
            && match Recovered(code, track, noted, h)
               case None => a == Absorbed(noted, nacks)
               case Some(buffers) =>
                 a == Absorbed(noted.(buffers := buffers, decoded := true),
                               nacks + [Delivered(track.(flags := AsDatagram(track.flags)), h.groupId, h.objectId,
                                                  Assemble(buffers, h.dataSymbols, h.symbolSize, h.originalSize),
                                                  h.keyframe != 0, slot.priority)])
  {}

  /** A slot whose recovery failed, or succeeded, holds the object. */
  lemma RecoveryHolds(code: Code, x: Sent, track: TrackId, noted: Slot, h: Header)
    requires Lawful(code) && InBounds(noted, h) && HeaderOf(x, h) && InLimits(x.item, x.l)
    requires Describes(x, noted) && Filled(Symbols(code, x.item, x.l), x, noted) && track.kind == x.item.track.kind
    requires !noted.decoded && (noted.nackSent <==> NackDue(x, noted.count))
    ensures match Recovered(code, track, noted, h)
            case None => Holding(code, x, noted)
            case Some(buffers) =>
              && Holding(code, x, noted.(buffers := buffers, decoded := true))
              && x.l.k <= |buffers| && (forall i :: 0 <= i < |buffers| ==> x.l.t <= |buffers[i]|)
              && Assemble(buffers, x.l.k, x.l.t, |x.item.data|) == x.item.data
  {
    RecoveredIsData(code, x, track, noted, h);
    var r := Recovered(code, track, noted, h);
    if r.Some? {
      WordAssembles(code, x, noted, r.value);
    }
  }

  /** One symbol of the object leaves the slot holding it. A delivery carries exactly the published object and
      happens exactly when the slot becomes decoded; a NACK lists exactly the absent symbols and goes out
      exactly when the count first reaches the threshold. */
  lemma AbsorbHolds(code: Code, x: Sent, track: TrackId, slot: Slot, h: Header)
    requires Lawful(code) && InLimits(x.item, x.l) && Holding(code, x, slot) && HeaderOf(x, h)
    requires track.kind == x.item.track.kind
    requires InBounds(slot, h) && |Symbols(code, x.item, x.l)[h.index]| == h.symbolSize
    ensures var a := Absorb(code, track, slot, h, Symbols(code, x.item, x.l)[h.index]);
            && Holding(code, x, a.slot)
            && Steps(x, track, slot, h.index, a)
  {
    var word := Symbols(code, x.item, x.l);
    if !slot.decoded {
      StoredHolds(word, x, track, slot, h.index);
      AbsorbPhases(code, track, slot, h, word[h.index]);
      RecoveryHolds(code, x, track, NackNoted(track, Store(slot, h.index, word[h.index])), h);
    }
  }

  /** The storing and NACK phases, before recovery is attempted. */
  lemma StoredHolds(word: seq<Block>, x: Sent, track: TrackId, slot: Slot, i: nat)
    requires LaidOut(x.item, x.l) && Describes(x, slot) && Filled(word, x, slot) && !slot.decoded
    requires track.kind == x.item.track.kind && i < slot.total && |word[i]| == x.l.t
    requires slot.nackSent <==> NackDue(x, slot.count)
    ensures var s := Store(slot, i, word[i]);
            && Describes(x, s) && Filled(word, x, s) && !s.decoded && s.nackSent == slot.nackSent
            && s.mask == slot.mask[i := true]
            && (WantsNack(track, s) <==> NackDue(x, s.count) && !slot.nackSent)
            && (WantsNack(track, s) ==> s.count == NackThreshold(x.l.k))
            && (slot.nackSent ==> NackDue(x, s.count))
  {
    StoreFills(word, x, slot, i);
    var stored := Store(slot, i, word[i]);
    CountPrefix(stored.mask, stored.total);
    CountSome(stored.mask, i);
    NackPhase(x, track, slot, stored);
  }

  /** What may happen to a slot, and be output, when one of its symbols arrives. */
  ghost predicate Steps(x: Sent, track: TrackId, slot: Slot, i: nat, a: Absorbed)
    requires i < |slot.mask|
  {
    && (slot.decoded ==> a == Absorbed(slot, []))
    && (!slot.decoded ==> a.slot.mask == slot.mask[i := true])
    && (slot.nackSent ==> a.slot.nackSent)
    && a.slot.total == slot.total <= |a.slot.mask|
    && (a.slot.nackSent && !slot.nackSent ==>
          NackDue(x, a.slot.count) && a.slot.count == NackThreshold(x.l.k))
    && a.outputs == (if a.slot.nackSent && !slot.nackSent then [NackOutput(x, a.slot)] else [])
                  + (if a.slot.decoded && !slot.decoded then [DeliveredOutput(x, track)] else [])
  }

  lemma CountSome(mask: seq<bool>, i: nat)
    requires i < |mask| && mask[i]
    ensures Count(mask) >= 1
  {
    var without := mask[i := false];
    CountSet(without, i);
    assert without[i := true] == mask;
  }

  lemma WordAssembles(code: Code, x: Sent, slot: Slot, buffers: seq<Block>)
    requires InLimits(x.item, x.l) && Describes(x, slot) && |Symbols(code, x.item, x.l)| == slot.total
    requires Restored(Symbols(code, x.item, x.l), x, slot, buffers)
    ensures Assemble(buffers, x.l.k, x.l.t, |x.item.data|) == x.item.data
  {
    var data := Split(x.item.data, x.l.k, x.l.t);
    assert forall i :: 0 <= i < x.l.k ==> Symbols(code, x.item, x.l)[i] == data[i];
    AssembleSplit(x.item.data, buffers, x.l.k, x.l.t);
  }

  /** Whether the slot asks for a NACK after storing a symbol, in terms of the distinct count alone. */
  lemma NackPhase(x: Sent, track: TrackId, slot: Slot, stored: Slot)
    requires LaidOut(x.item, x.l) && Describes(x, stored) && track.kind == x.item.track.kind
    requires !stored.decoded && stored.nackSent == slot.nackSent
    requires slot.nackSent <==> NackDue(x, slot.count)
    requires slot.count <= stored.count <= slot.count + 1
    requires stored.count == Count(stored.mask[..stored.total]) && stored.count >= 1
    ensures WantsNack(track, stored) <==> NackDue(x, stored.count) && !slot.nackSent && stored.count < stored.total
    ensures NackDue(x, stored.count) && !slot.nackSent ==>
              stored.count == NackThreshold(x.l.k) && stored.count < stored.total
  {}
}
