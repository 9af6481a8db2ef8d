/** The datagram branch of transport_publish and the NACK handler in their imperative form. */
module SenderImpl {
  import opened Bytes
  import opened ErasureCode
  import opened Tracks
  import opened Wire
  import opened Sender
  import TracksImpl

  /** The publisher's way: a full symbol is a slice of the payload, any other is zero padded. */
  method SliceOrPad(data: Block, offset: nat, t: nat) returns (block: Block)
    ensures block == SymbolFrom(data, offset, t)
  {
    var chunk := if offset < |data| then |data| - offset else 0;
    if chunk >= t {
      block := if offset <= |data| then data[offset..offset + t] else [];
    } else if chunk > 0 {
      block := data[offset..] + Zeros(t - chunk);
    } else {
      block := Zeros(t);
    }
  }

  /** The retransmitter's way: every symbol is copied over a zeroed block. */
  method CopyOverZeros(data: Block, offset: nat, t: nat) returns (block: Block)
    ensures block == SymbolFrom(data, offset, t)
  {
    block := Zeros(t);
    var chunk := if offset < |data| then |data| - offset else 0;
    if chunk > t {
      chunk := t;
    }
    if chunk > 0 {
      block := data[offset..offset + chunk] + block[chunk..];
    }
  }

  method BlocksForPublish(data: Block, k: nat, t: nat) returns (blocks: seq<Block>)
    ensures blocks == Split(data, k, t)
  {
    blocks := [];
    for i := 0 to k
      invariant |blocks| == i && forall j :: 0 <= j < i ==> blocks[j] == SymbolBlock(data, j, t)
    {
      var block := SliceOrPad(data, i * t, t);
      blocks := blocks + [block];
    }
  }

  method BlocksForRepair(data: Block, k: nat, t: nat) returns (blocks: seq<Block>)
    ensures blocks == Split(data, k, t)
  {
    blocks := [];
    for i := 0 to k
      invariant |blocks| == i && forall j :: 0 <= j < i ==> blocks[j] == SymbolBlock(data, j, t)
    {
      var block := CopyOverZeros(data, i * t, t);
      blocks := blocks + [block];
    }
  }

  /** One datagram per symbol, data symbols first. */
  method SendSymbols(code: Code, item: Item, alias: byte, l: Layout, paths: seq<byte>, times: seq<u64>)
    returns (out: seq<Block>)
    requires l.t > 0 && |Symbols(code, item, l)| == l.k + l.p == |paths| == |times|
    ensures out == PublishDatagrams(code, item, alias, l, paths, times)
  {
    var blocks := BlocksForPublish(item.data, l.k, l.t);
    var parity := Parity(code, Params(item, l), blocks);
    assert Symbols(code, item, l) == blocks + parity;
    out := SendBlocks(item, alias, l, paths, times, blocks, parity);
  }

  method SendBlocks(item: Item, alias: byte, l: Layout, paths: seq<byte>, times: seq<u64>, blocks: seq<Block>,
                    parity: seq<Block>) returns (out: seq<Block>)
    requires |blocks| == l.k && |blocks + parity| == l.k + l.p == |paths| == |times|
    ensures |out| == l.k + l.p
    ensures forall s :: 0 <= s < |out| ==>
      out[s] == HeaderBytes(MakeHeader(item, alias, l, s, paths[s], times[s])) + (blocks + parity)[s]
  {
    out := [];
    for s := 0 to l.k + l.p
      invariant |out| == s
      invariant forall j :: 0 <= j < s ==>
        out[j] == HeaderBytes(MakeHeader(item, alias, l, j, paths[j], times[j])) + (blocks + parity)[j]
    {
      var raw := SendOne(item, alias, l, s, paths[s], times[s], blocks, parity);
      out := out + [raw];
    }
  }

  method SendOne(item: Item, alias: byte, l: Layout, s: nat, path: byte, time: u64, blocks: seq<Block>,
                 parity: seq<Block>) returns (raw: Block)
    requires |blocks| == l.k && s < |blocks + parity|
    ensures raw == HeaderBytes(MakeHeader(item, alias, l, s, path, time)) + (blocks + parity)[s]
  {
    var header := HeaderBytes(MakeHeader(item, alias, l, s, path, time));
    if s < l.k {
      raw := header + blocks[s];
    } else {
      raw := header + parity[s - l.k];
    }
  }

  /** The part of transport_t that remembers sent objects. */
  class Publisher {
    var sent: array<Option<Cached>>
    var next: nat

    ghost predicate Valid()
      reads this, sent
    {
      sent.Length == SENT_CACHE_SIZE && next < SENT_CACHE_SIZE
    }

    ghost function State(): (r: Ring)
      reads this, sent
    {
      Ring(sent[..], next)
    }

    constructor ()
      ensures Valid() && fresh(sent) && State() == EmptyRing()
    {
      sent := new Option<Cached>[SENT_CACHE_SIZE](_ => None);
      next := 0;
      new;
      assert sent[..] == EmptyRing().slots;
    }

    /** Publishes one object to one connection and remembers it if it is a DATA object. */
    method Publish(code: Code, subs: seq<Entry>, item: Item, l: Layout, paths: seq<byte>, times: seq<u64>)
      returns (out: seq<Block>)
      requires Valid() && Lawful(code) && LaidOut(item, l) && |paths| == |times| == l.k + l.p
      modifies this, sent
      ensures Valid() && sent == old(sent)
      ensures |Symbols(code, item, l)| == l.k + l.p
      ensures out == (match FindByTrack(subs, item.track)
                      case Some(alias) => PublishDatagrams(code, item, alias, l, paths, times)
                      case None => [])
      ensures State() == if item.track.kind == TRACK_DATA then Remember(old(State()), Cache(item, l)) else old(State())
    {
      SymbolsShape(code, item, l);
      out := [];
      var alias := FindByTrack(subs, item.track);
      if alias.Some? {
        out := SendSymbols(code, item, alias.value, l, paths, times);
      }
      if item.track.kind == TRACK_DATA {
        sent[next] := Some(Cache(item, l));
        next := (next + 1) % SENT_CACHE_SIZE;
      }
    }

    method FindCached(track: TrackId, groupId: nat, objectId: nat) returns (i: nat)
      requires Valid()
      ensures i == IndexOfCached(sent[..], track, groupId, objectId)
    {
      i := 0;
      while i < sent.Length && !Matches(sent[i], track, groupId, objectId)
        invariant i <= sent.Length
        invariant forall j :: 0 <= j < i ==> !Matches(sent[j], track, groupId, objectId)
      {
        i := i + 1;
      }
      assert |sent[..]| == sent.Length;
      assert i < sent.Length ==> Matches(sent[..][i], track, groupId, objectId);
    }

    /** The 0x08 branch of parse_control_messages. */
    method OnNack(code: Code, subs: seq<Entry>, alias: byte, groupId: nat, objectId: nat,
                  missing: seq<nat>, times: seq<u64>) returns (out: seq<Block>)
      requires Valid() && Lawful(code) && RingShape(code, State().slots) && |times| == |missing|
      ensures out == HandleNack(code, State().slots, subs, alias, groupId, objectId, missing, times)
    {
      var track := TracksImpl.FindTrack(subs, alias);
      if track.None? {
        return [];
      }
      var i := FindCached(track.value, groupId, objectId);
      if i == sent.Length {
        return [];
      }
      var c := sent[i].value;
      out := AnswerAll(code, c, alias, Asked(missing), Asked(times));
    }
  }

  lemma AnswersNext(code: Code, c: Cached, alias: byte, missing: seq<nat>, times: seq<u64>, n: nat, one: seq<Block>)
    requires c.dataSymbols <= c.total == |RepairSymbols(code, c)| && n < |missing| == |times|
    requires one == if missing[n] >= c.total then []
                    else [HeaderBytes(RepairHeader(c, alias, missing[n], times[n]))
                          + RepairSymbols(code, c)[missing[n]]]
    ensures Answers(code, c, alias, missing[..n + 1], times[..n + 1]) ==
            Answers(code, c, alias, missing[..n], times[..n]) + one
  {
    assert missing[..n + 1][..n] == missing[..n] && times[..n + 1][..n] == times[..n];
  }

  /** The answer for one requested index. */
  method AnswerOne(c: Cached, alias: byte, s: nat, time: u64, blocks: seq<Block>, parity: seq<Block>)
    returns (out: seq<Block>)
    requires c.dataSymbols == |blocks| && c.total == |blocks + parity|
    ensures out == if s >= c.total then [] else [HeaderBytes(RepairHeader(c, alias, s, time)) + (blocks + parity)[s]]
  {
    out := [];
    if s < c.total {
      var header := HeaderBytes(RepairHeader(c, alias, s, time));
      if s < c.dataSymbols {
        out := [header + blocks[s]];
      } else {
        out := [header + parity[s - c.dataSymbols]];
      }
    }
  }

  method AnswerAll(code: Code, c: Cached, alias: byte, missing: seq<nat>, times: seq<u64>) returns (out: seq<Block>)
    requires Lawful(code) && c.dataSymbols <= c.total == |RepairSymbols(code, c)| && |times| == |missing|
    ensures out == Answers(code, c, alias, missing, times)
  {
    var blocks := BlocksForRepair(c.data, c.dataSymbols, c.symbolSize);
    var parity := Parity(code, RepairParams(c), blocks);
    assert RepairSymbols(code, c) == blocks + parity;
    out := [];
    for n := 0 to |missing|
      invariant out == Answers(code, c, alias, missing[..n], times[..n])
    {
      var one := AnswerOne(c, alias, missing[n], times[n], blocks, parity);
      AnswersNext(code, c, alias, missing, times, n, one);
      out := out + one;
    }
    assert missing[..|missing|] == missing && times[..|missing|] == times;
  }
}
