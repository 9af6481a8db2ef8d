/** The 32-byte header in front of every symbol sent as a datagram (fec_packet_header_t). */
module Wire {
  import opened Bytes

  const HEADER_SIZE: nat := 32

  datatype Header = Header(
    alias: byte, keyframe: byte, priority: byte,
    groupId: nat, objectId: nat,
    index: nat, total: nat, dataSymbols: nat, symbolSize: nat,
    originalSize: nat,
    pathId: byte, sendTime: u64)

  /** The values the packed C struct can hold. */
  predicate Fits(h: Header) {
    && h.groupId < 0x1_0000_0000 && h.objectId < 0x1_0000_0000 && h.originalSize < 0x1_0000_0000
    && h.index < 0x1_0000 && h.total < 0x1_0000 && h.dataSymbols < 0x1_0000 && h.symbolSize < 0x1_0000
  }

  function Ids(h: Header): (r: Block)
    ensures |r| == 11 && r[0] == h.alias
  {
    [h.alias, h.keyframe] + [h.priority] + Be32(h.groupId) + Be32(h.objectId)
  }

  function Sizes(h: Header): (r: Block)
    ensures |r| == 8
  {
    Be16(h.index) + Be16(h.total) + Be16(h.dataSymbols) + Be16(h.symbolSize)
  }

  function Trailer(h: Header): (r: Block)
    ensures |r| == 13
  {
    Be32(h.originalSize) + [h.pathId] + Be32(h.sendTime / 0x1_0000_0000) + Be32(h.sendTime)
  }

  function HeaderBytes(h: Header): (r: Block)
    ensures |r| == HEADER_SIZE && r[0] == h.alias
  {
    Ids(h) + Sizes(h) + Trailer(h)
  }

  function ParseHeader(raw: Block): (h: Header)
    requires |raw| >= HEADER_SIZE
    ensures Fits(h)
  {
    Header(raw[0], raw[1], raw[2], FromBe32(raw[3..]), FromBe32(raw[7..]),
           FromBe16(raw[11..]), FromBe16(raw[13..]), FromBe16(raw[15..]), FromBe16(raw[17..]),
           FromBe32(raw[19..]), raw[23],
           FromBe32(raw[24..]) * 0x1_0000_0000 + FromBe32(raw[28..]))
  }

  lemma At32(raw: Block, i: nat, n: nat)
    requires i + 4 <= |raw| && raw[i..i + 4] == Be32(n)
    ensures FromBe32(raw[i..]) == U32(n)
  {
    assert raw[i..] == Be32(n) + raw[i + 4..];
    Be32RoundTrip(n, raw[i + 4..]);
  }

  lemma At16(raw: Block, i: nat, n: nat)
    requires i + 2 <= |raw| && raw[i..i + 2] == Be16(n)
    ensures FromBe16(raw[i..]) == U16(n)
  {
    assert raw[i..] == Be16(n) + raw[i + 2..];
    Be16RoundTrip(n, raw[i + 2..]);
  }

  lemma TwoFields(raw: Block, i: nat, a: Block, b: Block)
    requires i + |a| + |b| <= |raw| && raw[i..i + |a| + |b|] == a + b
    ensures raw[i..i + |a|] == a
    ensures raw[i + |a|..i + |a| + |b|] == b
  {
    var part := raw[i..i + |a| + |b|];
    assert part[..|a|] == raw[i..i + |a|];
    assert part[|a|..] == raw[i + |a|..i + |a| + |b|];
  }

  /** Where four consecutive fields of a buffer lie. */
  lemma FourFields(raw: Block, i: nat, a: Block, b: Block, c: Block, d: Block)
    requires i + |a| + |b| + |c| + |d| <= |raw|
    requires raw[i..i + |a| + |b| + |c| + |d|] == a + b + c + d
    ensures raw[i..i + |a|] == a
    ensures raw[i + |a|..i + |a| + |b|] == b
    ensures raw[i + |a| + |b|..i + |a| + |b| + |c|] == c
    ensures raw[i + |a| + |b| + |c|..i + |a| + |b| + |c| + |d|] == d
  {
    TwoFields(raw, i, a + b + c, d);
    TwoFields(raw, i, a + b, c);
    TwoFields(raw, i, a, b);
  }

  lemma IdsAt(h: Header, raw: Block)
    requires |raw| >= 11 && raw[0..11] == Ids(h)
    ensures raw[0] == h.alias && raw[1] == h.keyframe && raw[2] == h.priority
    ensures FromBe32(raw[3..]) == U32(h.groupId) && FromBe32(raw[7..]) == U32(h.objectId)
  {
    FourFields(raw, 0, [h.alias, h.keyframe], [h.priority], Be32(h.groupId), Be32(h.objectId));
    assert raw[0..2] == [h.alias, h.keyframe] && raw[2..3] == [h.priority];
    At32(raw, 3, h.groupId);
    At32(raw, 7, h.objectId);
  }

  lemma SizesAt(h: Header, raw: Block)
    requires |raw| >= 19 && raw[11..19] == Sizes(h)
    ensures FromBe16(raw[11..]) == U16(h.index) && FromBe16(raw[13..]) == U16(h.total)
    ensures FromBe16(raw[15..]) == U16(h.dataSymbols) && FromBe16(raw[17..]) == U16(h.symbolSize)
  {
    FourFields(raw, 11, Be16(h.index), Be16(h.total), Be16(h.dataSymbols), Be16(h.symbolSize));
    At16(raw, 11, h.index);
    At16(raw, 13, h.total);
    At16(raw, 15, h.dataSymbols);
    At16(raw, 17, h.symbolSize);
  }

  lemma TrailerAt(h: Header, raw: Block)
    requires |raw| >= 32 && raw[19..32] == Trailer(h)
    ensures FromBe32(raw[19..]) == U32(h.originalSize) && raw[23] == h.pathId
    ensures FromBe32(raw[24..]) == U32(h.sendTime / 0x1_0000_0000)
    ensures FromBe32(raw[28..]) == U32(h.sendTime)
  {
    var high := h.sendTime / 0x1_0000_0000;
    FourFields(raw, 19, Be32(h.originalSize), [h.pathId], Be32(high), Be32(h.sendTime));
    assert raw[23..24] == [h.pathId];
    At32(raw, 19, h.originalSize);
    At32(raw, 24, high);
    At32(raw, 28, h.sendTime);
  }

  lemma U64Halves(n: u64)
    ensures U32(n / 0x1_0000_0000) * 0x1_0000_0000 + U32(n) == n
  {}

  /** Every header survives the wire, whatever payload follows it. */
  lemma HeaderRoundTrip(h: Header, payload: Block)
    requires Fits(h)
    ensures ParseHeader(HeaderBytes(h) + payload) == h
  {
    var raw := HeaderBytes(h) + payload;
    assert raw[0..11] == Ids(h);
    assert raw[11..19] == Sizes(h);
    assert raw[19..32] == Trailer(h);
    IdsAt(h, raw);
    SizesAt(h, raw);
    TrailerAt(h, raw);
    U64Halves(h.sendTime);
  }

  /** Where the fields of the packed struct lie, most significant byte first. */
  lemma HeaderLayout(h: Header)
    ensures var raw := HeaderBytes(h);
            && raw[0] == h.alias && raw[1] == h.keyframe && raw[2] == h.priority
            && raw[3..7] == Be32(h.groupId) && raw[7..11] == Be32(h.objectId)
            && raw[11..13] == Be16(h.index) && raw[13..15] == Be16(h.total)
            && raw[15..17] == Be16(h.dataSymbols) && raw[17..19] == Be16(h.symbolSize)
            && raw[19..23] == Be32(h.originalSize) && raw[23] == h.pathId
            && raw[24..28] == Be32(h.sendTime / 0x1_0000_0000) && raw[28..32] == Be32(h.sendTime)
  {
    var raw := HeaderBytes(h);
    assert raw[0..11] == Ids(h) && raw[11..19] == Sizes(h) && raw[19..32] == Trailer(h);
    FourFields(raw, 0, [h.alias, h.keyframe], [h.priority], Be32(h.groupId), Be32(h.objectId));
    FourFields(raw, 11, Be16(h.index), Be16(h.total), Be16(h.dataSymbols), Be16(h.symbolSize));
    FourFields(raw, 19, Be32(h.originalSize), [h.pathId], Be32(h.sendTime / 0x1_0000_0000), Be32(h.sendTime));
    assert raw[0..2] == [h.alias, h.keyframe] && raw[2..3] == [h.priority] && raw[23..24] == [h.pathId];
    assert raw[0] == raw[0..2][0] && raw[1] == raw[0..2][1] && raw[2] == raw[2..3][0] && raw[23] == raw[23..24][0];
  }

  /** The first byte on the wire is the most significant. */
  lemma BigEndian()
    ensures Be16(0x0102) == [1, 2] && Be32(0x0102_0304) == [1, 2, 3, 4]
  {}
}
