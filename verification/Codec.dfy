/** The control-stream and track-stream wire formats: what one parser iteration takes off the front of the buffer,
    and the encoders that produce it. */
module Codec {
  import opened Bytes
  import opened Tracks

  const MAX_PAYLOAD: nat := 1048576
  const MAX_NACK: nat := 256

  datatype Msg =
    | Subscribe(alias: byte, kind: byte, flags: byte, name: Block)
    | Unsubscribe(kind: byte, flags: byte, name: Block)
    | Keyframe(kind: byte, flags: byte, name: Block)
    | Unicast(data: Block)
    | Auth(token: Block)
    | AuthReply(status: byte)
    | ReliableObject(alias: byte, data: Block)
    | Nack(alias: byte, groupId: nat, objectId: nat, missing: seq<nat>)
    | Skip

  /** One iteration: wait for more bytes, close the connection, or take `size` bytes as a message. */
  datatype Head = Wait | Refuse | Take(size: nat, msg: Msg)

  /** A name as a C string: at most 63 bytes are copied, and the first NUL ends it. */
  function CString(s: Block): (r: Block)
    ensures |r| <= |s| && 0 !in r
  {
    if s == [] || s[0] == 0 then [] else [s[0]] + CString(s[1..])
  }

  lemma {:induction false} CStringKeeps(s: Block)
    requires 0 !in s
    ensures CString(s) == s
  {
    if s != [] {
      CStringKeeps(s[1..]);
    }
  }

  function NameOf(s: Block): (r: Block) { CString(if |s| < 63 then s else s[..63]) }

  function Indices(s: Block, n: nat): (r: seq<nat>)
    requires |s| >= 2 * n
    ensures |r| == n
  {
    if n == 0 then [] else [FromBe16(s)] + Indices(s[2..], n - 1)
  }

  /** parse_control_messages on the unread bytes; `open` is !(is_server && !authenticated). */
  function DecodeHead(open: bool, input: Block): (h: Head)
    requires |input| > 0
    ensures h.Take? ==> 0 < h.size <= |input|
  {
    var kind := input[0];
    if kind == 0x01 || kind == 0x02 || kind == 0x06 then
      if |input| < 5 then Wait
      else if !open then Refuse
      else if |input| < 5 + input[4] as int then Wait
      else
        var name := NameOf(input[5..5 + input[4] as int]);
        Take(5 + input[4] as int,
             if kind == 0x01 then Subscribe(input[1], input[2], input[3], name)
             else if kind == 0x02 then Unsubscribe(input[2], input[3], name)
             else Keyframe(input[2], input[3], name))
    else if kind == 0x03 then
      if |input| < 5 then Wait
      else
        var size := FromBe32(input[1..]);
        if size > MAX_PAYLOAD then Refuse
        else if |input| < 5 + size then Wait
        else if !open then Refuse
        else Take(5 + size, Unicast(input[5..5 + size]))
    else if kind == 0x04 then
      if |input| < 3 then Wait
      else
        var size := FromBe16(input[1..]);
        if |input| < 3 + size then Wait else Take(3 + size, Auth(input[3..3 + size]))
    else if kind == 0x05 then
      if |input| < 2 then Wait else Take(2, AuthReply(input[1]))
    else if kind == 0x07 then
      if |input| < 6 then Wait
      else
        var size := FromBe32(input[2..]);
        if size > MAX_PAYLOAD then Refuse
        else if |input| < 6 + size then Wait
        else if !open then Refuse
        else Take(6 + size, ReliableObject(input[1], input[6..6 + size]))
    else if kind == 0x08 then
      if |input| < 12 then Wait
      else
        var count := FromBe16(input[10..]);
        if |input| < 12 + 2 * count then Wait
        else if !open then Refuse
        else
          // The count is clamped before the stream is advanced.
          var n := if count > MAX_NACK then MAX_NACK else count;
          Take(12 + 2 * n, Nack(input[1], FromBe32(input[2..]), FromBe32(input[6..]), Indices(input[12..], n)))
    else Take(1, Skip)
  }

  // ----- More bytes never change a decision -----

  lemma {:induction false} IndicesStable(s: Block, more: Block, n: nat)
    requires |s| >= 2 * n
    ensures Indices(s + more, n) == Indices(s, n)
  {
    if n > 0 {
      assert (s + more)[2..] == s[2..] + more;
      IndicesStable(s[2..], more, n - 1);
    }
  }

  lemma SliceStable(s: Block, more: Block, i: nat, j: nat)
    requires i <= j <= |s|
    ensures (s + more)[i..j] == s[i..j]
    ensures (s + more)[i..] == s[i..] + more
  {}

  lemma Be16Stable(s: Block, more: Block, i: nat)
    requires i + 2 <= |s|
    ensures FromBe16((s + more)[i..]) == FromBe16(s[i..])
  {}

  lemma Be32Stable(s: Block, more: Block, i: nat)
    requires i + 4 <= |s|
    ensures FromBe32((s + more)[i..]) == FromBe32(s[i..])
  {
    Be16Stable(s, more, i);
    Be16Stable(s, more, i + 2);
    assert s[i..][2..] == s[i + 2..] && (s + more)[i..][2..] == (s + more)[i + 2..];
  }

  /** Once the parser takes or refuses, it would do the same with more bytes behind. */
  lemma HeadStable(open: bool, input: Block, more: Block)
    requires |input| > 0 && DecodeHead(open, input) != Wait
    ensures DecodeHead(open, input + more) == DecodeHead(open, input)
  {
    var kind := input[0];
    if kind == 0x01 || kind == 0x02 || kind == 0x06 {
      if open {
        SliceStable(input, more, 5, 5 + input[4] as int);
      }
    } else if kind == 0x03 {
      Be32Stable(input, more, 1);
      var size := FromBe32(input[1..]);
      if size <= MAX_PAYLOAD {
        SliceStable(input, more, 5, 5 + size);
      }
    } else if kind == 0x04 {
      Be16Stable(input, more, 1);
      SliceStable(input, more, 3, 3 + FromBe16(input[1..]));
    } else if kind == 0x07 {
      Be32Stable(input, more, 2);
      var size := FromBe32(input[2..]);
      if size <= MAX_PAYLOAD {
        SliceStable(input, more, 6, 6 + size);
      }
    } else if kind == 0x08 {
      NackHeadStable(open, input, more);
    }
  }

  lemma NackHeadStable(open: bool, input: Block, more: Block)
    requires |input| > 0 && input[0] == 0x08 && DecodeHead(open, input) != Wait
    ensures DecodeHead(open, input + more) == DecodeHead(open, input)
  {
    Be16Stable(input, more, 10);
    Be32Stable(input, more, 2);
    Be32Stable(input, more, 6);
    var count := FromBe16(input[10..]);
    SliceStable(input, more, 12, 12);
    IndicesStable(input[12..], more, if count > MAX_NACK then MAX_NACK else count);
  }

  // ----- The encoders -----

  function IndexBytes(missing: seq<nat>): (r: Block)
    ensures |r| == 2 * |missing|
  {
    if missing == [] then [] else Be16(missing[0]) + IndexBytes(missing[1..])
  }

  /** The messages some function of the transport writes. */
  predicate Encodable(m: Msg) {
    match m
    case Subscribe(_, _, _, name) => |name| < 64 && 0 !in name
    case Keyframe(_, _, name) => |name| < 64 && 0 !in name
    case Unicast(data) => |data| < 0x1_0000_0000
    case Auth(token) => |token| < 0x1_0000
    case AuthReply(status) => status <= 1
    case Nack(_, groupId, objectId, missing) =>
      && groupId < 0x1_0000_0000 && objectId < 0x1_0000_0000 && |missing| < 0x1_0000
      && forall i :: 0 <= i < |missing| ==> missing[i] < 0x1_0000
    case _ => false
  }

  function Encode(m: Msg): (r: Block)
    requires Encodable(m)
    ensures |r| > 0
  {
    match m
    case Subscribe(alias, kind, flags, name) => [0x01, alias, kind, flags, |name|] + name
    case Keyframe(kind, flags, name) => [0x06, 0, kind, flags, |name|] + name
    case Unicast(data) => [0x03] + Be32(|data|) + data
    case Auth(token) => [0x04] + Be16(|token|) + token
    case AuthReply(status) => [0x05, status]
    case Nack(alias, groupId, objectId, missing) =>
      [0x08, alias] + Be32(groupId) + Be32(objectId) + Be16(|missing|) + IndexBytes(missing)
  }

  lemma {:induction false} IndicesRoundTrip(missing: seq<nat>, rest: Block, n: nat)
    requires n <= |missing| && forall i :: 0 <= i < |missing| ==> missing[i] < 0x1_0000
    ensures Indices(IndexBytes(missing) + rest, n) == missing[..n]
  {
    if n > 0 {
      var tail := IndexBytes(missing[1..]) + rest;
      assert IndexBytes(missing) + rest == Be16(missing[0]) + tail;
      Be16RoundTrip(missing[0], tail);
      assert (Be16(missing[0]) + tail)[2..] == tail;
      IndicesRoundTrip(missing[1..], rest, n - 1);
      assert missing[..n] == [missing[0]] + missing[1..][..n - 1];
    }
  }

  lemma NameRoundTrip(lead: Block, name: Block, rest: Block)
    requires |lead| == 5 && lead[4] == |name| && |name| < 64 && 0 !in name
    ensures var input := lead + name + rest;
            input[4] == |name| && NameOf(input[5..5 + |name|]) == name
  {
    var input := lead + name + rest;
    assert input[5..5 + |name|] == name;
    assert name[..|name|] == name;
    CStringKeeps(name);
  }

  lemma NamedHead(m: Msg, rest: Block)
    requires Encodable(m) && (m.Subscribe? || m.Keyframe?)
    ensures DecodeHead(true, Encode(m) + rest) == Take(|Encode(m)|, m)
  {
    var lead: Block := if m.Subscribe? then [0x01, m.alias, m.kind, m.flags, |m.name|]
                       else [0x06, 0, m.kind, m.flags, |m.name|];
    NameRoundTrip(lead, m.name, rest);
    assert Encode(m) + rest == lead + m.name + rest;
  }

  lemma UnicastHead(data: Block, rest: Block)
    requires Encodable(Unicast(data))
    ensures DecodeHead(true, Encode(Unicast(data)) + rest) ==
            if |data| <= MAX_PAYLOAD then Take(|Encode(Unicast(data))|, Unicast(data)) else Refuse
  {
    var input := Encode(Unicast(data)) + rest;
    assert input[1..] == Be32(|data|) + (data + rest);
    Be32RoundTrip(|data|, data + rest);
    assert input[5..5 + |data|] == data;
  }

  lemma AuthHead(token: Block, rest: Block)
    requires Encodable(Auth(token))
    ensures DecodeHead(true, Encode(Auth(token)) + rest) == Take(|Encode(Auth(token))|, Auth(token))
  {
    var input := Encode(Auth(token)) + rest;
    assert input[1..] == Be16(|token|) + (token + rest);
    Be16RoundTrip(|token|, token + rest);
    assert input[3..3 + |token|] == token;
  }

  /** Where the fields of an encoded NACK lie. */
  lemma NackFields(m: Msg, rest: Block)
    requires m.Nack? && Encodable(m)
    ensures var input := Encode(m) + rest;
            && |input| >= 12 + 2 * |m.missing| && input[0] == 0x08 && input[1] == m.alias
            && FromBe32(input[2..]) == m.groupId && FromBe32(input[6..]) == m.objectId
            && FromBe16(input[10..]) == |m.missing| && input[12..] == IndexBytes(m.missing) + rest
  {
    var tail := IndexBytes(m.missing) + rest;
    var c, o, g := Be16(|m.missing|), Be32(m.objectId), Be32(m.groupId);
    var input := Encode(m) + rest;
    assert input == [0x08, m.alias] + (g + (o + (c + tail)));
    assert input[2..] == g + (o + (c + tail));
    assert input[6..] == o + (c + tail);
    assert input[10..] == c + tail;
    assert input[12..] == tail;
    Be32RoundTrip(m.groupId, o + (c + tail));
    Be32RoundTrip(m.objectId, c + tail);
    Be16RoundTrip(|m.missing|, tail);
  }

  /** A NACK of more than 256 indices is read as one of its first 256, and the rest of it is left in the stream. */
  lemma NackHead(m: Msg, rest: Block)
    requires m.Nack? && Encodable(m)
    ensures var n := if |m.missing| <= MAX_NACK then |m.missing| else MAX_NACK;
            DecodeHead(true, Encode(m) + rest) == Take(12 + 2 * n, m.(missing := m.missing[..n]))
  {
    NackFields(m, rest);
    var n := if |m.missing| <= MAX_NACK then |m.missing| else MAX_NACK;
    IndicesRoundTrip(m.missing, rest, n);
  }

  /** The sizes the parser accepts. */
  predicate WithinLimits(m: Msg) {
    && (m.Unicast? ==> |m.data| <= MAX_PAYLOAD)
    && (m.Nack? ==> |m.missing| <= MAX_NACK)
  }

  /** With the gate open, an encoded message is read back whole if and only if it is within the limits. */
  lemma HeadRoundTrip(m: Msg, rest: Block)
    requires Encodable(m)
    ensures DecodeHead(true, Encode(m) + rest) == Take(|Encode(m)|, m) <==> WithinLimits(m)
  {
    match m
    case Subscribe(_, _, _, _) => NamedHead(m, rest);
    case Keyframe(_, _, _) => NamedHead(m, rest);
    case Unicast(data) => UnicastHead(data, rest);
    case Auth(token) => AuthHead(token, rest);
    case AuthReply(_) =>
    case Nack(_, _, _, missing) =>
      NackHead(m, rest);
      if |missing| <= MAX_NACK {
        assert missing[..|missing|] == missing;
      }
  }

  /** The smallest NACK that is not read back: 257 indices. */
  lemma NackOverflow()
    ensures var m := Nack(8, 0, 0, seq(257, i => i));
            Encodable(m) && DecodeHead(true, Encode(m)) != Take(|Encode(m)|, m)
  {
    var m := Nack(8, 0, 0, seq(257, i => i));
    assert Encode(m) + [] == Encode(m);
    HeadRoundTrip(m, []);
  }

  // ----- Track streams -----

  /** A track stream carries one alias byte, then records: a 32-bit length and that many bytes. */
  datatype RecordHead = RecordWait | RecordRefuse | RecordTake(size: nat, data: Block)

  function DecodeRecord(open: bool, input: Block): (h: RecordHead)
    ensures h.RecordTake? ==> 0 < h.size <= |input|
  {
    if |input| < 4 then RecordWait
    else
      var size := FromBe32(input);
      if |input| < 4 + size then RecordWait
      else if !open then RecordRefuse
      else RecordTake(4 + size, input[4..4 + size])
  }

  /** The code computes the shift in 32 bits, which is exact if and only if the announced size leaves room for the four
      length bytes; below 4 GiB of unread bytes it always does. */
  lemma RecordShiftExact(open: bool, input: Block)
    requires DecodeRecord(open, input).RecordTake?
    ensures U32(4 + FromBe32(input)) == DecodeRecord(open, input).size <==> FromBe32(input) < 0xFFFF_FFFC
    ensures |input| < 0x1_0000_0000 ==> FromBe32(input) < 0xFFFF_FFFC
  {}

  function EncodeRecord(data: Block): (r: Block)
    ensures |r| == 4 + |data|
  {
    Be32(|data|) + data
  }

  lemma RecordStable(open: bool, input: Block, more: Block)
    requires DecodeRecord(open, input) != RecordWait
    ensures DecodeRecord(open, input + more) == DecodeRecord(open, input)
  {
    Be32Stable(input, more, 0);
    assert input[0..] == input && (input + more)[0..] == input + more;
    SliceStable(input, more, 4, 4 + FromBe32(input));
  }

  lemma RecordRoundTrip(data: Block, rest: Block)
    requires |data| < 0x1_0000_0000
    ensures DecodeRecord(true, EncodeRecord(data) + rest) == RecordTake(4 + |data|, data)
  {
    var input := EncodeRecord(data) + rest;
    assert input == Be32(|data|) + (data + rest);
    Be32RoundTrip(|data|, data + rest);
    assert input[4..4 + |data|] == data;
  }
}
