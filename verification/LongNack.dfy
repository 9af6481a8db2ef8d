/** What a NACK of more than 256 indices does behind its 256th. The parser takes the first 256, goes on at the bytes
    of the others, and reads them as control messages. */
module LongNack {
  import opened Bytes
  import opened Tracks
  import opened Codec
  import opened Session
  import opened Aliases
  import opened Gate
  import SP = StreamParser

  /** n indices in a row. */
  function Listed(from: nat, n: nat): (r: seq<nat>)
    ensures |r| == n && forall i :: 0 <= i < n ==> r[i] == from + i
  {
    seq(n, i => from + i)
  }

  lemma ListedShorter(from: nat, n: nat, k: nat)
    requires k <= n
    ensures Listed(from, n)[..k] == Listed(from, k) && Listed(from, n)[k..] == Listed(from + k, n - k)
  {}

  lemma {:induction false} IndexBytesSplit(missing: seq<nat>, n: nat)
    requires n <= |missing|
    ensures IndexBytes(missing) == IndexBytes(missing[..n]) + IndexBytes(missing[n..])
  {
    if n == 0 {
      assert missing[0..] == missing && missing[..0] == [];
    } else {
      IndexBytesSplit(missing[1..], n - 1);
      assert missing[..n][1..] == missing[1..][..n - 1] && missing[1..][n - 1..] == missing[n..];
    }
  }

  /** A NACK handed to the publisher, if its alias means a track. */
  function Taken(subs: seq<Entry>, alias: byte, groupId: nat, objectId: nat, missing: seq<nat>): (r: seq<Effect>)
  {
    if FindByAlias(subs, alias).Some? then [NackTaken(alias, groupId, objectId, missing)] else []
  }

  /** With the gate open, a NACK of any length is handled up to its 256th index, and the bytes of the other indices are
      parsed like whatever follows them. */
  lemma NackRemainder<A(!new)>(react: Reactor<A>, c: Conn<A>, m: Msg, rest: Block)
    requires GateOpen(c) && m.Nack? && Encodable(m)
    ensures var n := if |m.missing| <= 256 then |m.missing| else 256;
            SP.Parse(ControlLoop(react), c, Encode(m) + rest)
            == SP.After(Taken(c.subs, m.alias, m.groupId, m.objectId, m.missing[..n]),
                        SP.Parse(ControlLoop(react), c, IndexBytes(m.missing[n..]) + rest))
  {
    var n := if |m.missing| <= MAX_NACK then |m.missing| else MAX_NACK;
    NackHead(m, rest);
    NackTail(m, rest, n);
    TakesNack(react, c, Encode(m) + rest, 12 + 2 * n, m.(missing := m.missing[..n]));
  }

  /** Where the indices behind the n-th are. */
  lemma NackTail(m: Msg, rest: Block, n: nat)
    requires m.Nack? && Encodable(m) && n <= |m.missing|
    ensures |Encode(m) + rest| >= 12 + 2 * n
    ensures (Encode(m) + rest)[12 + 2 * n..] == IndexBytes(m.missing[n..]) + rest
  {
    var input := Encode(m) + rest;
    NackFields(m, rest);
    IndexBytesSplit(m.missing, n);
    TailOf(input, IndexBytes(m.missing[..n]), IndexBytes(m.missing[n..]), rest);
  }

  lemma TailOf(input: Block, x: Block, y: Block, rest: Block)
    requires |input| >= 12 && input[12..] == (x + y) + rest
    ensures |input| >= 12 + |x| && input[12 + |x|..] == y + rest
  {
    assert input[12 + |x|..] == input[12..][|x|..];
  }

  lemma TakesNack<A(!new)>(react: Reactor<A>, c: Conn<A>, input: Block, size: nat, m: Msg)
    requires input != [] && m.Nack? && DecodeHead(GateOpen(c), input) == Take(size, m)
    ensures size <= |input|
    ensures SP.Parse(ControlLoop(react), c, input)
            == SP.After(Taken(c.subs, m.alias, m.groupId, m.objectId, m.missing),
                        SP.Parse(ControlLoop(react), c, input[size..]))
  {
    assert ControlLoop(react)(c, input)
        == SP.Advance(size, c, Taken(c.subs, m.alias, m.groupId, m.objectId, m.missing));
    SP.ParseAdvance(ControlLoop(react), c, input);
  }

  // ----- Indices from 256 on are SUBSCRIBE messages -----

  /** Three indices 256 + x, 257 + x, 258 + x are the six bytes of one SUBSCRIBE message. */
  function Misread(x: nat, n: nat): (ms: seq<Msg>)
    requires x + n <= 256
    ensures |ms| == n / 3
    decreases n
  {
    if n < 3 then [] else [Msg.Subscribe(x, 1, x + 1, [x + 2])] + Misread(x + 3, n - 3)
  }

  lemma HighByteIsOne(x: nat)
    requires x < 256
    ensures Be16(256 + x) == [1, x]
  {}

  lemma SixBytes(x: nat)
    requires x + 2 < 256
    ensures IndexBytes(Listed(256 + x, 3)) == [1, x, 1, x + 1, 1, x + 2]
  {
    var three := Listed(256 + x, 3);
    HighByteIsOne(x);
    HighByteIsOne(x + 1);
    HighByteIsOne(x + 2);
    assert three[1..][1..][1..] == [] && three[1..][1..][0] == 256 + x + 2 && three[1..][0] == 256 + x + 1;
    assert IndexBytes(three[1..][1..]) == [1, x + 2];
    assert IndexBytes(three[1..]) == [1, x + 1, 1, x + 2];
  }

  lemma ThreeIndices(x: nat, n: nat)
    requires x + n <= 256
    ensures n > 0 ==> IndexBytes(Listed(256 + x, n))[0] == 1
    ensures n >= 3 ==>
              var m := Msg.Subscribe(x, 1, x + 1, [x + 2]);
              Encodable(m) && IndexBytes(Listed(256 + x, n)) == Encode(m) + IndexBytes(Listed(256 + x + 3, n - 3))
  {
    if n >= 3 {
      IndexBytesSplit(Listed(256 + x, n), 3);
      ListedShorter(256 + x, n, 3);
      SixBytes(x);
    }
  }

  /** The bytes of n indices from 256 + x on have been parsed as the messages, with the last indices left. */
  ghost predicate ParsedAs<A(!new)>(react: Reactor<A>, c: Conn<A>, input: Block, ms: seq<Msg>, rest: Block) {
    var a := ApplyAll(react, c, ms);
    SP.Parse(ControlLoop(react), c, input) == SP.Parsed(a.conn, a.effects, rest)
  }

  lemma OneMoreParsed<A(!new)>(react: Reactor<A>, c: Conn<A>, m: Msg, input: Block, ms: seq<Msg>, rest: Block)
    requires GateOpen(c) && Encodable(m) && WithinLimits(m)
    requires ParsedAs(react, Apply(react, c, m).conn, input, ms, rest)
    ensures ParsedAs(react, c, Encode(m) + input, [m] + ms, rest)
  {
    OneParsed(react, c, m, input);
    assert ([m] + ms)[1..] == ms;
  }

  lemma SameLast(x: nat, n: nat)
    requires n >= 3
    ensures LastIndices(x, n) == LastIndices(x + 3, n - 3)
  {
    assert (n - 3) % 3 == n % 3;
  }

  lemma {:induction false} RangeParses<A(!new)>(react: Reactor<A>, c: Conn<A>, x: nat, n: nat)
    requires GateOpen(c) && x + n <= 256
    ensures ParsedAs(react, c, IndexBytes(Listed(256 + x, n)), Misread(x, n), LastIndices(x, n))
    decreases n
  {
    var input := IndexBytes(Listed(256 + x, n));
    ThreeIndices(x, n);
    if n >= 3 {
      var m := Msg.Subscribe(x, 1, x + 1, [x + 2]);
      var a := Apply(react, c, m);
      ApplyGate(react, c, m);
      RangeParses(react, a.conn, x + 3, n - 3);
      SameLast(x, n);
      OneMoreParsed(react, c, m, IndexBytes(Listed(256 + x + 3, n - 3)), Misread(x + 3, n - 3), LastIndices(x, n));
    } else if n > 0 {
      assert LastIndices(x, n) == input;
      TooShort(react, c, input);
    }
  }

  /** The bytes of the last n % 3 indices. */
  function LastIndices(x: nat, n: nat): (r: Block)
    ensures |r| <= 4
  {
    IndexBytes(Listed(256 + x + n - n % 3, n % 3))
  }

  lemma OneParsed<A(!new)>(react: Reactor<A>, c: Conn<A>, m: Msg, rest: Block)
    requires GateOpen(c) && Encodable(m) && WithinLimits(m)
    ensures var a := Apply(react, c, m);
            GateOpen(a.conn) && SP.Parse(ControlLoop(react), c, Encode(m) + rest)
              == SP.After(a.effects, SP.Parse(ControlLoop(react), a.conn, rest))
  {
    var input := Encode(m) + rest;
    var a := Apply(react, c, m);
    HeadRoundTrip(m, rest);
    ApplyGate(react, c, m);
    assert input[|Encode(m)|..] == rest;
    assert ControlLoop(react)(c, input) == SP.Advance(|Encode(m)|, a.conn, a.effects);
    SP.ParseAdvance(ControlLoop(react), c, input);
  }

  lemma TooShort<A(!new)>(react: Reactor<A>, c: Conn<A>, input: Block)
    requires 0 < |input| < 5 && input[0] == 1
    ensures SP.Parse(ControlLoop(react), c, input) == SP.Parsed(c, [], input)
  {
    assert ControlLoop(react)(c, input) == SP.Wait;
  }

  /** A NACK that lists 0 to 255 + n is parsed as a NACK of 256 indices and n / 3 SUBSCRIBE messages that nobody sent;
      up to four bytes stay unread and become part of the message that follows. */
  lemma LongNackSubscribes<A(!new)>(react: Reactor<A>, c: Conn<A>, alias: byte, groupId: nat, objectId: nat, n: nat)
    requires GateOpen(c) && groupId < 0x1_0000_0000 && objectId < 0x1_0000_0000 && n <= 256
    ensures var m := Nack(alias, groupId, objectId, Listed(0, 256 + n));
            var first := Taken(c.subs, alias, groupId, objectId, Listed(0, 256));
            var a := ApplyAll(react, c, Misread(0, n));
            Encodable(m) && SP.Parse(ControlLoop(react), c, Encode(m))
              == SP.Parsed(a.conn, first + a.effects, LastIndices(0, n))
  {
    ListedEncodable(alias, groupId, objectId, n);
    FirstRange(react, c, 0, n);
    LongNackParses(react, c, Nack(alias, groupId, objectId, Listed(0, 256 + n)), Listed(0, 256), Listed(256, n),
                   Misread(0, n), LastIndices(0, n));
  }

  lemma FirstRange<A(!new)>(react: Reactor<A>, c: Conn<A>, x: nat, n: nat)
    requires GateOpen(c) && x == 0 && n <= 256
    ensures ParsedAs(react, c, IndexBytes(Listed(256, n)), Misread(x, n), LastIndices(x, n))
  {
    RangeParses(react, c, x, n);
    assert Listed(256 + x, n) == Listed(256, n);
  }

  lemma ListedEncodable(alias: byte, groupId: nat, objectId: nat, n: nat)
    requires groupId < 0x1_0000_0000 && objectId < 0x1_0000_0000 && n <= 256
    ensures Encodable(Nack(alias, groupId, objectId, Listed(0, 256 + n)))
    ensures Listed(0, 256 + n) == Listed(0, 256) + Listed(256, n)
  {}

  lemma LongNackParses<A(!new)>(react: Reactor<A>, c: Conn<A>, m: Msg, first: seq<nat>, more: seq<nat>,
                                ms: seq<Msg>, last: Block)
    requires GateOpen(c) && m.Nack? && Encodable(m) && m.missing == first + more && |first| == MAX_NACK
    requires ParsedAs(react, c, IndexBytes(more), ms, last)
    ensures var taken := Taken(c.subs, m.alias, m.groupId, m.objectId, first);
            var a := ApplyAll(react, c, ms);
            SP.Parse(ControlLoop(react), c, Encode(m)) == SP.Parsed(a.conn, taken + a.effects, last)
  {
    NackRemainder(react, c, m, []);
    assert Encode(m) + [] == Encode(m);
    assert IndexBytes(more) + [] == IndexBytes(more);
    assert m.missing[..MAX_NACK] == first && m.missing[MAX_NACK..] == more;
    assert |m.missing| <= MAX_NACK ==> more == [] && m.missing[..|m.missing|] == first;
  }

  // ----- They use up the publisher's table -----

  predicate NoneOfKind(subs: seq<Entry>, kind: byte, x: nat) {
    forall i :: 0 <= i < |subs| && subs[i].active && subs[i].track.kind == kind ==>
      |subs[i].track.name| == 1 && subs[i].track.name[0] < x
  }

  /** The entries in use when n more have been asked for. */
  function UsedAfter(subs: seq<Entry>, n: nat): (used: nat)
  {
    if IndexOfFree(subs) + n < |subs| then IndexOfFree(subs) + n else |subs|
  }

  /** The next misread message takes the next free entry. */
  lemma MisreadTakesEntry(subs: seq<Entry>, x: nat)
    requires Packed(subs) && NoneOfKind(subs, 1, x) && x + 2 < 256
    ensures var r := Add(subs, 1, x + 1, [x + 2], x);
            && Packed(r) && NoneOfKind(r, 1, x + 3)
            && forall n: nat :: UsedAfter(r, n) == UsedAfter(subs, n + 1)
  {
    assert !In(subs, 1, [x + 2]);
    if !Full(subs) {
      AddFresh(subs, 1, x + 1, [x + 2], x);
    }
  }

  lemma {:induction false} MisreadFills(c: Conn<Daemon>, x: nat, n: nat)
    requires Packed(c.subs) && NoneOfKind(c.subs, 1, x) && x + n <= 256
    ensures var after := ApplyAll(DaemonReact, c, Misread(x, n)).conn.subs;
            |after| == |c.subs| && IndexOfFree(after) == UsedAfter(c.subs, |Misread(x, n)|)
    decreases n
  {
    if n >= 3 {
      MisreadTakesEntry(c.subs, x);
      var a := FirstMisread(c, x, Misread(x + 3, n - 3));
      MisreadFills(a, x + 3, n - 3);
    }
  }

  lemma FirstMisread(c: Conn<Daemon>, x: nat, ms: seq<Msg>) returns (a: Conn<Daemon>)
    requires x + 2 < 256
    ensures a.subs == Add(c.subs, 1, x + 1, [x + 2], x)
    ensures ApplyAll(DaemonReact, c, [Msg.Subscribe(x, 1, x + 1, [x + 2])] + ms).conn
            == ApplyAll(DaemonReact, a, ms).conn
  {
    var m := Msg.Subscribe(x, 1, x + 1, [x + 2]);
    a := Apply(DaemonReact, c, m).conn;
    assert ([m] + ms)[1..] == ms;
  }

  /** A daemon whose table has no track of type 1 handles a NACK for 0 to 255 + n: its table is full afterwards if and
      only if the entries in use and n / 3 more make 32. */
  lemma LongNackFillsIff(c: Conn<Daemon>, alias: byte, groupId: nat, objectId: nat, n: nat)
    requires GateOpen(c) && groupId < 0x1_0000_0000 && objectId < 0x1_0000_0000 && n <= 256
    requires |c.subs| == SUBSCRIPTIONS && Packed(c.subs) && NoneOfKind(c.subs, 1, 0)
    ensures var m := Nack(alias, groupId, objectId, Listed(0, 256 + n));
            && Encodable(m)
            && (Full(SP.Parse(ControlLoop(DaemonReact), c, Encode(m)).state.subs)
                <==> IndexOfFree(c.subs) + n / 3 >= SUBSCRIPTIONS)
  {
    LongNackSubscribes(DaemonReact, c, alias, groupId, objectId, n);
    MisreadFills(c, 0, n);
  }
}
