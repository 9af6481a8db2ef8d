/** What the bytes of a control stream or a track stream mean: the one event each message raises, with its values, and
    what it does to the connection before the callback; said without the parser's own functions. */
module Meaning {
  import opened Bytes
  import opened Tracks
  import opened Codec
  import opened Session
  import opened Gate
  import Aliases
  import SP = StreamParser

  function Calls(calls: seq<Call>): (r: seq<Effect>)
    ensures |r| == |calls| && forall i :: 0 <= i < |r| ==> r[i] == Called(calls[i])
  {
    seq(|calls|, i requires 0 <= i < |calls| => Called(calls[i]))
  }

  /** The bytes in front of `rest` are one message: it leaves the connection as `before`, then raises e; the calls
      which the callback makes are performed; and parsing goes on behind it. */
  ghost predicate Does<A(!new)>(react: Reactor<A>, c: Conn<A>, message: Block, rest: Block, before: Conn<A>, e: Event) {
    var (app, calls) := react(c.app, e);
    SP.Parse(ControlLoop(react), c, message + rest)
    == SP.After([Raised(e)] + Calls(calls),
                SP.Parse(ControlLoop(react), PerformAll(before.(app := app), calls).conn, rest))
  }

  /** The message goes by without any effect. */
  ghost predicate Passes<A(!new)>(react: Reactor<A>, c: Conn<A>, message: Block, rest: Block) {
    SP.Parse(ControlLoop(react), c, message + rest) == SP.Parse(ControlLoop(react), c, rest)
  }

  /** The connection is closed, without any other effect, and the bytes stay unread. */
  ghost predicate Refused<A(!new)>(react: Reactor<A>, c: Conn<A>, input: Block) {
    SP.Parse(ControlLoop(react), c, input) == SP.Parsed(c.(closed := true), [], input)
  }

  lemma AfterNothing<S, E>(p: SP.Parsed<S, E>)
    ensures SP.After([], p) == p
  {}

  lemma TakenParses<A(!new)>(react: Reactor<A>, c: Conn<A>, message: Block, rest: Block, m: Msg)
    requires message != [] && DecodeHead(GateOpen(c), message + rest) == Take(|message|, m)
    ensures var a := Apply(react, c, m);
            SP.Parse(ControlLoop(react), c, message + rest)
            == SP.After(a.effects, SP.Parse(ControlLoop(react), a.conn, rest))
  {
    var input, a := message + rest, Apply(react, c, m);
    assert input[|message|..] == rest;
    assert ControlLoop(react)(c, input) == SP.Advance(|message|, a.conn, a.effects);
    SP.ParseAdvance(ControlLoop(react), c, input);
  }

  lemma RaisedDoes<A(!new)>(react: Reactor<A>, c: Conn<A>, message: Block, rest: Block, m: Msg, before: Conn<A>,
                            e: Event)
    requires message != [] && DecodeHead(GateOpen(c), message + rest) == Take(|message|, m)
    requires Apply(react, c, m) == Raise(react, before, e) && before.app == c.app
    ensures Does(react, c, message, rest, before, e)
  {
    TakenParses(react, c, message, rest, m);
    var (app, calls) := react(c.app, e);
    PerformAllEffects(before.(app := app), calls);
    assert PerformAll(before.(app := app), calls).effects == Calls(calls);
  }

  // ----- One message of the control stream -----

  lemma SubscribeDoes<A(!new)>(react: Reactor<A>, c: Conn<A>, alias: byte, kind: byte, flags: byte, name: Block,
                               rest: Block)
    requires GateOpen(c) && |name| < 64 && 0 !in name
    ensures Does(react, c, Encode(Subscribe(alias, kind, flags, name)), rest,
                 c.(subs := Add(c.subs, kind, flags, name, alias)), Subscribed(TrackId(kind, flags, name)))
  {
    var m := Subscribe(alias, kind, flags, name);
    HeadRoundTrip(m, rest);
    RaisedDoes(react, c, Encode(m), rest, m, c.(subs := Add(c.subs, kind, flags, name, alias)),
               Subscribed(TrackId(kind, flags, name)));
  }

  lemma KeyframeDoes<A(!new)>(react: Reactor<A>, c: Conn<A>, kind: byte, flags: byte, name: Block, rest: Block)
    requires GateOpen(c) && |name| < 64 && 0 !in name
    ensures Does(react, c, Encode(Keyframe(kind, flags, name)), rest, c, KeyframeRequested(TrackId(kind, flags, name)))
  {
    var m := Keyframe(kind, flags, name);
    HeadRoundTrip(m, rest);
    RaisedDoes(react, c, Encode(m), rest, m, c, KeyframeRequested(TrackId(kind, flags, name)));
  }

  /** A unicast of more than 1 MiB closes the connection. */
  lemma UnicastDoes<A(!new)>(react: Reactor<A>, c: Conn<A>, data: Block, rest: Block)
    requires GateOpen(c) && |data| < 0x1_0000_0000
    ensures if |data| <= 1048576
            then Does(react, c, Encode(Unicast(data)), rest, c, Received(TrackId(2, 0, []), data, false))
            else Refused(react, c, Encode(Unicast(data)) + rest)
  {
    var m := Unicast(data);
    UnicastHead(data, rest);
    if |data| <= 1048576 {
      RaisedDoes(react, c, Encode(m), rest, m, c, Received(TrackId(2, 0, []), data, false));
    } else {
      assert ControlLoop(react)(c, Encode(m) + rest) == SP.Stop(c.(closed := true));
    }
  }

  lemma AuthDoes<A(!new)>(react: Reactor<A>, c: Conn<A>, token: Block, rest: Block)
    requires |token| < 0x1_0000
    ensures Does(react, c, Encode(Auth(token)), rest, c, AuthRequested(token))
  {
    var m := Auth(token);
    HeadRoundTrip(m, rest);
    HandshakeUngated(GateOpen(c), Encode(m) + rest);
    RaisedDoes(react, c, Encode(m), rest, m, c, AuthRequested(token));
  }

  /** Whatever side receives it. */
  lemma AuthReplyDoes<A(!new)>(react: Reactor<A>, c: Conn<A>, status: byte, rest: Block)
    ensures Does(react, c, [0x05, status], rest, c.(authenticated := c.authenticated || status == 1),
                 AuthCompleted(status == 1))
  {
    var input: Block := [0x05, status] + rest;
    assert input[0] == 0x05 && input[1] == status;
    RaisedDoes(react, c, [0x05, status], rest, AuthReply(status), if status == 1 then c.(authenticated := true) else c,
               AuthCompleted(status == 1));
  }

  /** A NACK of at most 256 indices is handed over as it was written, if its alias means a track. */
  lemma NackDoes<A(!new)>(react: Reactor<A>, c: Conn<A>, m: Msg, rest: Block)
    requires GateOpen(c) && m.Nack? && Encodable(m) && |m.missing| <= 256
    ensures SP.Parse(ControlLoop(react), c, Encode(m) + rest)
            == SP.After(if FindByAlias(c.subs, m.alias).Some?
                        then [NackTaken(m.alias, m.groupId, m.objectId, m.missing)] else [],
                        SP.Parse(ControlLoop(react), c, rest))
  {
    HeadRoundTrip(m, rest);
    TakenParses(react, c, Encode(m), rest, m);
  }

  /** The bytes of an UNSUBSCRIBE message; its second byte is not looked at. */
  function UnsubscribeBytes(unused: byte, kind: byte, flags: byte, name: Block): (r: Block)
    requires |name| < 64
  {
    [0x02, unused, kind, flags, |name|] + name
  }

  lemma UnsubscribeDoes<A(!new)>(react: Reactor<A>, c: Conn<A>, unused: byte, kind: byte, flags: byte, name: Block,
                                 rest: Block)
    requires GateOpen(c) && |name| < 64 && 0 !in name
    ensures Does(react, c, UnsubscribeBytes(unused, kind, flags, name), rest,
                 c.(subs := Remove(c.subs, kind, name)), Unsubscribed(TrackId(kind, flags, name)))
  {
    var message := UnsubscribeBytes(unused, kind, flags, name);
    NameRoundTrip([0x02, unused, kind, flags, |name|], name, rest);
    RaisedDoes(react, c, message, rest, Unsubscribe(kind, flags, name), c.(subs := Remove(c.subs, kind, name)),
               Unsubscribed(TrackId(kind, flags, name)));
  }

  /** The bytes of an object on the control stream. */
  function ObjectBytes(alias: byte, data: Block): (r: Block)
    requires |data| < 0x1_0000_0000
  {
    [0x07, alias] + Be32(|data|) + data
  }

  lemma ObjectHead(open: bool, alias: byte, data: Block, rest: Block)
    requires |data| < 0x1_0000_0000
    ensures DecodeHead(open, ObjectBytes(alias, data) + rest)
            == if open && |data| <= 1048576 then Take(6 + |data|, ReliableObject(alias, data)) else Refuse
  {
    var input := ObjectBytes(alias, data) + rest;
    assert input[2..] == Be32(|data|) + (data + rest);
    Be32RoundTrip(|data|, data + rest);
    assert input[6..6 + |data|] == data;
  }

  /** An object on the control stream is raised as a keyframe of the track its alias means, marked as reliable and not
      as FEC; under an unknown alias it goes by. More than 1 MiB, or a closed gate, close the connection. */
  lemma ObjectDoes<A(!new)>(react: Reactor<A>, c: Conn<A>, alias: byte, data: Block, rest: Block)
    requires |data| < 0x1_0000_0000
    ensures !GateOpen(c) || |data| > 1048576 ==> Refused(react, c, ObjectBytes(alias, data) + rest)
    ensures GateOpen(c) && |data| <= 1048576 ==> ObjectTaken(react, c, alias, data, rest)
  {
    ObjectHead(GateOpen(c), alias, data, rest);
    if GateOpen(c) && |data| <= 1048576 {
      OpenObjectDoes(react, c, alias, data, rest);
    } else {
      assert ControlLoop(react)(c, ObjectBytes(alias, data) + rest) == SP.Stop(c.(closed := true));
    }
  }

  ghost predicate ObjectTaken<A(!new)>(react: Reactor<A>, c: Conn<A>, alias: byte, data: Block, rest: Block)
    requires |data| < 0x1_0000_0000
  {
    match FindByAlias(c.subs, alias)
    case None => Passes(react, c, ObjectBytes(alias, data), rest)
    case Some(track) =>
      exists flags: byte :: Reliable(flags) && !FecEnabled(flags) && flags / 4 == track.flags / 4 &&
        Does(react, c, ObjectBytes(alias, data), rest, c,
             Received(TrackId(track.kind, flags, track.name), data, true))
  }

  lemma OpenObjectDoes<A(!new)>(react: Reactor<A>, c: Conn<A>, alias: byte, data: Block, rest: Block)
    requires GateOpen(c) && |data| <= 1048576
    ensures ObjectTaken(react, c, alias, data, rest)
  {
    ObjectHead(true, alias, data, rest);
    match FindByAlias(c.subs, alias)
    case None =>
      TakenParses(react, c, ObjectBytes(alias, data), rest, ReliableObject(alias, data));
      AfterNothing(SP.Parse(ControlLoop(react), c, rest));
    case Some(track) =>
      var flags := AsReliable(track.flags);
      RaisedDoes(react, c, ObjectBytes(alias, data), rest, ReliableObject(alias, data), c,
                 Received(TrackId(track.kind, flags, track.name), data, true));
  }

  lemma UnknownHead(open: bool, input: Block)
    requires input != [] && (input[0] == 0 || input[0] > 8)
    ensures DecodeHead(open, input) == Take(1, Skip)
  {}

  /** A byte that starts no message is skipped. */
  lemma UnknownPasses<A(!new)>(react: Reactor<A>, c: Conn<A>, kind: byte, rest: Block)
    requires kind == 0 || kind > 8
    ensures Passes(react, c, [kind], rest)
  {
    UnknownHead(GateOpen(c), [kind] + rest);
    SkippedPasses(react, c, [kind], rest);
  }

  lemma SkippedPasses<A(!new)>(react: Reactor<A>, c: Conn<A>, message: Block, rest: Block)
    requires |message| == 1 && DecodeHead(GateOpen(c), message + rest) == Take(1, Skip)
    ensures Passes(react, c, message, rest)
  {
    TakenParses(react, c, message, rest, Skip);
    AfterNothing(SP.Parse(ControlLoop(react), c, rest));
  }

  /** With the gate closed every message but the handshake closes the connection, without any other effect, and stays
      unread. */
  lemma ClosedGateRefuses<A(!new)>(react: Reactor<A>, c: Conn<A>, m: Msg, rest: Block)
    requires !GateOpen(c) && Encodable(m) && !m.Auth? && !m.AuthReply?
    ensures Refused(react, c, Encode(m) + rest)
  {
    ClosedHead(m, rest);
    assert ControlLoop(react)(c, Encode(m) + rest) == SP.Stop(c.(closed := true));
  }

  lemma ClosedUnicast(data: Block, rest: Block)
    requires Encodable(Unicast(data))
    ensures DecodeHead(false, Encode(Unicast(data)) + rest) == Refuse
  {
    var input := Encode(Unicast(data)) + rest;
    assert input[1..] == Be32(|data|) + (data + rest);
    Be32RoundTrip(|data|, data + rest);
  }

  lemma ClosedHead(m: Msg, rest: Block)
    requires Encodable(m) && !m.Auth? && !m.AuthReply?
    ensures DecodeHead(false, Encode(m) + rest) == Refuse
  {
    var input := Encode(m) + rest;
    match m
    case Unicast(data) => ClosedUnicast(data, rest);
    case Nack(_, _, _, _) => NackFields(m, rest);
    case Subscribe(_, _, _, name) => assert input[0] == 0x01 && |input| >= 5;
    case Keyframe(_, _, name) => assert input[0] == 0x06 && |input| >= 5;
  }

  /** A message that has not arrived whole has no effect and stays unread. */
  lemma PartWaits<A(!new)>(react: Reactor<A>, c: Conn<A>, m: Msg, n: nat)
    requires GateOpen(c) && Encodable(m) && WithinLimits(m) && n < |Encode(m)|
    ensures SP.Parse(ControlLoop(react), c, Encode(m)[..n]) == SP.Parsed(c, [], Encode(m)[..n])
  {
    var part := Encode(m)[..n];
    if n > 0 {
      PartialHead(m, n);
      assert ControlLoop(react)(c, part) == SP.Wait;
    }
  }

  lemma PartialHead(m: Msg, n: nat)
    requires Encodable(m) && WithinLimits(m) && 0 < n < |Encode(m)|
    ensures DecodeHead(true, Encode(m)[..n]) == Wait
  {
    HeadRoundTrip(m, []);
    assert Encode(m) + [] == Encode(m);
    var part, more := Encode(m)[..n], Encode(m)[n..];
    assert part + more == Encode(m);
    if DecodeHead(true, part) != Wait {
      HeadStable(true, part, more);
    }
  }

  /** With the gate closed, five bytes of a SUBSCRIBE, UNSUBSCRIBE or keyframe request are enough to close the
      connection. */
  lemma ClosedEarly<A(!new)>(react: Reactor<A>, c: Conn<A>, input: Block)
    requires !GateOpen(c) && |input| >= 5 && (input[0] == 0x01 || input[0] == 0x02 || input[0] == 0x06)
    ensures Refused(react, c, input)
  {
    assert ControlLoop(react)(c, input) == SP.Stop(c.(closed := true));
  }

  /** A name is taken up to its first NUL byte, and no more than 63 bytes of it. */
  lemma NameIsCut(s: Block)
    ensures var r := NameOf(s);
            && r <= s && |r| <= 63 && 0 !in r
            && (|r| == |s| || |r| == 63 || s[|r|] == 0)
  {
    var front := if |s| < 63 then s else s[..63];
    CStringIsPrefix(front);
  }

  lemma {:induction false} CStringIsPrefix(s: Block)
    ensures var r := CString(s); r <= s && (|r| == |s| || s[|r|] == 0)
  {
    if s != [] && s[0] != 0 {
      CStringIsPrefix(s[1..]);
      assert s == [s[0]] + s[1..];
    }
  }

  /** The bytes of one message of each type. */
  lemma WireExamples()
    ensures Encode(Subscribe(9, 4, 2, [97])) == [0x01, 9, 4, 2, 1, 97]
    ensures Encode(Unicast([7])) == [0x03, 0, 0, 0, 1, 7]
    ensures Encode(Auth([7, 8])) == [0x04, 0, 2, 7, 8]
    ensures Encode(AuthReply(1)) == [0x05, 1]
    ensures Encode(Keyframe(4, 2, [97])) == [0x06, 0, 4, 2, 1, 97]
  {}

  lemma NackExample()
    ensures Encode(Nack(8, 0, 5, [1, 258])) == [0x08, 8, 0, 0, 0, 0, 0, 0, 0, 5, 0, 2, 0, 1, 1, 2]
  {
    var missing: seq<nat> := [1, 258];
    assert missing[1..] == [258] && missing[1..][1..] == [];
    assert IndexBytes(missing[1..]) == [1, 2];
    assert IndexBytes(missing) == [0, 1, 1, 2];
  }

  // ----- A whole control stream, whatever the callback does -----

  /** The events among the effects, in order. */
  function Events(effects: seq<Effect>): (r: seq<Event>)
  {
    if effects == [] then []
    else (if effects[0].Raised? then [effects[0].event] else []) + Events(effects[1..])
  }

  lemma {:induction false} EventsConcat(a: seq<Effect>, b: seq<Effect>)
    ensures Events(a + b) == Events(a) + Events(b)
  {
    if a == [] {
      assert a + b == b && Events(a) == [];
      assert [] + Events(b) == Events(b);
    } else {
      EventsConcat(a[1..], b);
      EventsFirst(a + b);
      EventsFirst(a);
      assert (a + b)[1..] == a[1..] + b && (a + b)[0] == a[0];
      Regroup(if a[0].Raised? then [a[0].event] else [], Events(a[1..]), Events(b));
    }
  }

  lemma EventsFirst(effects: seq<Effect>)
    requires effects != []
    ensures Events(effects) == (if effects[0].Raised? then [effects[0].event] else []) + Events(effects[1..])
  {}

  lemma {:induction false} NoEvents(effects: seq<Effect>)
    requires forall i :: 0 <= i < |effects| ==> !effects[i].Raised?
    ensures Events(effects) == []
  {
    if effects != [] {
      NoEvents(effects[1..]);
    }
  }

  lemma RaiseEvents<A>(react: Reactor<A>, c: Conn<A>, e: Event)
    ensures Events(Raise(react, c, e).effects) == [e]
  {
    var (app, calls) := react(c.app, e);
    var after := PerformAll(c.(app := app), calls);
    PerformAllEffects(c.(app := app), calls);
    EventsConcat([Raised(e)], after.effects);
    NoEvents(after.effects);
    assert [Raised(e)][1..] == [];
  }

  /** A message with nothing behind it. */
  lemma DoesAlone<A(!new)>(react: Reactor<A>, c: Conn<A>, message: Block, before: Conn<A>, e: Event, app: A,
                           calls: seq<Call>)
    requires Does(react, c, message, [], before, e) && react(c.app, e) == (app, calls)
    ensures var p := SP.Parse(ControlLoop(react), c, message);
            p.state == PerformAll(before.(app := app), calls).conn && p.rest == [] && Events(p.effects) == [e]
  {
    assert message + [] == message;
    assert [Raised(e)] + Calls(calls) + [] == [Raised(e)] + Calls(calls);
    EventsConcat([Raised(e)], Calls(calls));
    NoEvents(Calls(calls));
    EventsFirst([Raised(e)]);
    assert [Raised(e)][1..] == [];
  }

  /** The event a message stands for; a NACK is for the publisher and raises none. */
  function Says(m: Msg): (r: seq<Event>)
  {
    match m
    case Subscribe(_, kind, flags, name) => [Subscribed(TrackId(kind, flags, name))]
    case Unsubscribe(kind, flags, name) => [Unsubscribed(TrackId(kind, flags, name))]
    case Keyframe(kind, flags, name) => [KeyframeRequested(TrackId(kind, flags, name))]
    case Unicast(data) => [Received(TrackId(2, 0, []), data, false)]
    case Auth(token) => [AuthRequested(token)]
    case AuthReply(status) => [AuthCompleted(status == 1)]
    case _ => []
  }

  function SaysAll(ms: seq<Msg>): (r: seq<Event>)
  {
    if ms == [] then [] else Says(ms[0]) + SaysAll(ms[1..])
  }

  lemma ApplyEvents<A>(react: Reactor<A>, c: Conn<A>, m: Msg)
    requires Encodable(m)
    ensures Events(Apply(react, c, m).effects) == Says(m)
  {
    match m
    case Subscribe(alias, kind, flags, name) =>
      RaiseEvents(react, c.(subs := Add(c.subs, kind, flags, name, alias)), Subscribed(TrackId(kind, flags, name)));
    case Keyframe(kind, flags, name) => RaiseEvents(react, c, KeyframeRequested(TrackId(kind, flags, name)));
    case Unicast(data) => RaiseEvents(react, c, Received(TrackId(2, 0, []), data, false));
    case Auth(token) => RaiseEvents(react, c, AuthRequested(token));
    case AuthReply(status) =>
      RaiseEvents(react, if status == 1 then c.(authenticated := true) else c, AuthCompleted(status == 1));
    case Nack(_, _, _, _) => NoEvents(Apply(react, c, m).effects);
  }

  lemma {:induction false} ApplyAllEvents<A>(react: Reactor<A>, c: Conn<A>, ms: seq<Msg>)
    requires Sendable(ms)
    ensures Events(ApplyAll(react, c, ms).effects) == SaysAll(ms)
    decreases |ms|
  {
    if ms != [] {
      var a := Apply(react, c, ms[0]);
      ApplyEvents(react, c, ms[0]);
      ApplyAllEvents(react, a.conn, ms[1..]);
      EventsConcat(a.effects, ApplyAll(react, a.conn, ms[1..]).effects);
    }
  }

  /** Whatever the callback does, an open control stream of encoded messages raises exactly the events they stand for,
      in order, and leaves no byte unread. */
  lemma ControlEvents<A(!new)>(react: Reactor<A>, c: Conn<A>, ms: seq<Msg>)
    requires Sendable(ms) && GateOpen(c)
    ensures var p := SP.Parse(ControlLoop(react), c, EncodeAll(ms));
            Events(p.effects) == SaysAll(ms) && p.rest == []
  {
    ControlRoundTrip(react, c, ms);
    ApplyAllEvents(react, c, ms);
  }

  // ----- A track stream, whatever the callback does -----

  /** No call takes an alias away from its track. */
  lemma CallKeepsAlias<A>(c: Conn<A>, call: Call, alias: byte)
    requires FindByAlias(c.subs, alias).Some?
    ensures FindByAlias(Perform(c, call).subs, alias) == FindByAlias(c.subs, alias)
  {
    if call.SubscribeTo? && FindByTrack(c.subs, call.track).None? && alias >= FIRST_NAMED_ALIAS {
      var r := Add(c.subs, call.track.kind, call.track.flags, call.track.name, U8(NextAlias(c.subs)));
      Aliases.AliasIs(r, alias, IndexOfAlias(c.subs, alias));
    }
  }

  lemma {:induction false} CallsKeepAlias<A>(c: Conn<A>, calls: seq<Call>, alias: byte)
    requires FindByAlias(c.subs, alias).Some?
    ensures FindByAlias(PerformAll(c, calls).conn.subs, alias) == FindByAlias(c.subs, alias)
  {
    if calls != [] {
      var n := |calls| - 1;
      CallsKeepAlias(c, calls[..n], alias);
      CallKeepsAlias(PerformAll(c, calls[..n]).conn, calls[n], alias);
    }
  }

  /** What the records of a track stream are to the application. */
  function Objects(track: TrackId, records: seq<Block>): (r: seq<Event>)
    ensures |r| == |records| && forall i :: 0 <= i < |r| ==> r[i] == Received(track, records[i], true)
  {
    seq(|records|, i requires 0 <= i < |records| => Received(track, records[i], true))
  }

  lemma {:induction false} DeliverAllEvents<A>(react: Reactor<A>, c: Conn<A>, alias: byte, records: seq<Block>)
    ensures var effects := DeliverAll(react, c, alias, records).effects;
            match FindByAlias(c.subs, alias)
            case None => effects == [] && DeliverAll(react, c, alias, records).conn == c
            case Some(track) => Events(effects) == Objects(track, records)
    decreases |records|
  {
    if records != [] {
      var a := Deliver(react, c, alias, records[0]);
      match FindByAlias(c.subs, alias)
      case None => DeliverAllEvents(react, c, alias, records[1..]);
      case Some(track) =>
        var e := Received(track, records[0], true);
        var (app, calls) := react(c.app, e);
        RaiseEvents(react, c, e);
        CallsKeepAlias(c.(app := app), calls, alias);
        DeliverAllEvents(react, a.conn, alias, records[1..]);
        EventsConcat(a.effects, DeliverAll(react, a.conn, alias, records[1..]).effects);
        assert Objects(track, records) == [e] + Objects(track, records[1..]);
    }
  }

  /** Whatever the callback does, a track stream raises each of its records once, in order, whole, as a keyframe of
      the track its alias means; under an unknown alias it has no effect at all. */
  lemma TrackEvents<A(!new)>(react: Reactor<A>, c: Conn<A>, alias: byte, records: seq<Block>)
    requires GateOpen(c) && forall i :: 0 <= i < |records| ==> |records[i]| < 0x1_0000_0000
    ensures var p := SP.Parse(TrackLoop(react), TrackState(c, None), [alias] + EncodeRecords(records));
            && p.rest == [] && p.state.alias == Some(alias)
            && match FindByAlias(c.subs, alias)
               case None => p.effects == [] && p.state.conn == c
               case Some(track) =>
                 |Events(p.effects)| == |records| &&
                 forall i :: 0 <= i < |records| ==> Events(p.effects)[i] == Received(track, records[i], true)
  {
    TrackRoundTrip(react, c, alias, records);
    DeliverAllEvents(react, c, alias, records);
  }

  /** With the gate closed, a record closes the connection and stays unread. */
  lemma ClosedTrackRefuses<A(!new)>(react: Reactor<A>, c: Conn<A>, alias: byte, data: Block, rest: Block)
    requires !GateOpen(c) && |data| < 0x1_0000_0000
    ensures SP.Parse(TrackLoop(react), TrackState(c, None), [alias] + (EncodeRecord(data) + rest))
            == SP.Parsed(TrackState(c.(closed := true), Some(alias)), [], EncodeRecord(data) + rest)
  {
    var input, more := [alias] + (EncodeRecord(data) + rest), EncodeRecord(data) + rest;
    assert input[1..] == more;
    assert TrackLoop(react)(TrackState(c, None), input) == SP.Advance(1, TrackState(c, Some(alias)), []);
    assert more == Be32(|data|) + (data + rest);
    Be32RoundTrip(|data|, data + rest);
    assert TrackLoop(react)(TrackState(c, Some(alias)), more)
        == SP.Stop(TrackState(c.(closed := true), Some(alias)));
    SP.ParseAdvance(TrackLoop(react), TrackState(c, None), input);
    AfterNothing(SP.Parse(TrackLoop(react), TrackState(c, Some(alias)), more));
  }
}
