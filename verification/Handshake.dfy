/** Two daemons from the token to working tracks, byte by byte: what each writes on the control stream is what the other
    parses. */
module Handshake {
  import opened Bytes
  import opened ErasureCode
  import opened Tracks
  import opened Codec
  import opened Session
  import opened Gate
  import opened Meaning
  import opened Protocol
  import Aliases
  import Duplex
  import SP = StreamParser

  type Request = Aliases.Request

  // ----- What the functions an application calls write -----

  /** The reply of transport_respond_auth as a message, and what it does to the connection. */
  lemma ReplyWritten<A>(c: Conn<A>, success: bool)
    ensures Perform(c, RespondAuth(success))
            == c.(out := c.out + Encode(AuthReply(if success then 1 else 0)),
                  authenticated := c.authenticated || success, closed := c.closed || !success)
  {}

  lemma CloseDoes<A>(c: Conn<A>)
    ensures Perform(c, CloseConnection) == c.(closed := true)
  {}

  /** Read at the other end, whatever was received there before, the reply raises its verdict and sets the flag if and
      only if it accepts. */
  lemma ReplyRead(c: Conn<Daemon>, success: bool)
    ensures var p := SP.Parse(ControlLoop(DaemonReact), c, Encode(AuthReply(if success then 1 else 0)));
            && Events(p.effects) == [AuthCompleted(success)] && p.rest == []
            && p.state.authenticated == (c.authenticated || success)
  {
    ReplyMessageRead(c, if success then 1 else 0, success);
  }

  lemma ReplyMessageRead(c: Conn<Daemon>, status: byte, success: bool)
    requires status <= 1 && (success <==> status == 1)
    ensures var p := SP.Parse(ControlLoop(DaemonReact), c, Encode(AuthReply(status)));
            && Events(p.effects) == [AuthCompleted(success)] && p.rest == []
            && p.state.authenticated == (c.authenticated || success)
  {
    var calls := if success then Subscriptions(c.app) else [];
    var before := c.(authenticated := c.authenticated || success);
    AuthReplyDoes(DaemonReact, c, status, []);
    DoesAlone(DaemonReact, c, [0x05, status], before, AuthCompleted(success), c.app, calls);
    SubscribingKeeps(before, calls);
  }

  predicate OnlySubscribes(calls: seq<Call>) { forall i :: 0 <= i < |calls| ==> calls[i].SubscribeTo? }

  lemma {:induction false} SubscribingKeeps<A>(c: Conn<A>, calls: seq<Call>)
    requires OnlySubscribes(calls)
    ensures var r := PerformAll(c, calls).conn;
            && r.authenticated == c.authenticated && r.closed == c.closed && r.isServer == c.isServer && r.app == c.app
  {
    if calls != [] {
      SubscribingKeeps(c, calls[..|calls| - 1]);
    }
  }

  predicate Named(name: Block) { |name| < 64 && 0 !in name }

  function MessageOf(r: Request): (m: Msg) { Subscribe(r.alias, r.kind, r.flags, r.name) }

  /** What transport_subscribe writes is the SUBSCRIBE message that the model of the tables puts on its way, and what it
      does to the table is what that model does. */
  lemma SubscribeWritten<A>(c: Conn<A>, track: TrackId, far: seq<Entry>, flight: seq<Request>)
    requires Named(track.name)
    ensures var k := Aliases.Step(Aliases.Link(c.subs, far, flight), Aliases.Subscribe(track));
            && |k.flight| == |flight| + 1 && k.flight[..|flight|] == flight && k.far == far
            && Encodable(MessageOf(k.flight[|flight|]))
            && Perform(c, SubscribeTo(track))
               == c.(subs := k.near, out := c.out + Encode(MessageOf(k.flight[|flight|])))
  {}

  /** transport_subscribe always writes a SUBSCRIBE message for the track, with the alias it has in the table; a track
      that is not in it yet gets one above 7 and above every alias in use, if there is room. */
  lemma SubscribeWrites<A>(c: Conn<A>, track: TrackId) returns (alias: byte)
    requires Named(track.name)
    ensures var r := Perform(c, SubscribeTo(track));
            && r.out == c.out + [0x01, alias, track.kind, track.flags, |track.name|] + track.name
            && (FindByTrack(c.subs, track).Some? ==> FindByTrack(c.subs, track) == Some(alias) && r.subs == c.subs)
            && (FindByTrack(c.subs, track).None? && NextAlias(c.subs) < 256 ==>
                  alias >= 8 && forall i :: 0 <= i < |c.subs| && c.subs[i].active ==> c.subs[i].alias < alias)
            && (FindByTrack(c.subs, track).None? && (exists i :: 0 <= i < |c.subs| && !c.subs[i].active) ==>
                  FindByTrack(r.subs, track) == Some(alias))
  {
    match FindByTrack(c.subs, track)
    case Some(a) =>
      alias := a;
      assert c.out + SubscribeBytes(alias, track)
          == c.out + [0x01, alias, track.kind, track.flags, |track.name|] + track.name;
    case None =>
      alias := U8(NextAlias(c.subs));
      AddExact(c.subs, track.kind, track.flags, track.name, alias);
      assert c.out + SubscribeBytes(alias, track)
          == c.out + [0x01, alias, track.kind, track.flags, |track.name|] + track.name;
  }

  // ----- Lists of messages -----

  function Messages(rs: seq<Request>): (ms: seq<Msg>)
    ensures |ms| == |rs| && forall i :: 0 <= i < |rs| ==> ms[i] == MessageOf(rs[i])
  {
    seq(|rs|, i requires 0 <= i < |rs| => MessageOf(rs[i]))
  }

  predicate Writable(rs: seq<Request>) { forall i :: 0 <= i < |rs| ==> Named(rs[i].name) }

  lemma SendableConcat(a: seq<Msg>, b: seq<Msg>)
    requires Sendable(a) && Sendable(b)
    ensures Sendable(a + b)
  {
    assert forall i :: 0 <= i < |a + b| ==> (a + b)[i] == if i < |a| then a[i] else b[i - |a|];
  }

  lemma EncodeFirst(ms: seq<Msg>)
    requires ms != [] && Sendable(ms)
    ensures Sendable(ms[1..]) && EncodeAll(ms) == Encode(ms[0]) + EncodeAll(ms[1..])
  {}

  lemma {:induction false} EncodeAllConcat(a: seq<Msg>, b: seq<Msg>)
    requires Sendable(a) && Sendable(b)
    ensures Sendable(a + b) && EncodeAll(a + b) == EncodeAll(a) + EncodeAll(b)
  {
    SendableConcat(a, b);
    if a == [] {
      NothingEncoded(a, b);
    } else {
      EncodeAllConcat(a[1..], b);
      TailOfConcat(a, b);
      EncodeConcatStep(a, a + b, EncodeAll(a[1..]), EncodeAll(b));
    }
  }

  lemma TailOfConcat<T>(a: seq<T>, b: seq<T>)
    requires a != []
    ensures a + b != [] && (a + b)[1..] == a[1..] + b && (a + b)[0] == a[0]
  {}

  lemma NothingEncoded(a: seq<Msg>, b: seq<Msg>)
    requires a == [] && Sendable(b)
    ensures a + b == b && EncodeAll(a) + EncodeAll(b) == EncodeAll(b)
  {
    assert a + b == b;
    assert EncodeAll(a) == [];
  }

  lemma EncodeConcatStep(a: seq<Msg>, whole: seq<Msg>, x: Block, y: Block)
    requires a != [] && whole != [] && a[0] == whole[0] && Sendable(a) && Sendable(whole)
    requires Sendable(a[1..]) && EncodeAll(a[1..]) == x && Sendable(whole[1..]) && EncodeAll(whole[1..]) == x + y
    ensures EncodeAll(whole) == EncodeAll(a) + y
  {
    EncodeFirst(a);
    EncodeFirst(whole);
    Regroup(Encode(a[0]), x, y);
  }

  lemma EncodeOne(m: Msg)
    requires Encodable(m) && WithinLimits(m)
    ensures Sendable([m]) && EncodeAll([m]) == Encode(m)
  {
    var ms := [m];
    assert ms[1..] == [];
    assert Encode(m) + [] == Encode(m);
  }

  lemma {:induction false} ApplyAllConcat<A>(react: Reactor<A>, c: Conn<A>, a: seq<Msg>, b: seq<Msg>)
    ensures ApplyAll(react, c, a + b).conn == ApplyAll(react, ApplyAll(react, c, a).conn, b).conn
    decreases |a|
  {
    if a == [] {
      assert a + b == b;
    } else {
      ApplyAllConcat(react, Apply(react, c, a[0]).conn, a[1..], b);
      TailOfConcat(a, b);
      ApplyFirst(react, c, a);
      ApplyFirst(react, c, a + b);
    }
  }

  lemma ApplyFirst<A>(react: Reactor<A>, c: Conn<A>, ms: seq<Msg>)
    requires ms != []
    ensures ApplyAll(react, c, ms).conn == ApplyAll(react, Apply(react, c, ms[0]).conn, ms[1..]).conn
  {}

  // ----- Each end against the model of the two tables -----

  function AskActs(byServer: bool, tracks: seq<TrackId>): (acts: seq<Duplex.Act>)
  {
    seq(|tracks|, i requires 0 <= i < |tracks| => Duplex.Ask(byServer, tracks[i]))
  }

  function TakeActs(byServer: bool, n: nat): (acts: seq<Duplex.Act>) { seq(n, _ => Duplex.Take(byServer)) }

  function AskCalls(tracks: seq<TrackId>): (calls: seq<Call>)
  {
    seq(|tracks|, i requires 0 <= i < |tracks| => SubscribeTo(tracks[i]))
  }

  predicate AllNamed(tracks: seq<TrackId>) { forall i :: 0 <= i < |tracks| ==> Named(tracks[i].name) }

  lemma ReplayNext(acts: seq<Duplex.Act>, act: Duplex.Act)
    ensures Duplex.Replay(acts + [act]) == Duplex.Next(Duplex.Replay(acts), act)
  {
    assert (acts + [act])[..|acts|] == acts;
  }

  /** One end has subscribed: its table is that of the model, the bytes written are the messages that the model has
      put on their way, and nothing else has changed. */
  ghost predicate Wrote<A>(s: Duplex.State, s': Duplex.State, byServer: bool, c: Conn<A>, c': Conn<A>,
                           sent: seq<Request>) {
    && Writable(sent) && Sendable(Messages(sent))
    && c' == c.(subs := Duplex.Self(s', byServer).table, out := c.out + EncodeAll(Messages(sent)))
    && Duplex.Self(s', byServer).inbox == Duplex.Self(s, byServer).inbox
    && Duplex.Self(s', !byServer).table == Duplex.Self(s, !byServer).table
    && Duplex.Self(s', !byServer).inbox == Duplex.Self(s, !byServer).inbox + sent
  }

  lemma {:induction false} AsksWritten<A>(acts: seq<Duplex.Act>, byServer: bool, c: Conn<A>, tracks: seq<TrackId>)
    returns (sent: seq<Request>)
    requires AllNamed(tracks) && c.subs == Duplex.Self(Duplex.Replay(acts), byServer).table
    ensures Wrote(Duplex.Replay(acts), Duplex.Replay(acts + AskActs(byServer, tracks)), byServer,
                  c, PerformAll(c, AskCalls(tracks)).conn, sent)
  {
    if tracks == [] {
      sent := [];
      NothingWritten(Duplex.Replay(acts), byServer, c);
      assert acts + AskActs(byServer, tracks) == acts;
    } else {
      var n := |tracks| - 1;
      var so := acts + AskActs(byServer, tracks[..n]);
      sent := AsksWritten(acts, byServer, c, tracks[..n]);
      sent := AskWritten(Duplex.Replay(acts), Duplex.Replay(so), byServer, c, PerformAll(c, AskCalls(tracks[..n])).conn,
                         sent, tracks[n]);
      OneMoreAsk(acts, byServer, c, tracks);
    }
  }

  lemma NothingWritten<A>(s: Duplex.State, byServer: bool, c: Conn<A>)
    requires c.subs == Duplex.Self(s, byServer).table
    ensures Wrote(s, s, byServer, c, c, [])
  {
    assert c.out + [] == c.out;
    assert Duplex.Self(s, !byServer).inbox + [] == Duplex.Self(s, !byServer).inbox;
  }

  lemma OneMoreAsk<A>(acts: seq<Duplex.Act>, byServer: bool, c: Conn<A>, tracks: seq<TrackId>)
    requires tracks != []
    ensures var n := |tracks| - 1;
            && Duplex.Replay(acts + AskActs(byServer, tracks))
               == Duplex.Next(Duplex.Replay(acts + AskActs(byServer, tracks[..n])), Duplex.Ask(byServer, tracks[n]))
            && PerformAll(c, AskCalls(tracks)).conn
               == Perform(PerformAll(c, AskCalls(tracks[..n])).conn, SubscribeTo(tracks[n]))
  {
    OneMoreAskAct(acts, byServer, tracks);
    OneMoreAskCall(c, tracks);
  }

  lemma OneMoreAskAct(acts: seq<Duplex.Act>, byServer: bool, tracks: seq<TrackId>)
    requires tracks != []
    ensures var n := |tracks| - 1;
            Duplex.Replay(acts + AskActs(byServer, tracks))
            == Duplex.Next(Duplex.Replay(acts + AskActs(byServer, tracks[..n])), Duplex.Ask(byServer, tracks[n]))
  {
    var n := |tracks| - 1;
    var so, ask := acts + AskActs(byServer, tracks[..n]), Duplex.Ask(byServer, tracks[n]);
    AskActsGrow(acts, byServer, tracks);
    ReplayNext(so, ask);
  }

  lemma OneMoreAskCall<A>(c: Conn<A>, tracks: seq<TrackId>)
    requires tracks != []
    ensures var n := |tracks| - 1;
            PerformAll(c, AskCalls(tracks)).conn
            == Perform(PerformAll(c, AskCalls(tracks[..n])).conn, SubscribeTo(tracks[n]))
  {
    assert AskCalls(tracks)[..|tracks| - 1] == AskCalls(tracks[..|tracks| - 1]);
  }

  lemma AskWritten<A>(s: Duplex.State, so: Duplex.State, byServer: bool, c: Conn<A>, now: Conn<A>, front: seq<Request>,
                      track: TrackId) returns (sent: seq<Request>)
    requires Named(track.name) && Wrote(s, so, byServer, c, now, front)
    ensures Wrote(s, Duplex.Next(so, Duplex.Ask(byServer, track)), byServer, c, Perform(now, SubscribeTo(track)), sent)
  {
    var other := Duplex.Self(so, !byServer);
    SubscribeWritten(now, track, other.table, other.inbox);
    var k := Aliases.Step(Aliases.Link(now.subs, other.table, other.inbox), Aliases.Subscribe(track));
    var r := k.flight[|other.inbox|];
    sent := front + [r];
    OneMoreMessage(front, r, c.out);
    Regroup(Duplex.Self(s, !byServer).inbox, front, [r]);
    assert k.flight == other.inbox + [r];
  }

  lemma OneMoreMessage(front: seq<Request>, r: Request, before: Block)
    requires Writable(front) && Sendable(Messages(front)) && Named(r.name)
    ensures var sent := front + [r];
            && Writable(sent) && Sendable(Messages(sent)) && Encodable(MessageOf(r))
            && (before + EncodeAll(Messages(front))) + Encode(MessageOf(r)) == before + EncodeAll(Messages(sent))
  {
    var sent := front + [r];
    assert Messages(sent) == Messages(front) + [MessageOf(r)];
    EncodeOne(MessageOf(r));
    EncodeAllConcat(Messages(front), [MessageOf(r)]);
    Regroup(before, EncodeAll(Messages(front)), Encode(MessageOf(r)));
  }

  /** Handling the messages on their way: the table is that of the model, and nothing else changes. */
  lemma {:induction false} TakesApplied(acts: seq<Duplex.Act>, byServer: bool, c: Conn<Daemon>, inbox: seq<Request>)
    requires c.subs == Duplex.Self(Duplex.Replay(acts), byServer).table
    requires inbox == Duplex.Self(Duplex.Replay(acts), byServer).inbox
    ensures var s, s' := Duplex.Replay(acts), Duplex.Replay(acts + TakeActs(byServer, |inbox|));
            && ApplyAll(DaemonReact, c, Messages(inbox)).conn == c.(subs := Duplex.Self(s', byServer).table)
            && Duplex.Self(s', byServer).inbox == [] && Duplex.Self(s', !byServer) == Duplex.Self(s, !byServer)
    decreases |inbox|
  {
    if inbox == [] {
      assert acts + TakeActs(byServer, |inbox|) == acts;
    } else {
      var next := TakeStep(acts, byServer, c, inbox);
      TakesApplied(acts + [Duplex.Take(byServer)], byServer, next, inbox[1..]);
    }
  }

  lemma TakeStep(acts: seq<Duplex.Act>, byServer: bool, c: Conn<Daemon>, inbox: seq<Request>)
    returns (next: Conn<Daemon>)
    requires c.subs == Duplex.Self(Duplex.Replay(acts), byServer).table
    requires inbox == Duplex.Self(Duplex.Replay(acts), byServer).inbox && inbox != []
    ensures var s, s' := Duplex.Replay(acts), Duplex.Replay(acts + [Duplex.Take(byServer)]);
            && next == c.(subs := Duplex.Self(s', byServer).table) && Duplex.Self(s', byServer).inbox == inbox[1..]
            && Duplex.Self(s', !byServer) == Duplex.Self(s, !byServer)
    ensures ApplyAll(DaemonReact, c, Messages(inbox)).conn == ApplyAll(DaemonReact, next, Messages(inbox[1..])).conn
    ensures acts + TakeActs(byServer, |inbox|) == (acts + [Duplex.Take(byServer)]) + TakeActs(byServer, |inbox[1..]|)
  {
    var r := inbox[0];
    next := c.(subs := Add(c.subs, r.kind, r.flags, r.name, r.alias));
    TakeApplied(c, r);
    ApplyFirst(DaemonReact, c, Messages(inbox));
    assert Messages(inbox)[1..] == Messages(inbox[1..]);
    ReplayNext(acts, Duplex.Take(byServer));
    OneMoreTake(acts, byServer, |inbox|);
  }

  lemma OneMoreTake(acts: seq<Duplex.Act>, byServer: bool, n: nat)
    requires n > 0
    ensures acts + TakeActs(byServer, n) == (acts + [Duplex.Take(byServer)]) + TakeActs(byServer, n - 1)
  {
    assert TakeActs(byServer, n) == [Duplex.Take(byServer)] + TakeActs(byServer, n - 1);
    Regroup(acts, [Duplex.Take(byServer)], TakeActs(byServer, n - 1));
  }

  lemma TakeApplied(c: Conn<Daemon>, r: Request)
    ensures Apply(DaemonReact, c, MessageOf(r)).conn == c.(subs := Add(c.subs, r.kind, r.flags, r.name, r.alias))
  {}

  // ----- The three legs -----

  /** The tracks a daemon subscribes to: DATA tracks, with FEC or as a reliable stream. */
  function TracksOf(d: Daemon): (tracks: seq<TrackId>)
    ensures |tracks| == |d.tracks|
    ensures forall i :: 0 <= i < |tracks| ==> tracks[i] == TrackId(4, if d.useReliable then 1 else 2, d.tracks[i])
  {
    seq(|d.tracks|, i requires 0 <= i < |d.tracks| => TrackId(4, if d.useReliable then 1 else 2, d.tracks[i]))
  }

  lemma SubscriptionsAre(d: Daemon)
    ensures Subscriptions(d) == AskCalls(TracksOf(d))
  {}

  /** A connection nothing has happened on; a track name is a C string of at most 63 bytes. */
  predicate New(c: Conn<Daemon>, isServer: bool) {
    && c.isServer == c.app.isServer == isServer && !c.authenticated && !c.closed && c.subs == Empty() && c.out == []
    && forall i :: 0 <= i < |c.app.tracks| ==> Named(c.app.tracks[i])
  }

  /** The server when it has read the token. */
  function Told(server: Conn<Daemon>, token: Block): (s: Conn<Daemon>)
    requires |token| < 0x1_0000
  {
    SP.Parse(ControlLoop(DaemonReact), server, Encode(Auth(token))).state
  }

  /** An end when it has read what the other has written. */
  function Reads(c: Conn<Daemon>, bytes: Block): (r: Conn<Daemon>)
  {
    SP.Parse(ControlLoop(DaemonReact), c, bytes).state
  }

  lemma TokenRead(server: Conn<Daemon>, token: Block, calls: seq<Call>)
    requires |token| < 0x1_0000 && server.app.isServer
    requires calls == if token == SECRET then Subscriptions(server.app) + [RespondAuth(true)] else [RespondAuth(false)]
    ensures Told(server, token) == PerformAll(server, calls).conn
  {
    AuthDoes(DaemonReact, server, token, []);
    DoesAlone(DaemonReact, server, Encode(Auth(token)), server, AuthRequested(token), server.app, calls);
  }

  lemma WrongTokenRead(server: Conn<Daemon>, token: Block)
    requires New(server, true) && |token| < 0x1_0000 && token != SECRET
    ensures Told(server, token) == server.(out := [0x05, 0x00], closed := true)
  {
    TokenRead(server, token, [RespondAuth(false)]);
    assert PerformAll(server, [RespondAuth(false)][..0]).conn == server by { assert [RespondAuth(false)][..0] == []; }
    ReplyWritten(server, false);
    assert [] + Encode(AuthReply(0)) == [0x05, 0x00];
  }

  /** With the right token the server writes a SUBSCRIBE message for each of its tracks, and then accepts. */
  lemma RightTokenRead(server: Conn<Daemon>) returns (sent: seq<Request>)
    requires New(server, true)
    ensures var s := Duplex.Replay(AskActs(true, TracksOf(server.app)));
            && Sendable(Messages(sent) + [AuthReply(1)])
            && Told(server, SECRET) == server.(subs := s.server.table, authenticated := true,
                                               out := EncodeAll(Messages(sent) + [AuthReply(1)]))
            && s.server.inbox == [] && s.client.table == Empty() && s.client.inbox == sent
  {
    var tracks := TracksOf(server.app);
    SubscriptionsAre(server.app);
    TokenRead(server, SECRET, Subscriptions(server.app) + [RespondAuth(true)]);
    sent := AsksWritten([], true, server, tracks);
    assert [] + AskActs(true, tracks) == AskActs(true, tracks);
    Accepts(server, AskCalls(tracks), EncodeAll(Messages(sent)));
    EncodeOne(AuthReply(1));
    EncodeAllConcat(Messages(sent), [AuthReply(1)]);
    assert [] + EncodeAll(Messages(sent)) == EncodeAll(Messages(sent)) && [] + sent == sent;
  }

  lemma Accepts(server: Conn<Daemon>, calls: seq<Call>, written: Block)
    requires server.out == [] && PerformAll(server, calls).conn.out == [] + written
    ensures PerformAll(server, calls + [RespondAuth(true)]).conn
            == PerformAll(server, calls).conn.(authenticated := true, out := written + Encode(AuthReply(1)),
                                               closed := PerformAll(server, calls).conn.closed)
  {
    assert (calls + [RespondAuth(true)])[..|calls|] == calls;
    ReplyWritten(PerformAll(server, calls).conn, true);
    assert [] + written == written;
  }

  /** The client reads all of it, and then subscribes in turn. */
  lemma ClientReads(client: Conn<Daemon>, acts: seq<Duplex.Act>, sent: seq<Request>) returns (back: seq<Request>)
    requires New(client, false) && Sendable(Messages(sent) + [AuthReply(1)])
    requires var s := Duplex.Replay(acts); s.client.table == Empty() && s.client.inbox == sent && s.server.inbox == []
    ensures var s, s' := Duplex.Replay(acts), Duplex.Replay(acts + TakeActs(false, |sent|)
                                                            + AskActs(false, TracksOf(client.app)));
            && Sendable(Messages(back))
            && Reads(client, EncodeAll(Messages(sent) + [AuthReply(1)]))
               == client.(subs := s'.client.table, authenticated := true, out := EncodeAll(Messages(back)))
            && s'.client.inbox == [] && s'.server.table == s.server.table && s'.server.inbox == back
  {
    var taken := acts + TakeActs(false, |sent|);
    TakesApplied(acts, false, client, sent);
    var d := client.(subs := Duplex.Replay(taken).client.table);
    RepliedTo(client, Messages(sent), d);
    SubscriptionsAre(client.app);
    back := AsksWritten(taken, false, d.(authenticated := true), TracksOf(client.app));
    assert [] + EncodeAll(Messages(back)) == EncodeAll(Messages(back)) && [] + back == back;
  }

  lemma RepliedTo(client: Conn<Daemon>, ms: seq<Msg>, d: Conn<Daemon>)
    requires !client.isServer && Sendable(ms + [AuthReply(1)]) && ApplyAll(DaemonReact, client, ms).conn == d
    ensures Reads(client, EncodeAll(ms + [AuthReply(1)]))
            == PerformAll(d.(authenticated := true), Subscriptions(d.app)).conn
  {
    ControlRoundTrip(DaemonReact, client, ms + [AuthReply(1)]);
    ApplyAllConcat(DaemonReact, client, ms, [AuthReply(1)]);
    AcceptedApplies(d);
  }

  lemma AcceptedApplies(d: Conn<Daemon>)
    ensures ApplyAll(DaemonReact, d, [AuthReply(1)]).conn
            == PerformAll(d.(authenticated := true), Subscriptions(d.app)).conn
  {
    var ms := [AuthReply(1)];
    assert ms[1..] == [];
  }

  /** The server reads the client's subscriptions. */
  lemma ServerReads(server: Conn<Daemon>, acts: seq<Duplex.Act>, back: seq<Request>)
    requires server.authenticated && Sendable(Messages(back))
    requires server.subs == Duplex.Replay(acts).server.table && Duplex.Replay(acts).server.inbox == back
    ensures var s, s' := Duplex.Replay(acts), Duplex.Replay(acts + TakeActs(true, |back|));
            && Reads(server, EncodeAll(Messages(back))).subs == s'.server.table
            && s'.server.inbox == [] && s'.client == s.client
  {
    TakesApplied(acts, true, server, back);
    ControlRoundTrip(DaemonReact, server, Messages(back));
  }

  /** Outside the handshake a daemon only listens: whatever else it reads, it writes nothing, closes nothing and keeps
      its flag. */
  lemma OnlyListens(c: Conn<Daemon>, ms: seq<Msg>)
    requires GateOpen(c) && Sendable(ms) && forall i :: 0 <= i < |ms| ==> !ms[i].Auth? && !ms[i].AuthReply?
    ensures Reads(c, EncodeAll(ms)) == c.(subs := Reads(c, EncodeAll(ms)).subs)
  {
    ControlRoundTrip(DaemonReact, c, ms);
    AppliesQuietly(c, ms);
  }

  lemma {:induction false} AppliesQuietly(c: Conn<Daemon>, ms: seq<Msg>)
    requires Sendable(ms) && forall i :: 0 <= i < |ms| ==> !ms[i].Auth? && !ms[i].AuthReply?
    ensures var r := ApplyAll(DaemonReact, c, ms).conn; r == c.(subs := r.subs)
    decreases |ms|
  {
    if ms != [] {
      AppliesQuietly(Apply(DaemonReact, c, ms[0]).conn, ms[1..]);
      ApplyFirst(DaemonReact, c, ms);
    }
  }

  // ----- Two daemons -----

  /** A client does not answer a token. */
  lemma ClientIgnoresToken(client: Conn<Daemon>, token: Block)
    requires New(client, false) && |token| < 0x1_0000
    ensures Reads(client, Encode(Auth(token))) == client
  {
    AuthDoes(DaemonReact, client, token, []);
    DoesAlone(DaemonReact, client, Encode(Auth(token)), client, AuthRequested(token), client.app, []);
  }

  /** The client sends a token and the server answers. Both ends are authenticated then if and only if the token was the
      right one; with any other the server refuses and closes, and neither has subscribed to anything. */
  lemma BothAuthenticatedIff(server: Conn<Daemon>, client: Conn<Daemon>, token: Block)
    requires New(server, true) && New(client, false) && |token| < 0x1_0000
    ensures var s := Told(server, token);
            var d := Reads(client, s.out);
            && (s.authenticated <==> token == SECRET) && (d.authenticated <==> token == SECRET)
            && (s.closed <==> token != SECRET)
            && (token != SECRET ==> s.out == [0x05, 0x00] && s.subs == d.subs == Empty() && d.out == [])
  {
    if token == SECRET {
      var sent := RightTokenRead(server);
      var back := ClientReads(client, AskActs(true, TracksOf(server.app)), sent);
    } else {
      WrongTokenRead(server, token);
      AuthReplyDoes(DaemonReact, client, 0, []);
      DoesAlone(DaemonReact, client, [0x05, 0x00], client, AuthCompleted(false), client.app, []);
    }
  }

  /** The acts of a complete handshake. */
  function Exchange(a: seq<TrackId>, sent: nat, b: seq<TrackId>, back: nat): (acts: seq<Duplex.Act>)
  {
    AskActs(true, a) + TakeActs(false, sent) + AskActs(false, b) + TakeActs(true, back)
  }

  lemma {:induction false} AsksConcat(a: seq<Duplex.Act>, b: seq<Duplex.Act>)
    ensures Duplex.Asks(a + b) == Duplex.Asks(a) + Duplex.Asks(b)
  {
    if b == [] {
      assert a + b == a;
    } else {
      AsksConcat(a, b[..|b| - 1]);
      assert (a + b)[..|a + b| - 1] == a + b[..|b| - 1];
    }
  }

  lemma {:induction false} AskActsCount(byServer: bool, tracks: seq<TrackId>)
    ensures Duplex.Asks(AskActs(byServer, tracks)) == |tracks|
  {
    if tracks != [] {
      AskActsCount(byServer, tracks[..|tracks| - 1]);
      assert AskActs(byServer, tracks)[..|tracks| - 1] == AskActs(byServer, tracks[..|tracks| - 1]);
    }
  }

  lemma {:induction false} TakeActsCount(byServer: bool, n: nat)
    ensures Duplex.Asks(TakeActs(byServer, n)) == 0
  {
    if n > 0 {
      TakeActsCount(byServer, n - 1);
      assert TakeActs(byServer, n)[..n - 1] == TakeActs(byServer, n - 1);
    }
  }

  lemma ExchangeCount(a: seq<TrackId>, sent: nat, b: seq<TrackId>, back: nat)
    ensures Duplex.Asks(Exchange(a, sent, b, back)) == |a| + |b|
  {
    AskActsCount(true, a);
    AskActsCount(false, b);
    TakeActsCount(false, sent);
    TakeActsCount(true, back);
    AsksConcat(AskActs(true, a) + TakeActs(false, sent) + AskActs(false, b), TakeActs(true, back));
    AsksConcat(AskActs(true, a) + TakeActs(false, sent), AskActs(false, b));
    AsksConcat(AskActs(true, a), TakeActs(false, sent));
  }

  lemma OrderNext(acts: seq<Duplex.Act>, act: Duplex.Act)
    requires Duplex.DaemonOrder(acts)
    requires Duplex.ByClient(act) ==> Duplex.Replay(acts).client.inbox == []
    requires act.Ask? && act.byServer ==> forall m :: 0 <= m < |acts| ==> !Duplex.ByClient(acts[m])
    ensures Duplex.DaemonOrder(acts + [act])
  {
    assert (acts + [act])[..|acts|] == acts;
  }

  lemma {:induction false} ServerAsksInOrder(tracks: seq<TrackId>)
    ensures Duplex.DaemonOrder(AskActs(true, tracks))
  {
    if tracks != [] {
      var n := |tracks| - 1;
      ServerAsksInOrder(tracks[..n]);
      OrderNext(AskActs(true, tracks[..n]), Duplex.Ask(true, tracks[n]));
      assert AskActs(true, tracks) == AskActs(true, tracks[..n]) + [Duplex.Ask(true, tracks[n])];
    }
  }

  lemma {:induction false} TakesInOrder(acts: seq<Duplex.Act>, byServer: bool, n: nat)
    requires Duplex.DaemonOrder(acts)
    ensures Duplex.DaemonOrder(acts + TakeActs(byServer, n))
  {
    if n == 0 {
      assert acts + TakeActs(byServer, n) == acts;
    } else {
      TakesInOrder(acts, byServer, n - 1);
      OrderNext(acts + TakeActs(byServer, n - 1), Duplex.Take(byServer));
      assert acts + TakeActs(byServer, n) == (acts + TakeActs(byServer, n - 1)) + [Duplex.Take(byServer)];
    }
  }

  lemma {:induction false} ClientAsksInOrder(acts: seq<Duplex.Act>, tracks: seq<TrackId>)
    requires Duplex.DaemonOrder(acts) && Duplex.Replay(acts).client.inbox == []
    ensures Duplex.DaemonOrder(acts + AskActs(false, tracks))
    ensures Duplex.Replay(acts + AskActs(false, tracks)).client.inbox == []
  {
    if tracks == [] {
      assert acts + AskActs(false, tracks) == acts;
    } else {
      var n := |tracks| - 1;
      var so, ask := acts + AskActs(false, tracks[..n]), Duplex.Ask(false, tracks[n]);
      ClientAsksInOrder(acts, tracks[..n]);
      OrderNext(so, ask);
      AskKeepsInbox(so, tracks[n]);
      AskActsGrow(acts, false, tracks);
    }
  }

  lemma AskKeepsInbox(acts: seq<Duplex.Act>, track: TrackId)
    ensures Duplex.Replay(acts + [Duplex.Ask(false, track)]).client.inbox == Duplex.Replay(acts).client.inbox
  {
    ReplayNext(acts, Duplex.Ask(false, track));
  }

  lemma AskActsGrow(acts: seq<Duplex.Act>, byServer: bool, tracks: seq<TrackId>)
    requires tracks != []
    ensures var n := |tracks| - 1;
            acts + AskActs(byServer, tracks)
            == (acts + AskActs(byServer, tracks[..n])) + [Duplex.Ask(byServer, tracks[n])]
  {
    var n := |tracks| - 1;
    assert AskActs(byServer, tracks) == AskActs(byServer, tracks[..n]) + [Duplex.Ask(byServer, tracks[n])];
    Regroup(acts, AskActs(byServer, tracks[..n]), [Duplex.Ask(byServer, tracks[n])]);
  }

  lemma FoundStays(subs: seq<Entry>, kind: byte, flags: byte, name: Block, alias: byte, t: TrackId)
    requires FindByTrack(subs, t).Some?
    ensures FindByTrack(Add(subs, kind, flags, name, alias), t).Some?
  {
    if t.name != [] {
      assert Holds(Add(subs, kind, flags, name, alias)[IndexOf(subs, t.kind, t.name)], t.kind, t.name);
    }
  }

  lemma AskedIsFound(s: Duplex.State, byServer: bool, t: TrackId)
    requires Duplex.HasRoom(s, Duplex.Ask(byServer, t))
    ensures FindByTrack(Duplex.Self(Duplex.Next(s, Duplex.Ask(byServer, t)), byServer).table, t).Some?
  {
    var table := Duplex.Self(s, byServer).table;
    AddExact(table, t.kind, t.flags, t.name, U8(NextAlias(table)));
  }

  lemma FoundGoesOn(s: Duplex.State, act: Duplex.Act, byServer: bool, t: TrackId)
    requires FindByTrack(Duplex.Self(s, byServer).table, t).Some?
    ensures FindByTrack(Duplex.Self(Duplex.Next(s, act), byServer).table, t).Some?
  {
    var self := Duplex.Self(s, act.byServer);
    match act
    case Ask(_, track) =>
      FoundStays(Duplex.Self(s, byServer).table, track.kind, track.flags, track.name, U8(NextAlias(self.table)), t);
    case Take(_) =>
      if self.inbox != [] {
        var r := self.inbox[0];
        FoundStays(Duplex.Self(s, byServer).table, r.kind, r.flags, r.name, r.alias, t);
      }
  }

  /** What an end has asked for is in its table from then on. */
  lemma {:induction false} AskedStays(acts: seq<Duplex.Act>, i: nat)
    requires Duplex.Fitting(acts) && i < |acts| && acts[i].Ask?
    ensures FindByTrack(Duplex.Self(Duplex.Replay(acts), acts[i].byServer).table, acts[i].track).Some?
  {
    var n := |acts| - 1;
    if i == n {
      AskedIsFound(Duplex.Replay(acts[..n]), acts[n].byServer, acts[n].track);
    } else {
      AskedStays(acts[..n], i);
      FoundGoesOn(Duplex.Replay(acts[..n]), acts[n], acts[i].byServer, acts[i].track);
    }
  }

  /** The tables when the server has read the client's subscriptions as well. */
  lemma Exchanged(server: Conn<Daemon>, client: Conn<Daemon>) returns (sent: nat, back: nat)
    requires New(server, true) && New(client, false)
    ensures var s := Told(server, SECRET);
            var d := Reads(client, s.out);
            var acts := Exchange(TracksOf(server.app), sent, TracksOf(client.app), back);
            var end := Duplex.Replay(acts);
            && Reads(s, d.out).subs == end.server.table && d.subs == end.client.table
            && end.server.inbox == end.client.inbox == [] && Duplex.DaemonOrder(acts)
  {
    var a, b := TracksOf(server.app), TracksOf(client.app);
    var first := RightTokenRead(server);
    var second := ClientReads(client, AskActs(true, a), first);
    sent, back := |first|, |second|;
    var told := AskActs(true, a) + TakeActs(false, sent);
    ServerReads(Told(server, SECRET), told + AskActs(false, b), second);
    TakesApplied(AskActs(true, a), false, client, first);
    ServerAsksInOrder(a);
    TakesInOrder(AskActs(true, a), false, sent);
    ClientAsksInOrder(told, b);
    TakesInOrder(told + AskActs(false, b), true, back);
  }

  /** Two daemons with the right token and at most 32 tracks between them: when each has read what the other wrote,
      every track of either has one alias at both ends, and both resolve that alias to it; so either may publish to
      the other under the assumptions of the object protocol. */
  lemma TracksAgreed(server: Conn<Daemon>, client: Conn<Daemon>, code: Code)
    requires New(server, true) && New(client, false) && Lawful(code)
    requires |server.app.tracks| + |client.app.tracks| <= 32
    ensures var s := Told(server, SECRET);
            var d := Reads(client, s.out);
            var a, b := Reads(s, d.out).subs, d.subs;
            && (forall t :: t in TracksOf(server.app) || t in TracksOf(client.app) ==>
                  Duplex.Shared(a, b, t) && Duplex.Shared(b, a, t))
            && Sane(Config(code, a, b)) && Sane(Config(code, b, a))
  {
    var sent, back := Exchanged(server, client);
    ExchangeAgrees(TracksOf(server.app), sent, TracksOf(client.app), back, code);
  }

  predicate DataOnly(tracks: seq<TrackId>) { forall i :: 0 <= i < |tracks| ==> tracks[i].kind == 4 }

  lemma ExchangeAgrees(a: seq<TrackId>, sent: nat, b: seq<TrackId>, back: nat, code: Code)
    requires |a| + |b| <= 32 && DataOnly(a) && DataOnly(b) && Lawful(code)
    requires var acts := Exchange(a, sent, b, back);
             && Duplex.DaemonOrder(acts) && Duplex.Replay(acts).server.inbox == Duplex.Replay(acts).client.inbox == []
    ensures var end := Duplex.Replay(Exchange(a, sent, b, back));
            && (forall t :: t in a || t in b ==>
                  && Duplex.Shared(end.server.table, end.client.table, t)
                  && Duplex.Shared(end.client.table, end.server.table, t))
            && Sane(Config(code, end.server.table, end.client.table))
            && Sane(Config(code, end.client.table, end.server.table))
  {
    var acts := Exchange(a, sent, b, back);
    ExchangeCount(a, sent, b, back);
    ExchangeIsValid(a, sent, b, back);
    Duplex.DaemonsNeverClash(acts);
    Duplex.EitherEndMayPublish(acts, code);
    forall t | t in a || t in b
      ensures Duplex.Shared(Duplex.Replay(acts).server.table, Duplex.Replay(acts).client.table, t)
      ensures Duplex.Shared(Duplex.Replay(acts).client.table, Duplex.Replay(acts).server.table, t)
    {
      AskedIsShared(a, sent, b, back, t);
    }
  }

  lemma ExchangeIsValid(a: seq<TrackId>, sent: nat, b: seq<TrackId>, back: nat)
    requires DataOnly(a) && DataOnly(b)
    ensures var acts := Exchange(a, sent, b, back);
            forall n :: 0 <= n < |acts| && acts[n].Ask? ==> ValidTrack(acts[n].track)
  {}

  lemma AskedIsShared(a: seq<TrackId>, sent: nat, b: seq<TrackId>, back: nat, t: TrackId)
    requires var acts := Exchange(a, sent, b, back);
             && Duplex.Fitting(acts) && Duplex.Orderly(acts)
             && Duplex.Replay(acts).server.inbox == Duplex.Replay(acts).client.inbox == []
    requires (t in a || t in b) && ValidTrack(t)
    ensures var end := Duplex.Replay(Exchange(a, sent, b, back));
            Duplex.Shared(end.server.table, end.client.table, t) && Duplex.Shared(end.client.table, end.server.table, t)
  {
    var acts := Exchange(a, sent, b, back);
    if t in a {
      var i :| 0 <= i < |a| && a[i] == t;
      assert acts[i] == Duplex.Ask(true, t);
      AskedStays(acts, i);
    } else {
      var i :| 0 <= i < |b| && b[i] == t;
      assert acts[|a| + sent + i] == Duplex.Ask(false, t);
      AskedStays(acts, |a| + sent + i);
    }
    Duplex.TwoWayAgreement(acts, t);
  }
}
