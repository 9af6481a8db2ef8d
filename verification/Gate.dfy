/** The authentication gate over whole runs of a connection: any interleaving of control bytes, track-stream bytes,
    datagrams and application calls. Also the daemon's callback, as one application. */
module Gate {
  import opened Bytes
  import opened Tracks
  import opened Session
  import Codec
  import SP = StreamParser

  datatype TrackStream = TrackStream(alias: Option<byte>, unread: Block)

  datatype Connection<A> = Connection(
    conn: Conn<A>, control: Block, streams: map<nat, TrackStream>, log: seq<Effect>)

  datatype Input =
    | ControlBytes(chunk: Block)
    | TrackBytes(stream: nat, bytes: Block)
    | DatagramBytes(raw: Block)
    | AppCall(call: Call)

  function StreamOf<A>(s: Connection<A>, stream: nat): (r: TrackStream)
  {
    if stream in s.streams then s.streams[stream] else TrackStream(None, [])
  }

  function Step<A(!new)>(react: Reactor<A>, s: Connection<A>, i: Input): (r: Connection<A>)
  {
    match i
    case ControlBytes(chunk) =>
      var p := SP.Parse(ControlLoop(react), s.conn, s.control + chunk);
      s.(conn := p.state, control := p.rest, log := s.log + p.effects)
    case TrackBytes(stream, bytes) =>
      var t := StreamOf(s, stream);
      var p := SP.Parse(TrackLoop(react), TrackState(s.conn, t.alias), t.unread + bytes);
      s.(conn := p.state.conn, streams := s.streams[stream := TrackStream(p.state.alias, p.rest)],
         log := s.log + p.effects)
    case DatagramBytes(raw) =>
      if GateOpen(s.conn) then s.(log := s.log + [DatagramTaken(raw)]) else s
    case AppCall(call) =>
      s.(conn := Perform(s.conn, call), log := s.log + [Called(call)])
  }

  function Run<A(!new)>(react: Reactor<A>, s: Connection<A>, inputs: seq<Input>): (r: Connection<A>)
  {
    if inputs == [] then s
    else Step(react, Run(react, s, inputs[..|inputs| - 1]), inputs[|inputs| - 1])
  }

  /** A connection as accepted: not authenticated, nothing received. */
  /** A datagram is taken exactly if the gate is open, and changes nothing else here. */
  lemma DatagramTakenIff<A(!new)>(react: Reactor<A>, s: Connection<A>, raw: Block)
    ensures Step(react, s, DatagramBytes(raw))
            == s.(log := s.log + if s.conn.isServer && !s.conn.authenticated then [] else [DatagramTaken(raw)])
  {
    assert s.log + [] == s.log;
  }

  /** Bytes received on the control stream in two parts are as good as received at once; and so on a track stream. */
  lemma PartsAsOne<A(!new)>(react: Reactor<A>, s: Connection<A>, stream: nat, x: Block, y: Block)
    ensures Step(react, Step(react, s, ControlBytes(x)), ControlBytes(y)) == Step(react, s, ControlBytes(x + y))
    ensures Step(react, Step(react, s, TrackBytes(stream, x)), TrackBytes(stream, y))
            == Step(react, s, TrackBytes(stream, x + y))
  {
    ControlPartsAsOne(react, s, x, y);
    TrackPartsAsOne(react, s, stream, x, y);
  }

  lemma ControlPartsAsOne<A(!new)>(react: Reactor<A>, s: Connection<A>, x: Block, y: Block)
    ensures Step(react, Step(react, s, ControlBytes(x)), ControlBytes(y)) == Step(react, s, ControlBytes(x + y))
  {
    var p := SP.Parse(ControlLoop(react), s.conn, s.control + x);
    var q := SP.Parse(ControlLoop(react), p.state, p.rest + y);
    ControlLoopStable(react);
    ParsedInParts(ControlLoop(react), s.conn, s.control, x, y, s.log, p, q);
  }

  /** What is parsed in two parts, with the log in front. */
  lemma ParsedInParts<S(!new), E(!new)>(step: SP.Iteration<S, E>, start: S, unread: Block, x: Block, y: Block,
                                        log: seq<E>, p: SP.Parsed<S, E>, q: SP.Parsed<S, E>)
    requires SP.Progresses(step) && SP.Stable(step)
    requires p == SP.Parse(step, start, unread + x) && q == SP.Parse(step, p.state, p.rest + y)
    ensures var whole := SP.Parse(step, start, unread + (x + y));
            whole.state == q.state && whole.rest == q.rest && log + whole.effects == (log + p.effects) + q.effects
  {
    Regroup(unread, x, y);
    Regroup(log, p.effects, q.effects);
    SP.Split(step, start, unread + x, y);
  }

  lemma TrackPartsAsOne<A(!new)>(react: Reactor<A>, s: Connection<A>, stream: nat, x: Block, y: Block)
    ensures Step(react, Step(react, s, TrackBytes(stream, x)), TrackBytes(stream, y))
            == Step(react, s, TrackBytes(stream, x + y))
  {
    var t := StreamOf(s, stream);
    var p := SP.Parse(TrackLoop(react), TrackState(s.conn, t.alias), t.unread + x);
    var q := SP.Parse(TrackLoop(react), p.state, p.rest + y);
    TrackLoopStable(react);
    ParsedInParts(TrackLoop(react), TrackState(s.conn, t.alias), t.unread, x, y, s.log, p, q);
    FirstPart(react, s, stream, x, p);
    FirstPart(react, Step(react, s, TrackBytes(stream, x)), stream, y, q);
    UpdatedTwice(s.streams, stream, TrackStream(p.state.alias, p.rest), TrackStream(q.state.alias, q.rest));
  }

  lemma FirstPart<A(!new)>(react: Reactor<A>, s: Connection<A>, stream: nat, x: Block,
                           p: SP.Parsed<TrackState<A>, Effect>)
    requires var t := StreamOf(s, stream); p == SP.Parse(TrackLoop(react), TrackState(s.conn, t.alias), t.unread + x)
    ensures var first := TrackStream(p.state.alias, p.rest);
            var r := Step(react, s, TrackBytes(stream, x));
            && r == s.(conn := p.state.conn, streams := s.streams[stream := first], log := s.log + p.effects)
            && StreamOf(r, stream) == first && TrackState(r.conn, first.alias) == p.state
  {}

  lemma UpdatedTwice<K, V>(m: map<K, V>, k: K, a: V, b: V)
    ensures m[k := a][k := b] == m[k := b]
  {}

  /** Every input leaves the unread bytes of all other streams alone. */
  lemma OthersStay<A(!new)>(react: Reactor<A>, s: Connection<A>, i: Input, stream: nat)
    ensures !i.ControlBytes? ==> Step(react, s, i).control == s.control
    ensures !(i.TrackBytes? && i.stream == stream) ==> StreamOf(Step(react, s, i), stream) == StreamOf(s, stream)
  {}

  predicate Fresh<A>(s: Connection<A>) { !s.conn.authenticated && s.control == [] && s.streams == map[] && s.log == [] }

  lemma StepAccounted<A(!new)>(react: Reactor<A>, s: Connection<A>, i: Input) returns (more: seq<Effect>)
    ensures Step(react, s, i).log == s.log + more
    ensures Accounted(s.conn, Step(react, s, i).conn, more)
  {
    more := Step(react, s, i).log[|s.log|..];
    match i
    case ControlBytes(chunk) =>
      ControlAccounted(react, s.conn, s.control + chunk);
      assert more == SP.Parse(ControlLoop(react), s.conn, s.control + chunk).effects;
    case TrackBytes(stream, bytes) =>
      var t := StreamOf(s, stream);
      TrackAccounted(react, TrackState(s.conn, t.alias), t.unread + bytes);
      assert more == SP.Parse(TrackLoop(react), TrackState(s.conn, t.alias), t.unread + bytes).effects;
    case DatagramBytes(raw) =>
      FlagOne(s.conn.authenticated, DatagramTaken(raw));
      if GateOpen(s.conn) {
        assert more == [DatagramTaken(raw)];
      }
    case AppCall(call) =>
      FlagOne(s.conn.authenticated, Called(call));
      assert more == [Called(call)];
  }

  /** The log accounts for the flag after every run. */
  lemma {:induction false} RunAccounted<A(!new)>(react: Reactor<A>, s: Connection<A>, inputs: seq<Input>)
    requires Fresh(s)
    ensures var r := Run(react, s, inputs); Accounted(s.conn, r.conn, r.log)
  {
    if inputs != [] {
      var before := Run(react, s, inputs[..|inputs| - 1]);
      RunAccounted(react, s, inputs[..|inputs| - 1]);
      var more := StepAccounted(react, before, inputs[|inputs| - 1]);
      AccountedConcat(s.conn, before.conn, Run(react, s, inputs).conn, before.log, more);
    }
  }

  lemma {:induction false} FlagMeans(start: bool, effects: seq<Effect>)
    ensures Flag(start, effects) <==> start || exists j :: 0 <= j < |effects| && Grants(effects[j])
  {
    if effects != [] {
      var n := |effects| - 1;
      FlagMeans(start, effects[..n]);
      assert forall j :: 0 <= j < n ==> effects[..n][j] == effects[j];
    }
  }

  lemma {:induction false} GatekeptMeans(effects: seq<Effect>, k: nat)
    requires Gatekept(false, effects) && k < |effects| && Gated(effects[k])
    ensures exists j :: 0 <= j < k && Grants(effects[j])
  {
    var n := |effects| - 1;
    if k == n {
      FlagMeans(false, effects[..n]);
      var j :| 0 <= j < n && Grants(effects[..n][j]);
      assert Grants(effects[j]);
    } else {
      GatekeptMeans(effects[..n], k);
      var j :| 0 <= j < k && Grants(effects[..n][j]);
      assert Grants(effects[j]);
    }
  }

  /** On a server connection, over every run, each subscribe, unsubscribe, keyframe, object, NACK and datagram effect
      comes after one of the two events that set the flag. */
  lemma GatedAfterGrant<A(!new)>(react: Reactor<A>, s: Connection<A>, inputs: seq<Input>, k: nat)
    requires Fresh(s) && s.conn.isServer
    requires k < |Run(react, s, inputs).log| && Gated(Run(react, s, inputs).log[k])
    ensures exists j :: 0 <= j < k && Grants(Run(react, s, inputs).log[j])
  {
    RunAccounted(react, s, inputs);
    GatekeptMeans(Run(react, s, inputs).log, k);
  }

  /** The flag is set exactly if one of the two events has happened, so it never returns to false. */
  lemma FlagExactlyGranted<A(!new)>(react: Reactor<A>, s: Connection<A>, inputs: seq<Input>)
    requires Fresh(s)
    ensures var r := Run(react, s, inputs);
            r.conn.authenticated <==> exists j :: 0 <= j < |r.log| && Grants(r.log[j])
  {
    RunAccounted(react, s, inputs);
    FlagMeans(false, Run(react, s, inputs).log);
  }

  lemma FlagNeverCleared<A(!new)>(react: Reactor<A>, s: Connection<A>, i: Input)
    requires s.conn.authenticated
    ensures Step(react, s, i).conn.authenticated
  {
    var more := StepAccounted(react, s, i);
    FlagMonotone(true, more);
  }

  // ----- The daemon -----

  /** "secret_token_123". */
  const SECRET: Block := [115, 101, 99, 114, 101, 116, 95, 116, 111, 107, 101, 110, 95, 49, 50, 51]

  lemma SecretSpells()
    ensures |SECRET| == 16 && forall i :: 0 <= i < 16 ==> SECRET[i] == "secret_token_123"[i] as int
  {}

  datatype Daemon = Daemon(isServer: bool, tracks: seq<Block>, useReliable: bool)

  function Subscriptions(d: Daemon): (r: seq<Call>)
  {
    seq(|d.tracks|, i requires 0 <= i < |d.tracks| =>
      SubscribeTo(TrackId(TRACK_DATA, if d.useReliable then 1 else 2, d.tracks[i])))
  }

  /** on_transport_event of the daemon, as far as it calls back into the connection. */
  function DaemonReact(d: Daemon, e: Event): (r: (Daemon, seq<Call>))
  {
    match e
    case AuthRequested(token) =>
      (d, if !d.isServer then [] else if token == SECRET then Subscriptions(d) + [RespondAuth(true)]
          else [RespondAuth(false)])
    case AuthCompleted(success) => (d, if success then Subscriptions(d) else [])
    case _ => (d, [])
  }

  /** Every accepting call was preceded by a request with the right token; and at a server, which is one by its own
      configuration, every such request is followed by the accepting call. */
  ghost predicate Vouched(isServer: bool, effects: seq<Effect>) {
    && (forall k :: 0 <= k < |effects| && effects[k] == Called(RespondAuth(true)) ==>
          exists j :: 0 <= j < k && effects[j] == Raised(AuthRequested(SECRET)))
    && (isServer ==> forall k :: 0 <= k < |effects| && effects[k] == Raised(AuthRequested(SECRET)) ==>
          exists j :: k < j < |effects| && effects[j] == Called(RespondAuth(true)))
  }

  lemma VouchedConcat(isServer: bool, a: seq<Effect>, b: seq<Effect>)
    requires Vouched(isServer, a) && Vouched(isServer, b)
    ensures Vouched(isServer, a + b)
  {
    VouchedBefore(isServer, a, b);
    if isServer {
      VouchedAfter(a, b);
    }
  }

  lemma VouchedBefore(isServer: bool, a: seq<Effect>, b: seq<Effect>)
    requires Vouched(isServer, a) && Vouched(isServer, b)
    ensures forall k :: 0 <= k < |a + b| && (a + b)[k] == Called(RespondAuth(true)) ==>
              exists j :: 0 <= j < k && (a + b)[j] == Raised(AuthRequested(SECRET))
  {
    forall k | 0 <= k < |a + b| && (a + b)[k] == Called(RespondAuth(true))
      ensures exists j :: 0 <= j < k && (a + b)[j] == Raised(AuthRequested(SECRET))
    {
      if k < |a| {
        var j :| 0 <= j < k && a[j] == Raised(AuthRequested(SECRET));
        assert (a + b)[j] == a[j];
      } else {
        var j :| 0 <= j < k - |a| && b[j] == Raised(AuthRequested(SECRET));
        assert (a + b)[|a| + j] == b[j];
      }
    }
  }

  lemma VouchedAfter(a: seq<Effect>, b: seq<Effect>)
    requires Vouched(true, a) && Vouched(true, b)
    ensures forall k :: 0 <= k < |a + b| && (a + b)[k] == Raised(AuthRequested(SECRET)) ==>
              exists j :: k < j < |a + b| && (a + b)[j] == Called(RespondAuth(true))
  {
    forall k | 0 <= k < |a + b| && (a + b)[k] == Raised(AuthRequested(SECRET))
      ensures exists j :: k < j < |a + b| && (a + b)[j] == Called(RespondAuth(true))
    {
      if k < |a| {
        var j :| k < j < |a| && a[j] == Called(RespondAuth(true));
        assert (a + b)[j] == a[j];
      } else {
        var j :| k - |a| < j < |b| && b[j] == Called(RespondAuth(true));
        assert (a + b)[|a| + j] == b[j];
      }
    }
  }

  lemma {:induction false} PerformAllEffects<A>(c: Conn<A>, calls: seq<Call>)
    ensures var out := PerformAll(c, calls).effects;
            |out| == |calls| && forall i :: 0 <= i < |calls| ==> out[i] == Called(calls[i])
    ensures PerformAll(c, calls).conn.app == c.app
  {
    if calls != [] {
      var n := |calls| - 1;
      PerformAllEffects(c, calls[..n]);
      AppendedCall(PerformAll(c, calls[..n]).effects, calls);
    }
  }

  lemma AppendedCall(before: seq<Effect>, calls: seq<Call>)
    requires |before| + 1 == |calls| && forall i :: 0 <= i < |before| ==> before[i] == Called(calls[..|before|][i])
    ensures forall i :: 0 <= i < |calls| ==> (before + [Called(calls[|before|])])[i] == Called(calls[i])
  {}

  lemma RaiseVouched(c: Conn<Daemon>, e: Event)
    ensures var r := Raise(DaemonReact, c, e); Vouched(c.app.isServer, r.effects) && r.conn.app == c.app
  {
    var (d, calls) := DaemonReact(c.app, e);
    PerformAllEffects(c.(app := d), calls);
    var out := Raise(DaemonReact, c, e).effects;
    forall k | 0 <= k < |out| && out[k] == Called(RespondAuth(true))
      ensures 0 < k && out[0] == Raised(AuthRequested(SECRET))
    {
      assert calls[k - 1] == RespondAuth(true);
    }
    if c.app.isServer && e == AuthRequested(SECRET) {
      assert calls[|calls| - 1] == RespondAuth(true);
      assert out[|calls|] == Called(RespondAuth(true));
    }
  }

  lemma ApplyVouched(c: Conn<Daemon>, input: Block)
    requires ControlStep(DaemonReact, c, input).Advance?
    ensures var r := ControlStep(DaemonReact, c, input); Vouched(c.app.isServer, r.effects) && r.state.app == c.app
  {
    MessageVouched(c, Codec.DecodeHead(GateOpen(c), input).msg);
  }

  lemma MessageVouched(c: Conn<Daemon>, m: Codec.Msg)
    ensures var r := Apply(DaemonReact, c, m); Vouched(c.app.isServer, r.effects) && r.conn.app == c.app
  {
    match m
    case Subscribe(alias, kind, flags, name) =>
      RaiseVouched(c.(subs := Add(c.subs, kind, flags, name, alias)), Subscribed(TrackId(kind, flags, name)));
    case Unsubscribe(kind, flags, name) =>
      RaiseVouched(c.(subs := Remove(c.subs, kind, name)), Unsubscribed(TrackId(kind, flags, name)));
    case Keyframe(kind, flags, name) => RaiseVouched(c, KeyframeRequested(TrackId(kind, flags, name)));
    case Unicast(data) => RaiseVouched(c, Received(TrackId(TRACK_INPUT, 0, []), data, false));
    case Auth(token) => RaiseVouched(c, AuthRequested(token));
    case AuthReply(status) =>
      RaiseVouched(if status == 1 then c.(authenticated := true) else c, AuthCompleted(status == 1));
    case ReliableObject(alias, data) =>
      var track := FindByAlias(c.subs, alias);
      if track.Some? {
        RaiseVouched(c, Received(track.value.(flags := AsReliable(track.value.flags)), data, true));
      }
    case Nack(_, _, _, _) =>
    case Skip =>
  }

  lemma {:induction false} ControlVouched(c: Conn<Daemon>, input: Block)
    ensures var p := SP.Parse(ControlLoop(DaemonReact), c, input);
            Vouched(c.app.isServer, p.effects) && p.state.app == c.app
    decreases |input|
  {
    if input != [] {
      var r := ControlStep(DaemonReact, c, input);
      assert ControlLoop(DaemonReact)(c, input) == r;
      if r.Advance? {
        ApplyVouched(c, input);
        ControlVouched(r.state, input[r.size..]);
        VouchedConcat(c.app.isServer, r.effects, SP.Parse(ControlLoop(DaemonReact), r.state, input[r.size..]).effects);
      }
    }
  }

  lemma TrackStepVouched(s: TrackState<Daemon>, input: Block)
    requires TrackStep(DaemonReact, s, input).Advance?
    ensures var r := TrackStep(DaemonReact, s, input);
            Vouched(s.conn.app.isServer, r.effects) && r.state.conn.app == s.conn.app
  {
    if s.alias.Some? {
      var track := FindByAlias(s.conn.subs, s.alias.value);
      if track.Some? {
        var data := Codec.DecodeRecord(GateOpen(s.conn), input).data;
        RaiseVouched(s.conn, Received(track.value, data, true));
      }
    }
  }

  lemma {:induction false} TrackVouched(s: TrackState<Daemon>, input: Block)
    ensures var p := SP.Parse(TrackLoop(DaemonReact), s, input);
            Vouched(s.conn.app.isServer, p.effects) && p.state.conn.app == s.conn.app
    decreases |input|
  {
    if input != [] {
      var r := TrackStep(DaemonReact, s, input);
      assert TrackLoop(DaemonReact)(s, input) == r;
      if r.Advance? {
        TrackStepVouched(s, input);
        TrackVouched(r.state, input[r.size..]);
        VouchedConcat(s.conn.app.isServer, r.effects,
                      SP.Parse(TrackLoop(DaemonReact), r.state, input[r.size..]).effects);
      }
    }
  }

  /** Only bytes arrive; all calls are those the daemon makes while it handles an event. */
  predicate BytesOnly(inputs: seq<Input>) { forall i :: 0 <= i < |inputs| ==> !inputs[i].AppCall? }

  lemma {:induction false} RunVouched(s: Connection<Daemon>, inputs: seq<Input>)
    requires Fresh(s) && BytesOnly(inputs)
    ensures var r := Run(DaemonReact, s, inputs);
            Vouched(s.conn.app.isServer, r.log) && r.conn.app == s.conn.app
  {
    if inputs != [] {
      var n := |inputs| - 1;
      RunVouched(s, inputs[..n]);
      var b := Run(DaemonReact, s, inputs[..n]);
      match inputs[n]
      case ControlBytes(chunk) =>
        ControlVouched(b.conn, b.control + chunk);
        VouchedConcat(s.conn.app.isServer, b.log,
                      SP.Parse(ControlLoop(DaemonReact), b.conn, b.control + chunk).effects);
      case TrackBytes(stream, bytes) =>
        var t := StreamOf(b, stream);
        TrackVouched(TrackState(b.conn, t.alias), t.unread + bytes);
        VouchedConcat(s.conn.app.isServer, b.log,
                      SP.Parse(TrackLoop(DaemonReact), TrackState(b.conn, t.alias), t.unread + bytes).effects);
      case DatagramBytes(raw) =>
        VouchedConcat(s.conn.app.isServer, b.log, [DatagramTaken(raw)]);
    }
  }

  predicate Tokened(log: seq<Effect>) { exists j :: 0 <= j < |log| && log[j] == Raised(AuthRequested(SECRET)) }
  predicate Replied(log: seq<Effect>) { exists j :: 0 <= j < |log| && log[j] == Raised(AuthCompleted(true)) }

  /** A server connection of a daemon that is configured as a server, as it is accepted. */
  predicate FreshServer(s: Connection<Daemon>) { Fresh(s) && s.conn.isServer && s.conn.app.isServer }

  /** A daemon's server connection is authenticated if and only if a request with the right token has been received, or
      an accepting reply message. */
  lemma DaemonFlagExact(s: Connection<Daemon>, inputs: seq<Input>)
    requires FreshServer(s) && BytesOnly(inputs)
    ensures var r := Run(DaemonReact, s, inputs); r.conn.authenticated <==> Tokened(r.log) || Replied(r.log)
  {
    FlagExactlyGranted(DaemonReact, s, inputs);
    RunVouched(s, inputs);
    var log := Run(DaemonReact, s, inputs).log;
    if Tokened(log) {
      var k :| 0 <= k < |log| && log[k] == Raised(AuthRequested(SECRET));
      var j :| k < j < |log| && log[j] == Called(RespondAuth(true));
      assert Grants(log[j]);
    }
    if Replied(log) {
      var j :| 0 <= j < |log| && log[j] == Raised(AuthCompleted(true));
      assert Grants(log[j]);
    }
  }

  /** On a daemon's server connection every gated effect comes after a request with the right token, or after an
      accepting reply message from the peer. */
  lemma DaemonGate(s: Connection<Daemon>, inputs: seq<Input>, k: nat)
    requires Fresh(s) && s.conn.isServer && BytesOnly(inputs)
    requires k < |Run(DaemonReact, s, inputs).log| && Gated(Run(DaemonReact, s, inputs).log[k])
    ensures var log := Run(DaemonReact, s, inputs).log; Tokened(log[..k]) || Replied(log[..k])
  {
    GatedAfterGrant(DaemonReact, s, inputs, k);
    RunVouched(s, inputs);
    var log := Run(DaemonReact, s, inputs).log;
    var j :| 0 <= j < k && Grants(log[j]);
    if log[j] == Called(RespondAuth(true)) {
      var i :| 0 <= i < j && log[i] == Raised(AuthRequested(SECRET));
      assert log[..k][i] == log[i];
    } else {
      assert log[..k][j] == log[j];
    }
  }

  // ----- When the token is really required -----

  /** Every gated effect comes after a request with the right token. */
  predicate TokenFirst(log: seq<Effect>) { forall k :: 0 <= k < |log| && Gated(log[k]) ==> Tokened(log[..k]) }

  /** Whatever arrives next, short of an accepting reply, gated effects come after a request with the right token. */
  ghost predicate Protected(s: Connection<Daemon>, inputs: seq<Input>) {
    forall more :: BytesOnly(more) && !Replied(Since(s, inputs, more)) ==>
      TokenFirst(Run(DaemonReact, s, inputs + more).log)
  }

  /** What `more` adds to the log of a run of `inputs`. */
  function Since(s: Connection<Daemon>, inputs: seq<Input>, more: seq<Input>): (r: seq<Effect>)
    ensures Run(DaemonReact, s, inputs + more).log == Run(DaemonReact, s, inputs).log + r
  {
    RunGrows(DaemonReact, s, inputs, more);
    Run(DaemonReact, s, inputs + more).log[|Run(DaemonReact, s, inputs).log|..]
  }

  /** Until the right token has been received, a daemon's server connection is protected if and only if no accepting
      reply message has been received. */
  lemma TokenRequiredIff(s: Connection<Daemon>, inputs: seq<Input>)
    requires FreshServer(s) && BytesOnly(inputs) && !Tokened(Run(DaemonReact, s, inputs).log)
    ensures Protected(s, inputs) <==> !Replied(Run(DaemonReact, s, inputs).log)
  {
    if Replied(Run(DaemonReact, s, inputs).log) {
      DaemonFlagExact(s, inputs);
      ExposedByRecord(s, inputs);
    } else {
      forall more | BytesOnly(more) && !Replied(Since(s, inputs, more))
        ensures TokenFirst(Run(DaemonReact, s, inputs + more).log)
      {
        NoReplyConcat(Run(DaemonReact, s, inputs).log, Since(s, inputs, more));
        NoReplyTokenFirst(s, inputs + more);
      }
    }
  }

  /** With the flag set and no token received, five bytes on a new track stream, an empty record on alias 4, are
      raised to the application as an object of the DATA track. */
  lemma ExposedByRecord(s: Connection<Daemon>, inputs: seq<Input>)
    requires Run(DaemonReact, s, inputs).conn.authenticated && !Tokened(Run(DaemonReact, s, inputs).log)
    ensures !Protected(s, inputs)
  {
    var before := Run(DaemonReact, s, inputs);
    var stream := NewStream(before.streams.Keys);
    var more := [TrackBytes(stream, [TRACK_DATA, 0, 0, 0, 0])];
    var e := Raised(Received(TrackId(TRACK_DATA, 0, []), [], true));
    RunOne(DaemonReact, s, inputs, more[0]);
    RecordStep(before, stream);
    UntokenedEffect(before.log, e);
    var added := Since(s, inputs, more);
    assert added == [e];
    assert !Replied(added);
    assert BytesOnly(more);
  }

  lemma {:induction false} NewStream(used: set<nat>) returns (stream: nat)
    ensures forall i :: i in used ==> i < stream
  {
    stream := 0;
    if used != {} {
      var i :| i in used;
      var bound := NewStream(used - {i});
      stream := if bound <= i then i + 1 else bound;
      assert forall j :: j in used ==> j == i || j in used - {i};
    }
  }

  lemma RecordStep(s: Connection<Daemon>, stream: nat)
    requires s.conn.authenticated && stream !in s.streams
    ensures Step(DaemonReact, s, TrackBytes(stream, [TRACK_DATA, 0, 0, 0, 0])).log
            == s.log + [Raised(Received(TrackId(TRACK_DATA, 0, []), [], true))]
  {
    var bytes: Block := [TRACK_DATA, 0, 0, 0, 0];
    OneEmptyRecord(s.conn);
    assert StreamOf(s, stream).unread + bytes == bytes;
  }

  lemma OneEmptyRecord(c: Conn<Daemon>)
    requires GateOpen(c)
    ensures SP.Parse(TrackLoop(DaemonReact), TrackState(c, None), [TRACK_DATA, 0, 0, 0, 0]).effects
            == [Raised(Received(TrackId(TRACK_DATA, 0, []), [], true))]
  {
    var records: seq<Block> := [[]];
    TrackRoundTrip(DaemonReact, c, TRACK_DATA, records);
    assert records[1..] == [];
    assert EncodeRecords(records) == [0, 0, 0, 0];
    assert [TRACK_DATA] + EncodeRecords(records) == [TRACK_DATA, 0, 0, 0, 0];
    var e := Received(TrackId(TRACK_DATA, 0, []), [], true);
    assert Deliver(DaemonReact, c, TRACK_DATA, []) == Raise(DaemonReact, c, e);
    assert Raise(DaemonReact, c, e).effects == [Raised(e)] + [];
  }

  lemma RunOne<A(!new)>(react: Reactor<A>, s: Connection<A>, inputs: seq<Input>, i: Input)
    ensures Run(react, s, inputs + [i]) == Step(react, Run(react, s, inputs), i)
  {
    assert (inputs + [i])[..|inputs + [i]| - 1] == inputs;
  }

  lemma UntokenedEffect(log: seq<Effect>, e: Effect)
    requires !Tokened(log) && Gated(e)
    ensures !TokenFirst(log + [e])
  {
    assert (log + [e])[..|log|] == log && (log + [e])[|log|] == e;
  }

  lemma NoReplyTokenFirst(s: Connection<Daemon>, inputs: seq<Input>)
    requires Fresh(s) && s.conn.isServer && BytesOnly(inputs) && !Replied(Run(DaemonReact, s, inputs).log)
    ensures TokenFirst(Run(DaemonReact, s, inputs).log)
  {
    var log := Run(DaemonReact, s, inputs).log;
    forall k | 0 <= k < |log| && Gated(log[k])
      ensures Tokened(log[..k])
    {
      DaemonGate(s, inputs, k);
      assert forall j :: 0 <= j < k ==> log[..k][j] == log[j];
    }
  }

  lemma NoReplyConcat(a: seq<Effect>, b: seq<Effect>)
    requires !Replied(a) && !Replied(b)
    ensures !Replied(a + b)
  {
    forall j | 0 <= j < |a + b|
      ensures (a + b)[j] != Raised(AuthCompleted(true))
    {
      assert (a + b)[j] == if j < |a| then a[j] else b[j - |a|];
    }
  }

  /** What has happened stays in the log. */
  lemma {:induction false} RunGrows<A(!new)>(react: Reactor<A>, s: Connection<A>, inputs: seq<Input>, more: seq<Input>)
    ensures Run(react, s, inputs).log <= Run(react, s, inputs + more).log
    decreases |more|
  {
    if more == [] {
      assert inputs + more == inputs;
    } else {
      var n := |more| - 1;
      RunGrows(react, s, inputs, more[..n]);
      assert (inputs + more)[..|inputs + more| - 1] == inputs + more[..n];
      var extra := StepAccounted(react, Run(react, s, inputs + more[..n]), more[n]);
    }
  }

  // ----- The same on messages -----

  /** The messages that are parsed whether or not the connection is authenticated. */
  predicate Handshake(ms: seq<Codec.Msg>) {
    Sendable(ms) && forall i :: 0 <= i < |ms| ==> ms[i].Auth? || ms[i].AuthReply?
  }

  lemma HandshakeHead(open: bool, m: Codec.Msg, rest: Block)
    requires Codec.Encodable(m) && (m.Auth? || m.AuthReply?)
    ensures Codec.DecodeHead(open, Codec.Encode(m) + rest) == Codec.Take(|Codec.Encode(m)|, m)
  {
    Codec.HeadRoundTrip(m, rest);
    HandshakeUngated(open, Codec.Encode(m) + rest);
  }

  lemma HandshakeUngated(open: bool, input: Block)
    requires |input| > 0 && (input[0] == 0x04 || input[0] == 0x05)
    ensures Codec.DecodeHead(open, input) == Codec.DecodeHead(true, input)
  {}

  /** Handshake messages are taken in order, whatever the state of the gate. */
  lemma {:induction false} HandshakeParses(c: Conn<Daemon>, ms: seq<Codec.Msg>)
    requires Handshake(ms)
    ensures var a := ApplyAll(DaemonReact, c, ms);
            SP.Parse(ControlLoop(DaemonReact), c, EncodeAll(ms)) == SP.Parsed(a.conn, a.effects, [])
    decreases |ms|
  {
    if ms != [] {
      var rest := EncodeAll(ms[1..]);
      var input := Codec.Encode(ms[0]) + rest;
      HandshakeHead(GateOpen(c), ms[0], rest);
      var a := Apply(DaemonReact, c, ms[0]);
      assert input[|Codec.Encode(ms[0])|..] == rest;
      HandshakeParses(a.conn, ms[1..]);
      assert ControlLoop(DaemonReact)(c, input) == SP.Advance(|Codec.Encode(ms[0])|, a.conn, a.effects);
    }
  }

  lemma RaisedOnce(c: Conn<Daemon>, e: Event, x: Event)
    ensures Raised(x) in Raise(DaemonReact, c, e).effects <==> x == e
  {
    var (d, calls) := DaemonReact(c.app, e);
    PerformAllEffects(c.(app := d), calls);
    var out := Raise(DaemonReact, c, e).effects;
    assert out[0] == Raised(e);
    assert forall i :: 0 < i < |out| ==> out[i] == Called(calls[i - 1]);
  }

  /** A handshake raises exactly the events its messages stand for. */
  lemma {:induction false} HandshakeEvents(c: Conn<Daemon>, ms: seq<Codec.Msg>)
    requires Handshake(ms)
    ensures var effects := ApplyAll(DaemonReact, c, ms).effects;
            && (Raised(AuthRequested(SECRET)) in effects <==> Codec.Auth(SECRET) in ms)
            && (Raised(AuthCompleted(true)) in effects <==> Codec.AuthReply(1) in ms)
    decreases |ms|
  {
    if ms != [] {
      var m := ms[0];
      var a := Apply(DaemonReact, c, m);
      HandshakeEvents(a.conn, ms[1..]);
      var (before, e) := match m
        case Auth(token) => (c, AuthRequested(token))
        case AuthReply(status) => (if status == 1 then c.(authenticated := true) else c, AuthCompleted(status == 1));
      RaisedOnce(before, e, AuthRequested(SECRET));
      RaisedOnce(before, e, AuthCompleted(true));
    }
  }

  /** After a handshake: authenticated exactly if one of its messages carries the right token or is an accepting reply;
      and, if none carries the token, protected exactly if none is an accepting reply. */
  lemma HandshakeExact(s: Connection<Daemon>, ms: seq<Codec.Msg>)
    requires FreshServer(s) && Handshake(ms)
    ensures var inputs := [ControlBytes(EncodeAll(ms))];
            && (Run(DaemonReact, s, inputs).conn.authenticated
                <==> Codec.Auth(SECRET) in ms || Codec.AuthReply(1) in ms)
            && (Codec.Auth(SECRET) !in ms ==> (Protected(s, inputs) <==> Codec.AuthReply(1) !in ms))
  {
    var inputs := [ControlBytes(EncodeAll(ms))];
    HandshakeEvents(s.conn, ms);
    HandshakeLog(s, ms);
    DaemonFlagExact(s, inputs);
    if Codec.Auth(SECRET) !in ms {
      TokenRequiredIff(s, inputs);
    }
  }

  lemma HandshakeLog(s: Connection<Daemon>, ms: seq<Codec.Msg>)
    requires Fresh(s) && Handshake(ms)
    ensures var log := Run(DaemonReact, s, [ControlBytes(EncodeAll(ms))]).log;
            var out := ApplyAll(DaemonReact, s.conn, ms).effects;
            && log == out
            && (Tokened(log) <==> Raised(AuthRequested(SECRET)) in out)
            && (Replied(log) <==> Raised(AuthCompleted(true)) in out)
    ensures Run(DaemonReact, s, [ControlBytes(EncodeAll(ms))]).control == []
  {
    HandshakeParses(s.conn, ms);
    var inputs := [ControlBytes(EncodeAll(ms))];
    assert inputs[..0] == [];
    assert s.control + EncodeAll(ms) == EncodeAll(ms);
  }

  /** The two bytes of an accepting reply authenticate a server connection on which no token was ever presented, and a
      SUBSCRIBE that follows takes effect. */
  lemma ReplyWithoutToken(s: Connection<Daemon>, alias: byte, kind: byte, flags: byte, name: Block)
    requires FreshServer(s) && |name| < 64 && 0 !in name
    ensures var r := Run(DaemonReact, s, [ControlBytes([0x05, 0x01])]);
            r.conn.authenticated && !Tokened(r.log)
    ensures var sub := Codec.Encode(Codec.Subscribe(alias, kind, flags, name));
            var r := Run(DaemonReact, s, [ControlBytes([0x05, 0x01]), ControlBytes(sub)]);
            Raised(Subscribed(TrackId(kind, flags, name))) in r.log && !TokenFirst(r.log)
  {
    ReplyBytes();
    var inputs := [ControlBytes([0x05, 0x01])];
    ReplyAuthenticates(s);
    SubscribeAfter(s, inputs, Codec.Subscribe(alias, kind, flags, name));
    assert inputs + [ControlBytes(Codec.Encode(Codec.Subscribe(alias, kind, flags, name)))]
        == [inputs[0], ControlBytes(Codec.Encode(Codec.Subscribe(alias, kind, flags, name)))];
  }

  lemma ReplyBytes()
    ensures Handshake([Codec.AuthReply(1)]) && EncodeAll([Codec.AuthReply(1)]) == [0x05, 0x01]
  {
    assert EncodeAll([Codec.AuthReply(1)][1..]) == [];
  }

  lemma ReplyAuthenticates(s: Connection<Daemon>)
    requires FreshServer(s)
    ensures var r := Run(DaemonReact, s, [ControlBytes([0x05, 0x01])]);
            r.conn.authenticated && !Tokened(r.log) && r.control == []
  {
    var reply := [Codec.AuthReply(1)];
    ReplyBytes();
    HandshakeExact(s, reply);
    HandshakeLog(s, reply);
    HandshakeEvents(s.conn, reply);
  }

  lemma SubscribeAfter(s: Connection<Daemon>, inputs: seq<Input>, m: Codec.Msg)
    requires Fresh(s) && m.Subscribe? && Codec.Encodable(m)
    requires Run(DaemonReact, s, inputs).conn.authenticated && !Tokened(Run(DaemonReact, s, inputs).log)
    ensures Run(DaemonReact, s, inputs).control == [] ==>
              var r := Run(DaemonReact, s, inputs + [ControlBytes(Codec.Encode(m))]);
              Raised(Subscribed(TrackId(m.kind, m.flags, m.name))) in r.log && !TokenFirst(r.log)
  {
    var b := Run(DaemonReact, s, inputs);
    if b.control == [] {
      RunOne(DaemonReact, s, inputs, ControlBytes(Codec.Encode(m)));
      var out := SubscribeStep(b, m);
      UntokenedFirst(b.log, out);
    }
  }

  lemma SubscribeStep(b: Connection<Daemon>, m: Codec.Msg) returns (out: seq<Effect>)
    requires b.conn.authenticated && b.control == [] && m.Subscribe? && Codec.Encodable(m)
    ensures Step(DaemonReact, b, ControlBytes(Codec.Encode(m))).log == b.log + out
    ensures |out| > 0 && out[0] == Raised(Subscribed(TrackId(m.kind, m.flags, m.name)))
  {
    assert EncodeAll([m]) == Codec.Encode(m) by { assert EncodeAll([m][1..]) == []; }
    ControlRoundTrip(DaemonReact, b.conn, [m]);
    assert b.control + Codec.Encode(m) == Codec.Encode(m);
    out := ApplyAll(DaemonReact, b.conn, [m]).effects;
    FirstEffect(b.conn, m);
  }

  lemma UntokenedFirst(log: seq<Effect>, out: seq<Effect>)
    requires !Tokened(log) && |out| > 0 && Gated(out[0])
    ensures !TokenFirst(log + out) && out[0] in log + out
  {
    assert (log + out)[|log|] == out[0] && (log + out)[..|log|] == log;
  }

  lemma FirstEffect(c: Conn<Daemon>, m: Codec.Msg)
    requires m.Subscribe?
    ensures var out := ApplyAll(DaemonReact, c, [m]).effects;
            |out| > 0 && out[0] == Raised(Subscribed(TrackId(m.kind, m.flags, m.name)))
  {
    assert [m][1..] == [];
  }
}
