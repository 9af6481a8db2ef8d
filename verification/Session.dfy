/** One connection's receive paths: the control stream, track streams and datagrams, with the application callback they
    drive, the subscription table and the authentication flag. */
module Session {
  import opened Bytes
  import opened Tracks
  import opened Codec
  import SP = StreamParser

  /** Events handed to the application callback while parsing. */
  datatype Event =
    | Subscribed(track: TrackId)
    | Unsubscribed(track: TrackId)
    | KeyframeRequested(track: TrackId)
    | Received(track: TrackId, data: Block, keyframe: bool)
    | AuthRequested(token: Block)
    | AuthCompleted(success: bool)

  /** Transport functions an application may call on the connection. */
  datatype Call = RespondAuth(success: bool) | SubscribeTo(track: TrackId) | CloseConnection

  datatype Effect =
    | Raised(event: Event)
    | NackTaken(alias: byte, groupId: nat, objectId: nat, missing: seq<nat>)
    | DatagramTaken(raw: Block)
    | Called(call: Call)

  /** A synchronous deterministic callback: its new state and the calls it makes before returning. */
  type Reactor<!A> = (A, Event) -> (A, seq<Call>)

  datatype Conn<A> = Conn(
    isServer: bool, authenticated: bool, closed: bool, subs: seq<Entry>, out: Block, app: A)

  datatype Applied<A> = Applied(conn: Conn<A>, effects: seq<Effect>)

  predicate GateOpen<A>(c: Conn<A>) { !(c.isServer && !c.authenticated) }

  /** The alias loop of transport_subscribe. */
  function NextAlias(subs: seq<Entry>): (n: nat)
    ensures 8 <= n <= 256
    ensures forall i :: 0 <= i < |subs| && subs[i].active ==> subs[i].alias < n
  {
    if subs == [] then 8
    else
      var n := NextAlias(subs[..|subs| - 1]);
      var e := subs[|subs| - 1];
      if e.active && e.alias >= n then e.alias + 1 else n
  }

  function SubscribeBytes(alias: byte, track: TrackId): (r: Block)
  {
    [0x01, alias, track.kind, track.flags, U8(|track.name|)] + track.name
  }

  /** transport_subscribe on one connection. */
  function Subscribing<A>(c: Conn<A>, track: TrackId): (r: Conn<A>)
  {
    match FindByTrack(c.subs, track)
    case Some(alias) => c.(out := c.out + SubscribeBytes(alias, track))
    case None =>
      var alias := U8(NextAlias(c.subs));
      c.(subs := Add(c.subs, track.kind, track.flags, track.name, alias),
         out := c.out + SubscribeBytes(alias, track))
  }

  function Perform<A>(c: Conn<A>, call: Call): (r: Conn<A>)
  {
    match call
    case RespondAuth(success) =>
      var told := c.(out := c.out + [0x05, if success then 1 else 0]);
      if success then told.(authenticated := true) else told.(closed := true)
    case SubscribeTo(track) => Subscribing(c, track)
    case CloseConnection => c.(closed := true)
  }

  function PerformAll<A>(c: Conn<A>, calls: seq<Call>): (r: Applied<A>)
  {
    if calls == [] then Applied(c, [])
    else
      var n := |calls| - 1;
      var before := PerformAll(c, calls[..n]);
      Applied(Perform(before.conn, calls[n]), before.effects + [Called(calls[n])])
  }

  function Raise<A>(react: Reactor<A>, c: Conn<A>, e: Event): (r: Applied<A>)
  {
    var (app, calls) := react(c.app, e);
    var after := PerformAll(c.(app := app), calls);
    Applied(after.conn, [Raised(e)] + after.effects)
  }

  /** What the control parser does with one complete message. */
  function Apply<A>(react: Reactor<A>, c: Conn<A>, m: Msg): (r: Applied<A>)
  {
    match m
    case Subscribe(alias, kind, flags, name) =>
      Raise(react, c.(subs := Add(c.subs, kind, flags, name, alias)), Subscribed(TrackId(kind, flags, name)))
    case Unsubscribe(kind, flags, name) =>
      Raise(react, c.(subs := Remove(c.subs, kind, name)), Unsubscribed(TrackId(kind, flags, name)))
    case Keyframe(kind, flags, name) => Raise(react, c, KeyframeRequested(TrackId(kind, flags, name)))
    case Unicast(data) => Raise(react, c, Received(TrackId(TRACK_INPUT, 0, []), data, false))
    case Auth(token) => Raise(react, c, AuthRequested(token))
    case AuthReply(status) =>
      Raise(react, if status == 1 then c.(authenticated := true) else c, AuthCompleted(status == 1))
    case ReliableObject(alias, data) =>
      (match FindByAlias(c.subs, alias)
       case Some(track) => Raise(react, c, Received(track.(flags := AsReliable(track.flags)), data, true))
       case None => Applied(c, []))
    case Nack(alias, groupId, objectId, missing) =>
      Applied(c, if FindByAlias(c.subs, alias).Some? then [NackTaken(alias, groupId, objectId, missing)] else [])
    case Skip => Applied(c, [])
  }

  // ----- The control stream -----

  /** One iteration of parse_control_messages. */
  function ControlStep<A>(react: Reactor<A>, c: Conn<A>, input: Block): (r: SP.Outcome<Conn<A>, Effect>)
    ensures r.Advance? ==> 0 < r.size <= |input|
  {
    if input == [] then SP.Wait
    else
      match DecodeHead(GateOpen(c), input)
      case Wait => SP.Wait
      case Refuse => SP.Stop(c.(closed := true))
      case Take(n, m) => var a := Apply(react, c, m); SP.Advance(n, a.conn, a.effects)
  }

  function ControlLoop<A(!new)>(react: Reactor<A>): (step: SP.Iteration<Conn<A>, Effect>)
    ensures SP.Progresses(step)
  {
    (c: Conn<A>, input: Block) => ControlStep(react, c, input)
  }

  lemma ControlStepStable<A>(react: Reactor<A>, c: Conn<A>, x: Block, y: Block)
    requires x != [] && !ControlStep(react, c, x).Wait?
    ensures ControlStep(react, c, x + y) == ControlStep(react, c, x)
    ensures ControlStep(react, c, x).Stop? ==>
              ControlStep(react, ControlStep(react, c, x).final, x) == ControlStep(react, c, x)
  {
    HeadStable(GateOpen(c), x, y);
  }

  lemma ControlLoopStable<A(!new)>(react: Reactor<A>)
    ensures SP.Stable(ControlLoop(react))
  {
    var step := ControlLoop(react);
    forall c, x, y | x != [] && !step(c, x).Wait?
      ensures step(c, x + y) == step(c, x)
    {
      ControlStepStable(react, c, x, y);
    }
    forall c, x | x != [] && step(c, x).Stop?
      ensures step(step(c, x).final, x) == step(c, x)
    {
      ControlStepStable(react, c, x, []);
    }
  }

  /** Chunk independence: any split of any bytes gives the same effects in the same order, the same connection state,
      authentication flag and subscriptions included, and the same unread suffix. */
  lemma ControlChunkIndependence<A(!new)>(react: Reactor<A>, c: Conn<A>, chunks: seq<Block>)
    ensures SP.ReceiveAll(ControlLoop(react), c, chunks) == SP.Parse(ControlLoop(react), c, SP.Concat(chunks))
  {
    ControlLoopStable(react);
    SP.ChunkIndependence(ControlLoop(react), c, chunks);
  }

  // ----- Track streams -----

  /** A track stream's own state is its alias, once it has arrived. */
  datatype TrackState<A> = TrackState(conn: Conn<A>, alias: Option<byte>)

  function Deliver<A>(react: Reactor<A>, c: Conn<A>, alias: byte, data: Block): (r: Applied<A>)
  {
    match FindByAlias(c.subs, alias)
    case Some(track) => Raise(react, c, Received(track, data, true))
    case None => Applied(c, [])
  }

  /** parse_track_stream_messages: first the alias byte, then one record at a time. */
  function TrackStep<A>(react: Reactor<A>, s: TrackState<A>, input: Block): (r: SP.Outcome<TrackState<A>, Effect>)
    ensures r.Advance? ==> 0 < r.size <= |input|
  {
    if input == [] then SP.Wait
    else
      match s.alias
      case None => SP.Advance(1, s.(alias := Some(input[0])), [])
      case Some(alias) =>
        match DecodeRecord(GateOpen(s.conn), input)
        case RecordWait => SP.Wait
        case RecordRefuse => SP.Stop(s.(conn := s.conn.(closed := true)))
        case RecordTake(n, data) =>
          var a := Deliver(react, s.conn, alias, data);
          SP.Advance(n, s.(conn := a.conn), a.effects)
  }

  function TrackLoop<A(!new)>(react: Reactor<A>): (step: SP.Iteration<TrackState<A>, Effect>)
    ensures SP.Progresses(step)
  {
    (s: TrackState<A>, input: Block) => TrackStep(react, s, input)
  }

  lemma TrackStepStable<A>(react: Reactor<A>, s: TrackState<A>, x: Block, y: Block)
    requires x != [] && !TrackStep(react, s, x).Wait?
    ensures TrackStep(react, s, x + y) == TrackStep(react, s, x)
    ensures TrackStep(react, s, x).Stop? ==>
              TrackStep(react, TrackStep(react, s, x).final, x) == TrackStep(react, s, x)
  {
    if s.alias.Some? {
      RecordStable(GateOpen(s.conn), x, y);
    }
  }

  lemma TrackLoopStable<A(!new)>(react: Reactor<A>)
    ensures SP.Stable(TrackLoop(react))
  {
    var step := TrackLoop(react);
    forall s, x, y | x != [] && !step(s, x).Wait?
      ensures step(s, x + y) == step(s, x)
    {
      TrackStepStable(react, s, x, y);
    }
    forall s, x | x != [] && step(s, x).Stop?
      ensures step(step(s, x).final, x) == step(s, x)
    {
      TrackStepStable(react, s, x, []);
    }
  }

  lemma TrackChunkIndependence<A(!new)>(react: Reactor<A>, s: TrackState<A>, chunks: seq<Block>)
    ensures SP.ReceiveAll(TrackLoop(react), s, chunks) == SP.Parse(TrackLoop(react), s, SP.Concat(chunks))
  {
    TrackLoopStable(react);
    SP.ChunkIndependence(TrackLoop(react), s, chunks);
  }

  // ----- Round trip over whole message sequences -----

  predicate Sendable(ms: seq<Msg>) {
    forall i :: 0 <= i < |ms| ==> Encodable(ms[i]) && WithinLimits(ms[i])
  }

  function EncodeAll(ms: seq<Msg>): (r: Block)
    requires Sendable(ms)
  {
    if ms == [] then [] else Encode(ms[0]) + EncodeAll(ms[1..])
  }

  function ApplyAll<A>(react: Reactor<A>, c: Conn<A>, ms: seq<Msg>): (r: Applied<A>)
    decreases |ms|
  {
    if ms == [] then Applied(c, [])
    else
      var a := Apply(react, c, ms[0]);
      var b := ApplyAll(react, a.conn, ms[1..]);
      Applied(b.conn, a.effects + b.effects)
  }

  /** Parsing an encoded sequence does exactly what its messages say, in order, and leaves no byte unread. */
  lemma {:induction false} ControlRoundTrip<A(!new)>(react: Reactor<A>, c: Conn<A>, ms: seq<Msg>)
    requires Sendable(ms) && GateOpen(c)
    ensures var a := ApplyAll(react, c, ms);
            SP.Parse(ControlLoop(react), c, EncodeAll(ms)) == SP.Parsed(a.conn, a.effects, [])
    decreases |ms|
  {
    if ms != [] {
      var rest := EncodeAll(ms[1..]);
      var input := Encode(ms[0]) + rest;
      HeadRoundTrip(ms[0], rest);
      var a := Apply(react, c, ms[0]);
      assert input[|Encode(ms[0])|..] == rest;
      ApplyGate(react, c, ms[0]);
      ControlRoundTrip(react, a.conn, ms[1..]);
      assert ControlLoop(react)(c, input) == SP.Advance(|Encode(ms[0])|, a.conn, a.effects);
    }
  }

  function EncodeRecords(records: seq<Block>): (r: Block)
  {
    if records == [] then [] else EncodeRecord(records[0]) + EncodeRecords(records[1..])
  }

  function DeliverAll<A>(react: Reactor<A>, c: Conn<A>, alias: byte, records: seq<Block>): (r: Applied<A>)
    decreases |records|
  {
    if records == [] then Applied(c, [])
    else
      var a := Deliver(react, c, alias, records[0]);
      var b := DeliverAll(react, a.conn, alias, records[1..]);
      Applied(b.conn, a.effects + b.effects)
  }

  lemma {:induction false} RecordsRoundTrip<A(!new)>(react: Reactor<A>, c: Conn<A>, alias: byte, records: seq<Block>)
    requires GateOpen(c) && forall i :: 0 <= i < |records| ==> |records[i]| < 0x1_0000_0000
    ensures var a := DeliverAll(react, c, alias, records);
            SP.Parse(TrackLoop(react), TrackState(c, Some(alias)), EncodeRecords(records))
            == SP.Parsed(TrackState(a.conn, Some(alias)), a.effects, [])
    decreases |records|
  {
    if records != [] {
      var rest := EncodeRecords(records[1..]);
      var input := EncodeRecord(records[0]) + rest;
      RecordRoundTrip(records[0], rest);
      var a := Deliver(react, c, alias, records[0]);
      assert input[|EncodeRecord(records[0])|..] == rest;
      DeliverGate(react, c, alias, records[0]);
      RecordsRoundTrip(react, a.conn, alias, records[1..]);
      assert TrackLoop(react)(TrackState(c, Some(alias)), input)
          == SP.Advance(|EncodeRecord(records[0])|, TrackState(a.conn, Some(alias)), a.effects);
    }
  }

  /** A track stream as transport_publish writes it, alias first, delivers exactly its records. */
  lemma TrackRoundTrip<A(!new)>(react: Reactor<A>, c: Conn<A>, alias: byte, records: seq<Block>)
    requires GateOpen(c) && forall i :: 0 <= i < |records| ==> |records[i]| < 0x1_0000_0000
    ensures var a := DeliverAll(react, c, alias, records);
            SP.Parse(TrackLoop(react), TrackState(c, None), [alias] + EncodeRecords(records))
            == SP.Parsed(TrackState(a.conn, Some(alias)), a.effects, [])
  {
    RecordsRoundTrip(react, c, alias, records);
    var input := [alias] + EncodeRecords(records);
    assert input[1..] == EncodeRecords(records);
    assert TrackLoop(react)(TrackState(c, None), input) == SP.Advance(1, TrackState(c, Some(alias)), []);
    var p := SP.Parse(TrackLoop(react), TrackState(c, Some(alias)), EncodeRecords(records));
    assert [] + p.effects == p.effects;
  }

  // ----- The authentication flag -----

  /** What a server connection must not do before it is authenticated. */
  predicate Gated(e: Effect) {
    match e
    case Raised(event) => !event.AuthRequested? && !event.AuthCompleted?
    case NackTaken(_, _, _, _) => true
    case DatagramTaken(_) => true
    case Called(_) => false
  }

  /** The two assignments of the flag: an accepting reply received, an accepting reply sent. */
  predicate Grants(e: Effect) { e == Raised(AuthCompleted(true)) || e == Called(RespondAuth(true)) }

  function Flag(start: bool, effects: seq<Effect>): (r: bool)
  {
    if effects == [] then start else Flag(start, effects[..|effects| - 1]) || Grants(effects[|effects| - 1])
  }

  /** Every gated effect finds the flag set, given what came before it. */
  predicate Gatekept(start: bool, effects: seq<Effect>)
  {
    effects == [] ||
    var n := |effects| - 1;
    Gatekept(start, effects[..n]) && (Gated(effects[n]) ==> Flag(start, effects[..n]))
  }

  lemma {:induction false} FlagConcat(start: bool, a: seq<Effect>, b: seq<Effect>)
    ensures Flag(start, a + b) == Flag(Flag(start, a), b)
    ensures Gatekept(start, a + b) == (Gatekept(start, a) && Gatekept(Flag(start, a), b))
  {
    if b == [] {
      assert a + b == a;
    } else {
      var n := |b| - 1;
      assert (a + b)[..|a + b| - 1] == a + b[..n];
      FlagConcat(start, a, b[..n]);
    }
  }

  /** The effects tell how the flag moved, and respect the gate of a server connection. */
  ghost predicate Accounted<A>(c: Conn<A>, c': Conn<A>, effects: seq<Effect>) {
    && c'.isServer == c.isServer
    && c'.authenticated == Flag(c.authenticated, effects)
    && (c.isServer ==> Gatekept(c.authenticated, effects))
  }

  lemma AccountedConcat<A>(c: Conn<A>, d: Conn<A>, e: Conn<A>, a: seq<Effect>, b: seq<Effect>)
    requires Accounted(c, d, a) && Accounted(d, e, b)
    ensures Accounted(c, e, a + b)
  {
    FlagConcat(c.authenticated, a, b);
  }

  lemma {:induction false} PerformAllAccounted<A>(c: Conn<A>, calls: seq<Call>)
    ensures var r := PerformAll(c, calls); Accounted(c, r.conn, r.effects)
  {
    if calls != [] {
      var n := |calls| - 1;
      PerformAllAccounted(c, calls[..n]);
      var before := PerformAll(c, calls[..n]);
      PerformAccounted(before.conn, calls[n]);
      AccountedConcat(c, before.conn, Perform(before.conn, calls[n]), before.effects, [Called(calls[n])]);
    }
  }

  lemma PerformAccounted<A>(c: Conn<A>, call: Call)
    ensures Accounted(c, Perform(c, call), [Called(call)])
  {
    FlagOne(c.authenticated, Called(call));
  }

  lemma RaiseAccounted<A>(react: Reactor<A>, c: Conn<A>, before: Conn<A>, e: Event)
    requires c.isServer == before.isServer && c.authenticated == Flag(before.authenticated, [Raised(e)])
    requires Gated(Raised(e)) && before.isServer ==> before.authenticated
    ensures var r := Raise(react, c, e); Accounted(before, r.conn, r.effects)
  {
    var (app, calls) := react(c.app, e);
    PerformAllAccounted(c.(app := app), calls);
    assert [Raised(e)][..0] == [];
    AccountedConcat(before, c.(app := app), Raise(react, c, e).conn, [Raised(e)],
                    PerformAll(c.(app := app), calls).effects);
  }

  lemma FlagOne(start: bool, e: Effect)
    ensures Flag(start, [e]) == (start || Grants(e))
    ensures Gatekept(start, [e]) == (Gated(e) ==> start)
  {
    assert [e][..0] == [];
  }

  /** Whether the parser hands over this message only when the gate is open. */
  predicate NeedsGate(m: Msg) { !m.Auth? && !m.AuthReply? && !m.Skip? }

  lemma ApplyAccounted<A>(react: Reactor<A>, c: Conn<A>, m: Msg)
    requires NeedsGate(m) ==> GateOpen(c)
    ensures var a := Apply(react, c, m); Accounted(c, a.conn, a.effects)
  {
    match m
    case Subscribe(alias, kind, flags, name) =>
      FlagOne(c.authenticated, Raised(Subscribed(TrackId(kind, flags, name))));
      RaiseAccounted(react, c.(subs := Add(c.subs, kind, flags, name, alias)), c,
                     Subscribed(TrackId(kind, flags, name)));
    case Unsubscribe(kind, flags, name) =>
      FlagOne(c.authenticated, Raised(Unsubscribed(TrackId(kind, flags, name))));
      RaiseAccounted(react, c.(subs := Remove(c.subs, kind, name)), c, Unsubscribed(TrackId(kind, flags, name)));
    case Keyframe(kind, flags, name) =>
      FlagOne(c.authenticated, Raised(KeyframeRequested(TrackId(kind, flags, name))));
      RaiseAccounted(react, c, c, KeyframeRequested(TrackId(kind, flags, name)));
    case Unicast(data) =>
      FlagOne(c.authenticated, Raised(Received(TrackId(TRACK_INPUT, 0, []), data, false)));
      RaiseAccounted(react, c, c, Received(TrackId(TRACK_INPUT, 0, []), data, false));
    case Auth(token) =>
      FlagOne(c.authenticated, Raised(AuthRequested(token)));
      RaiseAccounted(react, c, c, AuthRequested(token));
    case AuthReply(status) =>
      FlagOne(c.authenticated, Raised(AuthCompleted(status == 1)));
      RaiseAccounted(react, if status == 1 then c.(authenticated := true) else c, c, AuthCompleted(status == 1));
    case ReliableObject(alias, data) => ObjectAccounted(react, c, alias, data);
    case Nack(alias, groupId, objectId, missing) =>
      FlagOne(c.authenticated, NackTaken(alias, groupId, objectId, missing));
    case Skip =>
  }

  lemma ObjectAccounted<A>(react: Reactor<A>, c: Conn<A>, alias: byte, data: Block)
    requires GateOpen(c)
    ensures var a := Apply(react, c, ReliableObject(alias, data)); Accounted(c, a.conn, a.effects)
  {
    var track := FindByAlias(c.subs, alias);
    if track.Some? {
      var e := Received(track.value.(flags := AsReliable(track.value.flags)), data, true);
      FlagOne(c.authenticated, Raised(e));
      RaiseAccounted(react, c, c, e);
    }
  }

  lemma DeliverAccounted<A>(react: Reactor<A>, c: Conn<A>, alias: byte, data: Block)
    requires GateOpen(c)
    ensures var a := Deliver(react, c, alias, data); Accounted(c, a.conn, a.effects)
  {
    var track := FindByAlias(c.subs, alias);
    if track.Some? {
      FlagOne(c.authenticated, Raised(Received(track.value, data, true)));
      RaiseAccounted(react, c, c, Received(track.value, data, true));
    }
  }

  lemma {:induction false} FlagMonotone(start: bool, effects: seq<Effect>)
    ensures start ==> Flag(start, effects)
  {
    if effects != [] {
      FlagMonotone(start, effects[..|effects| - 1]);
    }
  }

  lemma ApplyGate<A>(react: Reactor<A>, c: Conn<A>, m: Msg)
    requires GateOpen(c)
    ensures GateOpen(Apply(react, c, m).conn)
  {
    ApplyAccounted(react, c, m);
    FlagMonotone(c.authenticated, Apply(react, c, m).effects);
  }

  lemma DeliverGate<A>(react: Reactor<A>, c: Conn<A>, alias: byte, data: Block)
    requires GateOpen(c)
    ensures GateOpen(Deliver(react, c, alias, data).conn)
  {
    DeliverAccounted(react, c, alias, data);
    FlagMonotone(c.authenticated, Deliver(react, c, alias, data).effects);
  }

  lemma TakenNeedsGate(open: bool, input: Block)
    requires |input| > 0 && DecodeHead(open, input).Take? && NeedsGate(DecodeHead(open, input).msg)
    ensures open
  {}

  lemma ControlStepAccounted<A>(react: Reactor<A>, c: Conn<A>, input: Block)
    requires ControlStep(react, c, input).Advance?
    ensures var r := ControlStep(react, c, input); Accounted(c, r.state, r.effects)
  {
    var head := DecodeHead(GateOpen(c), input);
    if NeedsGate(head.msg) {
      TakenNeedsGate(GateOpen(c), input);
    }
    ApplyAccounted(react, c, head.msg);
  }

  lemma {:induction false} ControlAccounted<A(!new)>(react: Reactor<A>, c: Conn<A>, input: Block)
    ensures var p := SP.Parse(ControlLoop(react), c, input); Accounted(c, p.state, p.effects)
    decreases |input|
  {
    if input != [] {
      var r := ControlStep(react, c, input);
      assert ControlLoop(react)(c, input) == r;
      if r.Advance? {
        ControlStepAccounted(react, c, input);
        ControlAccounted(react, r.state, input[r.size..]);
        var p := SP.Parse(ControlLoop(react), r.state, input[r.size..]);
        AccountedConcat(c, r.state, p.state, r.effects, p.effects);
      }
    }
  }

  lemma {:induction false} TrackAccounted<A(!new)>(react: Reactor<A>, s: TrackState<A>, input: Block)
    ensures var p := SP.Parse(TrackLoop(react), s, input); Accounted(s.conn, p.state.conn, p.effects)
    decreases |input|
  {
    if input != [] {
      var r := TrackStep(react, s, input);
      assert TrackLoop(react)(s, input) == r;
      if r.Advance? {
        if s.alias.Some? {
          DeliverAccounted(react, s.conn, s.alias.value, DecodeRecord(GateOpen(s.conn), input).data);
        }
        TrackAccounted(react, r.state, input[r.size..]);
        var p := SP.Parse(TrackLoop(react), r.state, input[r.size..]);
        AccountedConcat(s.conn, r.state.conn, p.state.conn, r.effects, p.effects);
      }
    }
  }
}
