/** Packet grouping in front of the object protocol, and the daemon's unpacking loop behind it. */
module Grouping {
  import opened Bytes
  import opened Tracks
  import opened Sender

  const MAX_PACKETS: nat := 4
  const MAX_BYTES: nat := 4000
  const MAX_AGE_MS: nat := 3

  // ----- Framing -----

  /** A packet in the buffer: its length in 16 bits, then its bytes. */
  function Frame(p: Block): (r: Block)
    ensures |r| == 2 + |p|
  {
    Be16(|p|) + p
  }

  function FrameAll(ps: seq<Block>): (r: Block)
  {
    if ps == [] then [] else FrameAll(ps[..|ps| - 1]) + Frame(ps[|ps| - 1])
  }

  /** The packets the daemon forwards for an object: as many complete frames as there are at the front. */
  function Unpack(data: Block): (r: seq<Block>)
    decreases |data|
  {
    if |data| < 2 then []
    else
      var n := FromBe16(data);
      if |data| < 2 + n then [] else [data[2..2 + n]] + Unpack(data[2 + n..])
  }

  lemma UnpackNext(data: Block, ptr: nat, n: nat, before: seq<Block>)
    requires ptr + 2 + n <= |data| && FromBe16(data[ptr..]) == n
    ensures before + Unpack(data[ptr..]) == before + [data[ptr + 2..ptr + 2 + n]] + Unpack(data[ptr + 2 + n..])
  {
    var here := data[ptr..];
    assert here[2..2 + n] == data[ptr + 2..ptr + 2 + n];
    assert here[2 + n..] == data[ptr + 2 + n..];
  }

  method UnpackLoop(data: Block) returns (packets: seq<Block>)
    ensures packets == Unpack(data)
  {
    packets := [];
    var ptr, remaining := 0, |data|;
    while remaining >= 2
      invariant ptr + remaining == |data| && 0 <= ptr <= |data|
      invariant packets + Unpack(data[ptr..]) == Unpack(data)
      decreases remaining
    {
      var n := FromBe16(data[ptr..]);
      if remaining < 2 + n {
        break;
      }
      UnpackNext(data, ptr, n, packets);
      packets := packets + [data[ptr + 2..ptr + 2 + n]];
      ptr := ptr + 2 + n;
      remaining := remaining - (2 + n);
    }
    assert Unpack(data[ptr..]) == [];
  }

  predicate Small(ps: seq<Block>) { forall i :: 0 <= i < |ps| ==> |ps[i]| < 0x1_0000 }

  lemma UnpackFrame(p: Block, rest: Block)
    requires |p| < 0x1_0000
    ensures Unpack(Frame(p) + rest) == [p] + Unpack(rest)
  {
    var data := Frame(p) + rest;
    assert data == Be16(|p|) + (p + rest);
    Be16RoundTrip(|p|, p + rest);
    assert data[2..2 + |p|] == p;
    assert data[2 + |p|..] == rest;
  }

  lemma {:induction false} UnpackFrames(ps: seq<Block>, rest: Block)
    requires Small(ps)
    ensures Unpack(FrameAll(ps) + rest) == ps + Unpack(rest)
    decreases |ps|
  {
    if ps == [] {
      assert FrameAll(ps) + rest == rest;
      assert ps + Unpack(rest) == Unpack(rest);
    } else {
      var n := |ps| - 1;
      assert FrameAll(ps) + rest == FrameAll(ps[..n]) + (Frame(ps[n]) + rest);
      UnpackFrames(ps[..n], Frame(ps[n]) + rest);
      UnpackFrame(ps[n], rest);
      assert ps[..n] + ([ps[n]] + Unpack(rest)) == ps + Unpack(rest);
    }
  }

  /** Unpacking undoes framing. */
  lemma UnpackRoundTrip(ps: seq<Block>)
    requires Small(ps)
    ensures Unpack(FrameAll(ps)) == ps
  {
    UnpackFrames(ps, []);
    assert FrameAll(ps) + [] == FrameAll(ps);
    assert ps + [] == ps;
  }

  /** A single packet survives exactly if its size fits the 16-bit length. */
  lemma PacketSurvivesIff(p: Block)
    ensures Unpack(Frame(p)) == [p] <==> |p| < 0x1_0000
  {
    if |p| < 0x1_0000 {
      UnpackFrame(p, []);
      assert Frame(p) + [] == Frame(p);
    } else {
      Be16RoundTrip(|p|, p);
      var out := Unpack(Frame(p));
      assert FromBe16(Frame(p)) == U16(|p|) < |p|;
      assert |out| > 0 ==> |out[0]| == U16(|p|);
    }
  }

  // ----- The buffer -----

  /** The fec_* fields of transport_t. */
  datatype Buffer = Buffer(bytes: Block, first: u64, track: TrackId, objectId: nat, count: nat, priority: byte)

  datatype Input = Packet(track: TrackId, data: Block, prio: byte, at: u64) | Tick(now: u64)

  /** The buffer after a call, and the object published by a flush, if there was one. */
  datatype Result = Result(buffer: Buffer, flushed: Option<Item>)

  function NewBuffer(): (b: Buffer) { Buffer([], 0, TrackId(0, 0, []), 0, 0, 0) }

  function Flush(b: Buffer): (r: Result)
  {
    if b.bytes == [] then Result(b, None)
    else Result(b.(bytes := [], first := 0, count := 0, objectId := U32(b.objectId + 1)),
                Some(Item(b.track, 0, b.objectId, b.bytes, false, b.priority)))
  }

  /** transport_publish on a FEC-enabled DATA track, outside a flush. */
  function Accept(b: Buffer, track: TrackId, data: Block, priority: byte, now: u64): (r: Result)
  {
    var started := if b.bytes == [] then b.(first := now, track := track, priority := priority) else b;
    var full := started.(bytes := started.bytes + Frame(data), count := started.count + 1);
    if full.count >= MAX_PACKETS || |full.bytes| >= MAX_BYTES then Flush(full) else Result(full, None)
  }

  /** The buffer has one track and one priority, those of its first packet: a packet is filed under its own track, or
      its own priority, if and only if the buffer was empty or already had that track, or that priority. */
  lemma PacketFiledUnder(b: Buffer, track: TrackId, data: Block, priority: byte, now: u64)
    ensures var r := Accept(b, track, data, priority, now);
            var filed := if r.flushed.Some? then r.flushed.value.track else r.buffer.track;
            var ranked := if r.flushed.Some? then r.flushed.value.priority else r.buffer.priority;
            && (filed == track <==> b.bytes == [] || b.track == track)
            && (ranked == priority <==> b.bytes == [] || b.priority == priority)
  {}

  /** uint64_t subtraction. */
  function Elapsed(now: u64, then_: u64): (r: nat)
  {
    if now >= then_ then now - then_ else now + 0x1_0000_0000_0000_0000 - then_
  }

  /** The grouping timeout at the head of transport_tick. */
  function OnTick(b: Buffer, now: u64): (r: Result)
  {
    if b.bytes != [] && Elapsed(now, b.first) >= MAX_AGE_MS then Flush(b) else Result(b, None)
  }

  function Step(b: Buffer, i: Input): (r: Result)
  {
    match i
    case Packet(track, data, priority, now) => Accept(b, track, data, priority, now)
    case Tick(now) => OnTick(b, now)
  }

  // ----- Runs -----

  /** History of a run: the objects flushed and the packets grouped into each; the packets still held; and for both, the
      tracks they were published on, for the latter also the times. */
  datatype State = State(
    buffer: Buffer, objects: seq<Item>, groups: seq<seq<Block>>, origins: seq<seq<TrackId>>,
    held: seq<Block>, tracks: seq<TrackId>, times: seq<u64>)

  function Next(s: State, i: Input): (s': State)
  {
    var r := Step(s.buffer, i);
    var held := if i.Packet? then s.held + [i.data] else s.held;
    var tracks := if i.Packet? then s.tracks + [i.track] else s.tracks;
    var times := if i.Packet? then s.times + [i.at] else s.times;
    if r.flushed.Some? then
      State(r.buffer, s.objects + [r.flushed.value], s.groups + [held], s.origins + [tracks], [], [], [])
    else State(r.buffer, s.objects, s.groups, s.origins, held, tracks, times)
  }

  function Run(inputs: seq<Input>): (s: State)
  {
    if inputs == [] then State(NewBuffer(), [], [], [], [], [], [])
    else Next(Run(inputs[..|inputs| - 1]), inputs[|inputs| - 1])
  }

  function Published(inputs: seq<Input>): (r: seq<Block>)
  {
    if inputs == [] then []
    else
      var i := inputs[|inputs| - 1];
      Published(inputs[..|inputs| - 1]) + if i.Packet? then [i.data] else []
  }

  function Flatten(groups: seq<seq<Block>>): (r: seq<Block>)
  {
    if groups == [] then [] else Flatten(groups[..|groups| - 1]) + groups[|groups| - 1]
  }

  /** What the daemon at the other end makes of a list of objects, in order. */
  function UnpackAll(objects: seq<Item>): (r: seq<Block>)
  {
    if objects == [] then [] else UnpackAll(objects[..|objects| - 1]) + Unpack(objects[|objects| - 1].data)
  }

  ghost predicate Inv(s: State, published: seq<Block>) {
    && s.buffer.bytes == FrameAll(s.held) && s.buffer.count == |s.held| < MAX_PACKETS && |s.buffer.bytes| < MAX_BYTES
    && s.buffer.objectId == U32(|s.objects|)
    && Flatten(s.groups) + s.held == published
    && History(s.objects, s.groups)
  }

  ghost predicate History(objects: seq<Item>, groups: seq<seq<Block>>) {
    |objects| == |groups| && forall i :: 0 <= i < |objects| ==> GroupedAs(objects[i], i, groups[i])
  }

  /** Object number i carries exactly these packets. */
  predicate GroupedAs(item: Item, i: nat, group: seq<Block>) {
    && item.groupId == 0 && item.objectId == U32(i) && !item.keyframe
    && item.data == FrameAll(group) && 1 <= |group| <= MAX_PACKETS
  }

  lemma {:induction false} FrameAllSize(ps: seq<Block>)
    ensures |FrameAll(ps)| >= 2 * |ps|
  {
    if ps != [] {
      FrameAllSize(ps[..|ps| - 1]);
    }
  }

  lemma FrameAllGrows(ps: seq<Block>, p: Block)
    ensures FrameAll(ps + [p]) == FrameAll(ps) + Frame(p)
  {
    assert (ps + [p])[..|ps|] == ps;
  }

  lemma U32Next(n: nat)
    ensures U32(U32(n) + 1) == U32(n + 1)
  {}

  lemma FlattenGrows(groups: seq<seq<Block>>, group: seq<Block>)
    ensures Flatten(groups + [group]) == Flatten(groups) + group
  {
    assert (groups + [group])[..|groups|] == groups;
  }

  lemma GroupsGrow(objects: seq<Item>, groups: seq<seq<Block>>, item: Item, group: seq<Block>)
    requires History(objects, groups) && GroupedAs(item, |objects|, group)
    ensures History(objects + [item], groups + [group])
  {}

  /** A flush turns what is held into the next object and its group. */
  lemma FlushKeeps(b: Buffer, s: State, s': State, held: seq<Block>, published: seq<Block>)
    requires b.bytes == FrameAll(held) && b.bytes != [] && |held| <= MAX_PACKETS && b.objectId == U32(|s.objects|)
    requires Flatten(s.groups) + held == published && History(s.objects, s.groups)
    requires Flush(b).flushed.Some? && s'.buffer == Flush(b).buffer && s'.held == []
    requires s'.objects == s.objects + [Flush(b).flushed.value] && s'.groups == s.groups + [held]
    ensures Inv(s', published)
  {
    U32Next(|s.objects|);
    FlattenGrows(s.groups, held);
    assert Flatten(s'.groups) + [] == published;
    GroupsGrow(s.objects, s.groups, Flush(b).flushed.value, held);
  }

  /** The buffer with one more packet in it, before it is decided whether to flush. */
  function Filled(b: Buffer, i: Input): (r: Buffer)
    requires i.Packet?
  {
    var started := if b.bytes == [] then b.(first := i.at, track := i.track, priority := i.prio) else b;
    started.(bytes := started.bytes + Frame(i.data), count := started.count + 1)
  }

  predicate FlushDue(b: Buffer) { b.count >= MAX_PACKETS || |b.bytes| >= MAX_BYTES }

  lemma AcceptIs(b: Buffer, i: Input)
    requires i.Packet?
    ensures Step(b, i) == if FlushDue(Filled(b, i)) then Flush(Filled(b, i)) else Result(Filled(b, i), None)
  {}

  lemma FilledKeeps(s: State, i: Input, published: seq<Block>)
    requires Inv(s, published) && i.Packet?
    ensures var full, held := Filled(s.buffer, i), s.held + [i.data];
            && full.bytes == FrameAll(held) && full.bytes != [] && full.count == |held| <= MAX_PACKETS
            && full.objectId == U32(|s.objects|) && Flatten(s.groups) + held == published + [i.data]
  {
    FrameAllGrows(s.held, i.data);
    assert Flatten(s.groups) + (s.held + [i.data]) == (Flatten(s.groups) + s.held) + [i.data];
  }

  lemma PacketKeeps(s: State, i: Input, published: seq<Block>)
    requires Inv(s, published) && i.Packet?
    ensures Inv(Next(s, i), published + [i.data])
  {
    FilledKeeps(s, i, published);
    AcceptIs(s.buffer, i);
    var full := Filled(s.buffer, i);
    if FlushDue(full) {
      FlushKeeps(full, s, Next(s, i), s.held + [i.data], published + [i.data]);
    }
  }

  lemma TickKeeps(s: State, i: Input, published: seq<Block>)
    requires Inv(s, published) && i.Tick?
    ensures Inv(Next(s, i), published)
  {
    if OnTick(s.buffer, i.now).flushed.Some? {
      FlushKeeps(s.buffer, s, Next(s, i), s.held, published);
    }
  }

  lemma {:induction false} RunKeeps(inputs: seq<Input>)
    ensures Inv(Run(inputs), Published(inputs))
  {
    if inputs != [] {
      var n := |inputs| - 1;
      RunKeeps(inputs[..n]);
      if inputs[n].Packet? {
        PacketKeeps(Run(inputs[..n]), inputs[n], Published(inputs[..n]));
      } else {
        TickKeeps(Run(inputs[..n]), inputs[n], Published(inputs[..n]));
        assert Published(inputs) == Published(inputs[..n]);
      }
    }
  }

  // ----- The promises -----

  lemma SmallParts(a: seq<Block>, b: seq<Block>)
    ensures Small(a + b) <==> Small(a) && Small(b)
  {
    if Small(a + b) {
      assert forall i :: 0 <= i < |a| ==> (a + b)[i] == a[i];
      assert forall i :: 0 <= i < |b| ==> (a + b)[|a| + i] == b[i];
    }
  }

  lemma UnpackGroup(item: Item, i: nat, group: seq<Block>)
    requires GroupedAs(item, i, group) && Small(group)
    ensures Unpack(item.data) == group
  {
    UnpackRoundTrip(group);
  }

  lemma {:induction false} UnpackGroups(objects: seq<Item>, groups: seq<seq<Block>>)
    requires History(objects, groups) && Small(Flatten(groups))
    ensures UnpackAll(objects) == Flatten(groups)
  {
    if objects != [] {
      var n := |objects| - 1;
      SmallParts(Flatten(groups[..n]), groups[n]);
      UnpackGroups(objects[..n], groups[..n]);
      UnpackGroup(objects[n], n, groups[n]);
    }
  }

  lemma {:induction false} GroupIsSmall(groups: seq<seq<Block>>, i: nat)
    requires Small(Flatten(groups)) && i < |groups|
    ensures Small(groups[i])
  {
    var n := |groups| - 1;
    SmallParts(Flatten(groups[..n]), groups[n]);
    if i < n {
      GroupIsSmall(groups[..n], i);
    }
  }

  /** Whatever bytes are unpacked, each packet's size fits 16 bits. */
  lemma {:induction false} UnpackIsSmall(data: Block)
    ensures Small(Unpack(data))
    decreases |data|
  {
    if |data| >= 2 {
      var n := FromBe16(data);
      if |data| >= 2 + n {
        UnpackIsSmall(data[2 + n..]);
        SmallParts([data[2..2 + n]], Unpack(data[2 + n..]));
      }
    }
  }

  lemma {:induction false} UnpackAllIsSmall(objects: seq<Item>)
    ensures Small(UnpackAll(objects))
  {
    if objects != [] {
      var n := |objects| - 1;
      UnpackAllIsSmall(objects[..n]);
      UnpackIsSmall(objects[n].data);
      SmallParts(UnpackAll(objects[..n]), Unpack(objects[n].data));
    }
  }

  /** For every run of publish and tick calls, whatever the tracks: the groups in order followed by what is held are
      the published packets. Unpacking all flushed objects in order, and then the buffer, gives them back if and only
      if each of them is below 65536 bytes. Between calls fewer than 4 packets and fewer than 4000 bytes are held, and
      object ids count up from 0. */
  lemma GroupingConserves(inputs: seq<Input>)
    ensures var s := Run(inputs);
            && (UnpackAll(s.objects) + Unpack(s.buffer.bytes) == Published(inputs) <==> Small(Published(inputs)))
            && s.buffer.count < 4 && |s.buffer.bytes| < 4000
            && |s.objects| == |s.groups|
            && (forall i :: 0 <= i < |s.objects| ==> s.objects[i].objectId == U32(i))
            && Flatten(s.groups) + s.held == Published(inputs)
  {
    RunKeeps(inputs);
    var s := Run(inputs);
    SmallParts(Flatten(s.groups), s.held);
    if Small(Published(inputs)) {
      UnpackGroups(s.objects, s.groups);
      UnpackRoundTrip(s.held);
    }
    UnpackAllIsSmall(s.objects);
    UnpackIsSmall(s.buffer.bytes);
    SmallParts(UnpackAll(s.objects), Unpack(s.buffer.bytes));
  }

  /** Each flushed object is unpacked into its own group. */
  lemma ObjectUnpacks(inputs: seq<Input>, i: nat)
    requires Small(Published(inputs)) && i < |Run(inputs).objects|
    ensures |Run(inputs).groups| == |Run(inputs).objects|
    ensures Unpack(Run(inputs).objects[i].data) == Run(inputs).groups[i]
  {
    RunKeeps(inputs);
    var s := Run(inputs);
    SmallParts(Flatten(s.groups), s.held);
    GroupIsSmall(s.groups, i);
    UnpackGroup(s.objects[i], i, s.groups[i]);
  }

  // ----- Age -----

  function TimeOf(i: Input): u64 { if i.Packet? then i.at else i.now }

  /** The clock does not go back. */
  predicate Monotone(inputs: seq<Input>) {
    forall i, j :: 0 <= i < j < |inputs| ==> TimeOf(inputs[i]) <= TimeOf(inputs[j])
  }

  /** The buffer's timestamp is that of the first packet held. */
  ghost predicate Timed(s: State) {
    |s.times| == |s.held| && (s.held == [] <==> s.buffer.bytes == []) && (s.held != [] ==> s.buffer.first == s.times[0])
  }

  lemma {:induction false} RunTimed(inputs: seq<Input>)
    ensures Timed(Run(inputs))
  {
    if inputs != [] {
      RunTimed(inputs[..|inputs| - 1]);
      NextTimed(Run(inputs[..|inputs| - 1]), inputs[|inputs| - 1]);
    }
  }

  lemma NextTimed(s: State, i: Input)
    requires Timed(s)
    ensures Timed(Next(s, i))
  {}

  /** The buffer's timestamp is not after the time of any packet held, and none of these is after now. */
  ghost predicate Aged(s: State, now: u64) {
    && |s.times| == |s.held| && (s.held == [] <==> s.buffer.bytes == [])
    && forall i :: 0 <= i < |s.times| ==> s.buffer.first <= s.times[i] <= now
  }

  lemma NextAged(s: State, i: Input, now: u64)
    requires Aged(s, now) && now <= TimeOf(i)
    ensures Aged(Next(s, i), TimeOf(i))
  {
    if s.times != [] {
      assert s.buffer.first <= s.times[0];
    }
  }

  /** The buffer's timestamp bounds the time of every packet held. */
  lemma {:induction false} FirstIsOldest(inputs: seq<Input>)
    requires Monotone(inputs)
    ensures Aged(Run(inputs), if inputs == [] then 0 else TimeOf(inputs[|inputs| - 1]))
  {
    if inputs != [] {
      var n := |inputs| - 1;
      FirstIsOldest(inputs[..n]);
      NextAged(Run(inputs[..n]), inputs[n], if n == 0 then 0 else TimeOf(inputs[n - 1]));
    }
  }

  /** After a tick nothing held is 3 ms old or more. */
  lemma TickBoundsAge(inputs: seq<Input>, i: nat)
    requires Monotone(inputs) && inputs != [] && inputs[|inputs| - 1].Tick?
    requires i < |Run(inputs).times|
    ensures |Run(inputs).times| == |Run(inputs).held|
    ensures inputs[|inputs| - 1].now - Run(inputs).times[i] < 3
  {
    FirstIsOldest(inputs);
    FirstIsOldest(inputs[..|inputs| - 1]);
  }

  // ----- Exactly when a group ends -----

  /** What a run has done when it flushes: everything held, the latest packet included, is the next group, and nothing
      is held; and when it does not: the packet, if it was one, is held with the others. */
  predicate Flushed(s: State, s': State, held: seq<Block>) {
    |s'.objects| == |s.objects| + 1 && s'.groups == s.groups + [held] && s'.held == []
  }

  predicate Kept(s: State, s': State, held: seq<Block>) {
    s'.objects == s.objects && s'.groups == s.groups && s'.held == held
  }

  lemma RunNext(inputs: seq<Input>, i: Input)
    ensures Run(inputs + [i]) == Next(Run(inputs), i)
  {
    assert (inputs + [i])[..|inputs|] == inputs;
  }

  /** Over every run, a packet ends the group if and only if it is the fourth of it or brings it to 4000 bytes. */
  lemma PacketFlushesIff(inputs: seq<Input>, i: Input)
    requires i.Packet?
    ensures var s, s' := Run(inputs), Run(inputs + [i]);
            var held := s.held + [i.data];
            if |held| == 4 || |FrameAll(held)| >= 4000 then Flushed(s, s', held) else Kept(s, s', held)
  {
    RunKeeps(inputs);
    RunNext(inputs, i);
    FilledKeeps(Run(inputs), i, Published(inputs));
    AcceptIs(Run(inputs).buffer, i);
  }

  /** Over every run, a tick ends the group if and only if there is one and its first packet was published 3 ms ago or
      more, in the 64-bit arithmetic of the clock; with a clock that has not gone back since, simply 3 ms ago or more.
      */
  lemma TickFlushesIff(inputs: seq<Input>, now: u64)
    ensures var s, s' := Run(inputs), Run(inputs + [Tick(now)]);
            && |s.times| == |s.held|
            && (if s.held != [] && (now - s.times[0]) % 0x1_0000_0000_0000_0000 >= 3 then Flushed(s, s', s.held)
                else Kept(s, s', s.held))
            && (s.held != [] && s.times[0] <= now ==>
                  (Flushed(s, s', s.held) <==> now - s.times[0] >= 3))
  {
    RunKeeps(inputs);
    RunTimed(inputs);
    RunNext(inputs, Tick(now));
    var s := Run(inputs);
    if s.held != [] {
      ElapsedIs(now, s.times[0]);
    }
  }

  lemma ElapsedIs(now: u64, then_: u64)
    ensures Elapsed(now, then_) == (now - then_) % 0x1_0000_0000_0000_0000
  {}

  // ----- Tracks -----

  /** The buffer, and each object, has the track of its first packet. */
  ghost predicate FirstTrack(s: State) {
    && |s.tracks| == |s.held| && |s.origins| == |s.objects|
    && (s.held != [] ==> s.buffer.track == s.tracks[0] && s.buffer.bytes != [])
    && (s.held == [] ==> s.buffer.bytes == [])
    && forall i :: 0 <= i < |s.objects| ==> s.origins[i] != [] && s.objects[i].track == s.origins[i][0]
  }

  lemma NextFirstTrack(s: State, i: Input)
    requires FirstTrack(s)
    ensures FirstTrack(Next(s, i))
  {}

  lemma {:induction false} ObjectHasFirstTrack(inputs: seq<Input>)
    ensures FirstTrack(Run(inputs))
  {
    if inputs != [] {
      ObjectHasFirstTrack(inputs[..|inputs| - 1]);
      NextFirstTrack(Run(inputs[..|inputs| - 1]), inputs[|inputs| - 1]);
    }
  }

  predicate Only(tracks: seq<TrackId>, track: TrackId) { forall j :: 0 <= j < |tracks| ==> tracks[j] == track }

  /** Every packet flushed so far went out under its own track, and every packet held will. */
  predicate OwnTracks(s: State) {
    && |s.origins| == |s.objects|
    && (forall i :: 0 <= i < |s.objects| ==> Only(s.origins[i], s.objects[i].track))
    && Only(s.tracks, s.buffer.track)
  }

  /** The packet joins only packets of its own track. */
  predicate Joins(s: State, i: Input) { i.Packet? && s.held != [] ==> i.track == s.buffer.track }

  /** No packet is published while the buffer holds one of another track. */
  predicate NeverMixed(inputs: seq<Input>) {
    forall n :: 0 <= n < |inputs| ==> Joins(Run(inputs[..n]), inputs[n])
  }

  lemma OnlyGrows(tracks: seq<TrackId>, t: TrackId, track: TrackId)
    ensures Only(tracks + [t], track) <==> Only(tracks, track) && t == track
  {
    if Only(tracks + [t], track) {
      assert (tracks + [t])[|tracks|] == t;
      assert forall j :: 0 <= j < |tracks| ==> (tracks + [t])[j] == tracks[j];
    }
  }

  lemma OriginsGrow(objects: seq<Item>, origins: seq<seq<TrackId>>, item: Item, tracks: seq<TrackId>)
    requires |origins| == |objects|
    ensures (forall i :: 0 <= i < |objects + [item]| ==>
               Only((origins + [tracks])[i], (objects + [item])[i].track)) <==>
            (forall i :: 0 <= i < |objects| ==> Only(origins[i], objects[i].track)) && Only(tracks, item.track)
  {
    var all, from := objects + [item], origins + [tracks];
    if forall i :: 0 <= i < |all| ==> Only(from[i], all[i].track) {
      assert Only(from[|objects|], all[|objects|].track);
      forall i | 0 <= i < |objects|
        ensures Only(origins[i], objects[i].track)
      {
        assert Only(from[i], all[i].track);
      }
    }
  }

  lemma NextOwnTracks(s: State, i: Input)
    requires FirstTrack(s)
    ensures OwnTracks(Next(s, i)) <==> OwnTracks(s) && Joins(s, i)
  {
    var s', r := Next(s, i), Step(s.buffer, i);
    var tracks := if i.Packet? then s.tracks + [i.track] else s.tracks;
    var track := if i.Packet? && s.buffer.bytes == [] then i.track else s.buffer.track;
    if i.Packet? {
      OnlyGrows(s.tracks, i.track, track);
    }
    assert Only(tracks, track) <==> Only(s.tracks, s.buffer.track) && Joins(s, i);
    if r.flushed.Some? {
      OriginsGrow(s.objects, s.origins, r.flushed.value, tracks);
      assert r.flushed.value.track == track;
    }
  }

  /** Over every run: each packet travels under its own track if and only if none is published while the buffer holds a
      packet of another track. */
  lemma {:induction false} OwnTracksIff(inputs: seq<Input>)
    ensures OwnTracks(Run(inputs)) <==> NeverMixed(inputs)
  {
    if inputs != [] {
      var n := |inputs| - 1;
      OwnTracksIff(inputs[..n]);
      ObjectHasFirstTrack(inputs[..n]);
      NextOwnTracks(Run(inputs[..n]), inputs[n]);
      NeverMixedGrows(inputs);
    }
  }

  lemma NeverMixedGrows(inputs: seq<Input>)
    requires inputs != []
    ensures var n := |inputs| - 1;
            NeverMixed(inputs) <==> NeverMixed(inputs[..n]) && Joins(Run(inputs[..n]), inputs[n])
  {
    var n := |inputs| - 1;
    assert forall m :: 0 <= m < n ==> inputs[..n][..m] == inputs[..m];
    if NeverMixed(inputs) {
      forall m | 0 <= m < n
        ensures Joins(Run(inputs[..n][..m]), inputs[..n][m])
      {
        assert Joins(Run(inputs[..m]), inputs[m]);
      }
    }
    if NeverMixed(inputs[..n]) && Joins(Run(inputs[..n]), inputs[n]) {
      forall m | 0 <= m < |inputs|
        ensures Joins(Run(inputs[..m]), inputs[m])
      {
        assert m < n ==> Joins(Run(inputs[..n][..m]), inputs[..n][m]);
      }
    }
  }

  /** Two packets published on two tracks within 3 ms leave as one object under the track of the first. */
  lemma TwoTracksMixed(a: TrackId, b: TrackId, p: Block, q: Block)
    requires a != b && |p| < 1000 && |q| < 1000
    ensures var s := Run([Packet(a, p, 0, 0), Packet(b, q, 0, 1), Tick(10)]);
            && |s.objects| == 1 && s.objects[0].track == a
            && Unpack(s.objects[0].data) == [p, q] && s.origins == [[a, b]] && !OwnTracks(s)
  {
    var inputs := [Packet(a, p, 0, 0), Packet(b, q, 0, 1), Tick(10)];
    RunThree(inputs[0], inputs[1], inputs[2]);
    var one := Next(Run([]), inputs[0]);
    assert one.buffer == Buffer(Frame(p), 0, a, 0, 1, 0) && one.tracks == [a] by { assert [] + Frame(p) == Frame(p); }
    var two := Next(one, inputs[1]);
    assert two.buffer == Buffer(Frame(p) + Frame(q), 0, a, 0, 2, 0) && two.tracks == [a, b];
    var s := Next(two, inputs[2]);
    assert s.objects == [Item(a, 0, 0, Frame(p) + Frame(q), false, 0)] && s.origins == [[a, b]];
    assert s.origins[0][1] == b;
    UnpackTwo(p, q);
  }

  lemma RunThree(i: Input, j: Input, k: Input)
    ensures Run([i, j, k]) == Next(Next(Next(Run([]), i), j), k)
  {
    assert [i, j, k][..2] == [i, j] && [i, j][..1] == [i] && [i][..0] == [];
    assert Run([i]) == Next(Run([]), i);
    assert Run([i, j]) == Next(Run([i]), j);
  }

  lemma UnpackTwo(p: Block, q: Block)
    requires |p| < 1000 && |q| < 1000
    ensures Unpack(Frame(p) + Frame(q)) == [p, q]
  {
    UnpackFrame(p, Frame(q));
    UnpackFrame(q, []);
    assert Frame(q) + [] == Frame(q);
  }
}
