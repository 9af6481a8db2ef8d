/** From packets published on one tunnel track to packets forwarded at the other end. */
module EndToEnd {
  import opened Bytes
  import opened Tracks
  import opened Sender
  import opened Assembler
  import opened Residency
  import opened Protocol
  import opened Delivery
  import opened Guarantees
  import Grouping

  // ----- When framing and unpacking agree -----

  /** Whether transport_publish puts packets of the track into the grouping buffer: some subscription of the peer asks
      for FEC on it. */
  predicate Grouped(subs: seq<Entry>, track: TrackId) {
    && track.kind == TRACK_DATA
    && exists i :: 0 <= i < |subs| && Holds(subs[i], track.kind, track.name) && FecEnabled(subs[i].track.flags)
  }

  /** In a table with one entry per track: a peer's SUBSCRIBE for a DATA track makes its packets grouped if and only
      if it asks for FEC, and leaves every other track as it was. */
  lemma GroupedAsAsked(subs: seq<Entry>, flags: byte, name: Block, alias: byte, track: TrackId)
    requires forall i, j :: 0 <= i < j < |subs| && Holds(subs[i], TRACK_DATA, name) ==>
               !Holds(subs[j], TRACK_DATA, name)
    requires exists i :: 0 <= i < |subs| && (!subs[i].active || Holds(subs[i], TRACK_DATA, name))
    ensures var r := Add(subs, TRACK_DATA, flags, name, alias);
            if track.kind == TRACK_DATA && track.name == name then Grouped(r, track) <==> FecEnabled(flags)
            else Grouped(r, track) <==> Grouped(subs, track)
  {
    var r := Add(subs, TRACK_DATA, flags, name, alias);
    var i := IndexOf(r, TRACK_DATA, name);
    AddExact(subs, TRACK_DATA, flags, name, alias);
    if track.kind == TRACK_DATA && track.name == name {
      assert Holds(r[i], TRACK_DATA, name);
      assert forall j :: 0 <= j < |r| && j != i ==> !Holds(r[j], TRACK_DATA, name);
    } else {
      assert forall j :: 0 <= j < |r| ==>
          (Holds(r[j], track.kind, track.name) <==> Holds(subs[j], track.kind, track.name));
      if Grouped(subs, track) {
        var j :| 0 <= j < |subs| && Holds(subs[j], track.kind, track.name) && FecEnabled(subs[j].track.flags);
        assert Holds(r[j], track.kind, track.name) && r[j] == subs[j];
      }
    }
  }

  /** The objects sent for packets that make one group: that group, or without grouping each packet by itself. */
  function Objects(grouped: bool, ps: seq<Block>): (objects: seq<Block>)
  {
    if grouped then [Grouping.FrameAll(ps)] else ps
  }

  /** What the daemon forwards for an object event on this track. */
  function Forwarded(track: TrackId, data: Block): (packets: seq<Block>)
  {
    if track.kind == TRACK_DATA && FecEnabled(track.flags) then Grouping.Unpack(data) else [data]
  }

  function ForwardedAll(track: TrackId, objects: seq<Block>): (packets: seq<Block>)
  {
    if objects == [] then []
    else ForwardedAll(track, objects[..|objects| - 1]) + Forwarded(track, objects[|objects| - 1])
  }

  function Octets(ps: seq<Block>): (n: nat)
  {
    if ps == [] then 0 else Octets(ps[..|ps| - 1]) + |ps[|ps| - 1]|
  }

  lemma {:induction false} OctetsConcat(a: seq<Block>, b: seq<Block>)
    ensures Octets(a + b) == Octets(a) + Octets(b)
  {
    if b == [] {
      assert a + b == a;
    } else {
      OctetsConcat(a, b[..|b| - 1]);
      assert (a + b)[..|a + b| - 1] == a + b[..|b| - 1];
    }
  }

  lemma OnePacket(p: Block)
    ensures Octets([p]) == |p|
  {
    var ps := [p];
    assert ps[..0] == [];
  }

  /** Unpacking takes two bytes off every packet it finds, and finds none longer than 16 bits can say. */
  lemma {:induction false} UnpackShrinks(data: Block)
    ensures var out := Grouping.Unpack(data); Octets(out) + 2 * |out| <= |data| && Grouping.Small(out)
    decreases |data|
  {
    if |data| >= 2 && |data| >= 2 + FromBe16(data) {
      var first, rest := data[2..2 + FromBe16(data)], data[2 + FromBe16(data)..];
      UnpackShrinks(rest);
      OctetsConcat([first], Grouping.Unpack(rest));
      OnePacket(first);
      assert Grouping.Unpack(data) == [first] + Grouping.Unpack(rest);
    }
  }

  lemma {:induction false} UnpackedShrink(track: TrackId, ps: seq<Block>)
    requires track.kind == TRACK_DATA && FecEnabled(track.flags)
    ensures var out := ForwardedAll(track, ps); Octets(out) + 2 * |out| <= Octets(ps)
  {
    if ps != [] {
      var n := |ps| - 1;
      UnpackedShrink(track, ps[..n]);
      UnpackShrinks(ps[n]);
      OctetsConcat(ForwardedAll(track, ps[..n]), Grouping.Unpack(ps[n]));
    }
  }

  lemma {:induction false} FramesAreLonger(ps: seq<Block>)
    ensures |Grouping.FrameAll(ps)| == Octets(ps) + 2 * |ps|
  {
    if ps != [] {
      FramesAreLonger(ps[..|ps| - 1]);
    }
  }

  lemma GroupForwards(track: TrackId, ps: seq<Block>)
    requires track.kind == TRACK_DATA && ps != []
    ensures ForwardedAll(track, [Grouping.FrameAll(ps)]) == ps <==> FecEnabled(track.flags) && Grouping.Small(ps)
  {
    var data := Grouping.FrameAll(ps);
    var objects := [data];
    assert objects[..0] == [];
    assert ForwardedAll(track, objects) == Forwarded(track, data);
    FramesAreLonger(ps);
    if !FecEnabled(track.flags) {
      assert |ps| == 1 ==> ps[..0] == [] && Octets(ps) == |ps[0]|;
    } else if Grouping.Small(ps) {
      Grouping.UnpackRoundTrip(ps);
    } else {
      UnpackShrinks(data);
    }
  }

  /** A group of DATA packets comes out at the other daemon as it went in if and only if the receiving side sees the FEC
      flag exactly when the sending side groups, and the sizes of grouped packets fit 16 bits. The datagram path always
      sets the flag; on a track stream it is the flag of the receiver's own subscription. */
  lemma FramingAgreesIff(subs: seq<Entry>, track: TrackId, there: TrackId, datagrams: bool, ps: seq<Block>)
    requires track.kind == there.kind == TRACK_DATA && ps != []
    ensures var flags := if datagrams then AsDatagram(there.flags) else there.flags;
            ForwardedAll(there.(flags := flags), Objects(Grouped(subs, track), ps)) == ps <==>
            (Grouped(subs, track) <==> FecEnabled(flags)) && (Grouped(subs, track) ==> Grouping.Small(ps))
  {
    var flags := if datagrams then AsDatagram(there.flags) else there.flags;
    var seen := there.(flags := flags);
    if Grouped(subs, track) {
      GroupForwards(seen, ps);
    } else if FecEnabled(flags) {
      UnpackedShrink(seen, ps);
    } else {
      OthersForwarded(seen, ps);
    }
  }

  /** DATA packets published over datagrams to a peer that did not ask for FEC are never forwarded as they were. */
  lemma UngroupedIsMangled(subs: seq<Entry>, track: TrackId, there: TrackId, ps: seq<Block>)
    requires track.kind == there.kind == TRACK_DATA && !Grouped(subs, track) && ps != []
    ensures ForwardedAll(there.(flags := AsDatagram(there.flags)), Objects(Grouped(subs, track), ps)) != ps
  {
    FramingAgreesIff(subs, track, there, true, ps);
  }

  /** Objects of other tracks, and of DATA tracks without the FEC flag, are forwarded as they are. */
  lemma {:induction false} OthersForwarded(track: TrackId, objects: seq<Block>)
    requires track.kind != 4 || track.flags / 2 % 2 == 0
    ensures ForwardedAll(track, objects) == objects
  {
    if objects != [] {
      OthersForwarded(track, objects[..|objects| - 1]);
      assert objects == objects[..|objects| - 1] + [objects[|objects| - 1]];
    }
  }

  // ----- From end to end -----

  /** The object event of a grouped or an ungrouped object: n is its number among the objects sent, and g, if it is one
      that the grouping run flushed, its number among those. */
  ghost predicate ForwardedAs(s: System, o: Output, n: nat, g: nat, grouping: Grouping.State)
    requires o.Delivered? && n < |s.sent|
  {
    var item := s.sent[n].item;
    && Names(o.track, o.groupId, o.objectId, item) && o.data == item.data
    && if item in grouping.objects then
         && g < |grouping.groups| == |grouping.objects| && grouping.objects[g] == item
         && Forwarded(o.track, o.data) == grouping.groups[g] && o.objectId == U32(g)
       else Forwarded(o.track, o.data) != [o.data]
  }

  /** Whatever the network does, and whatever else is published on the track: each DATA object delivered is one that
      was published; if it is one of a grouping run, the daemon unpacks it into exactly one group of the published
      packets, in order and unaltered, and otherwise it forwards something else than the object. The groups laid end
      to end, followed by the packets still held, are the packets of the grouping run. */
  lemma ForwardedPacketsArePublished(cfg: Config, run: Run, t: nat, k: nat, inputs: seq<Grouping.Input>)
    returns (n: nat, g: nat)
    requires Sane(cfg) && IsRun(cfg, run) && t < |run.states|
    requires Grouping.Small(Grouping.Published(inputs))
    requires k < |run.states[t].log| && run.states[t].log[k].output.Delivered?
    requires run.states[t].log[k].output.track.kind == TRACK_DATA
    ensures var grouping := Grouping.Run(inputs);
            && n < |run.states[t].sent| && ForwardedAs(run.states[t], run.states[t].log[k].output, n, g, grouping)
            && Grouping.Flatten(grouping.groups) + grouping.held == Grouping.Published(inputs)
  {
    RunKeeps(cfg, run, t);
    Grouping.GroupingConserves(inputs);
    var s := run.states[t];
    n, g := s.log[k].sentIndex, 0;
    var item, objects := s.sent[n].item, Grouping.Run(inputs).objects;
    assert OutputOk(cfg, s.sent[n], s.log[k]);
    if item in objects {
      g :| 0 <= g < |objects| && objects[g] == item;
      Grouping.ObjectUnpacks(inputs, g);
    } else {
      UnpackIsNotWhole(item.data);
    }
  }

  lemma UnpackIsNotWhole(p: Block)
    ensures Grouping.Unpack(p) != [p]
  {
    UnpackShrinks(p);
    OnePacket(p);
  }
}
