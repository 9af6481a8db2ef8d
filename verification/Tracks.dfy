/** Track identities and the per-connection subscription table that maps them to one-byte aliases. */
module Tracks {
  import opened Bytes

  const TRACK_INPUT: byte := 2
  const TRACK_DATA: byte := 4
  const TRACK_TELEMETRY: byte := 6

  /** Aliases below this value denote the unnamed track of that type. */
  const FIRST_NAMED_ALIAS: byte := 8

  const SUBSCRIPTIONS: nat := 32

  /** flags is the bit set MOQ_TRACK_FLAG_RELIABLE = 1, MOQ_TRACK_FLAG_FEC_ENABLED = 2. */
  datatype TrackId = TrackId(kind: byte, flags: byte, name: Block)

  datatype Entry = Entry(track: TrackId, alias: byte, active: bool)

  predicate Reliable(flags: byte) { flags % 2 == 1 }
  predicate FecEnabled(flags: byte) { flags / 2 % 2 == 1 }

  /** flags |= FEC_ENABLED; flags &= ~RELIABLE. */
  function AsDatagram(flags: byte): (r: byte)
    ensures FecEnabled(r) && !Reliable(r)
    ensures r / 4 == flags / 4
  {
    flags / 4 * 4 + 2
  }

  /** flags &= ~FEC_ENABLED; flags |= RELIABLE. */
  function AsReliable(flags: byte): (r: byte)
    ensures Reliable(r) && !FecEnabled(r)
    ensures r / 4 == flags / 4
  {
    flags / 4 * 4 + 1
  }

  predicate SameTrack(a: TrackId, b: TrackId) { a.kind == b.kind && a.name == b.name }

  predicate Holds(e: Entry, kind: byte, name: Block) {
    e.active && e.track.kind == kind && e.track.name == name
  }

  /** Index of the first active entry for (kind, name), or |subs|. */
  function IndexOf(subs: seq<Entry>, kind: byte, name: Block): (i: nat)
    ensures i <= |subs| && (i < |subs| ==> Holds(subs[i], kind, name))
    ensures forall j :: 0 <= j < i ==> !Holds(subs[j], kind, name)
  {
    if subs == [] then 0
    else if Holds(subs[0], kind, name) then 0
    else 1 + IndexOf(subs[1..], kind, name)
  }

  function IndexOfAlias(subs: seq<Entry>, alias: byte): (i: nat)
    ensures i <= |subs| && (i < |subs| ==> subs[i].active && subs[i].alias == alias)
    ensures forall j :: 0 <= j < i ==> !(subs[j].active && subs[j].alias == alias)
  {
    if subs == [] then 0
    else if subs[0].active && subs[0].alias == alias then 0
    else 1 + IndexOfAlias(subs[1..], alias)
  }

  function IndexOfFree(subs: seq<Entry>): (i: nat)
    ensures i <= |subs| && (i < |subs| ==> !subs[i].active)
    ensures forall j :: 0 <= j < i ==> subs[j].active
  {
    if subs == [] then 0
    else if !subs[0].active then 0
    else 1 + IndexOfFree(subs[1..])
  }

  function FindByAlias(subs: seq<Entry>, alias: byte): (r: Option<TrackId>)
  {
    if alias < FIRST_NAMED_ALIAS then Some(TrackId(alias, 0, []))
    else
      var i := IndexOfAlias(subs, alias);
      if i < |subs| then Some(subs[i].track) else None
  }

  function FindByTrack(subs: seq<Entry>, track: TrackId): (r: Option<byte>)
  {
    if track.name == [] then Some(track.kind)
    else
      var i := IndexOf(subs, track.kind, track.name);
      if i < |subs| then Some(subs[i].alias) else None
  }

  /** add_subscription: refresh an existing entry, else take the first free slot, else drop silently. */
  function Add(subs: seq<Entry>, kind: byte, flags: byte, name: Block, alias: byte): (r: seq<Entry>)
    ensures |r| == |subs|
  {
    var i := IndexOf(subs, kind, name);
    if i < |subs| then subs[i := subs[i].(alias := alias, track := subs[i].track.(flags := flags))]
    else
      var f := IndexOfFree(subs);
      if f < |subs| then subs[f := Entry(TrackId(kind, flags, name), alias, true)] else subs
  }

  function Remove(subs: seq<Entry>, kind: byte, name: Block): (r: seq<Entry>)
    ensures |r| == |subs|
  {
    var i := IndexOf(subs, kind, name);
    if i < |subs| then subs[i := subs[i].(active := false)] else subs
  }

  function Empty(): (r: seq<Entry>)
    ensures |r| == SUBSCRIPTIONS
  {
    seq(SUBSCRIPTIONS, _ => Entry(TrackId(0, 0, []), 0, false))
  }

  /** After a SUBSCRIBE the track has its one entry with the flags and the alias asked for, or the table was full and
      stays as it is; no other entry changes. */
  lemma AddExact(subs: seq<Entry>, kind: byte, flags: byte, name: Block, alias: byte)
    ensures var r, i := Add(subs, kind, flags, name, alias), IndexOf(Add(subs, kind, flags, name, alias), kind, name);
            if (forall j :: 0 <= j < |subs| ==> subs[j].active && !Holds(subs[j], kind, name)) then r == subs
            else
              && i < |subs| && r[i] == Entry(TrackId(kind, flags, name), alias, true)
              && (!subs[i].active || Holds(subs[i], kind, name))
              && forall j :: 0 <= j < |subs| && j != i ==> r[j] == subs[j]
  {
    var r, i := Add(subs, kind, flags, name, alias), IndexOf(subs, kind, name);
    var f := if i < |subs| then i else IndexOfFree(subs);
    if f < |subs| {
      assert Holds(r[f], kind, name);
      assert forall j :: 0 <= j < f ==> !Holds(r[j], kind, name);
    }
  }

  /** After an UNSUBSCRIBE no other entry has changed; and a named track resolves no longer, if and only if it had at
      most one entry. */
  lemma RemoveExact(subs: seq<Entry>, kind: byte, flags: byte, name: Block)
    requires name != []
    ensures var r := Remove(subs, kind, name);
            && (forall j :: 0 <= j < |subs| ==> r[j] == subs[j] || r[j] == subs[j].(active := false))
            && (forall j :: 0 <= j < |subs| && !Holds(subs[j], kind, name) ==> r[j] == subs[j])
            && (FindByTrack(r, TrackId(kind, flags, name)).None? <==>
                forall i, j :: 0 <= i < j < |subs| && Holds(subs[i], kind, name) ==> !Holds(subs[j], kind, name))
  {
    var r, i := Remove(subs, kind, name), IndexOf(subs, kind, name);
    var k := IndexOf(r, kind, name);
    if k < |r| {
      assert Holds(subs[i], kind, name) && Holds(subs[k], kind, name) && i < k;
    } else {
      forall a, b | 0 <= a < b < |subs| && Holds(subs[a], kind, name)
        ensures !Holds(subs[b], kind, name)
      {
        assert !Holds(r[a], kind, name) && !Holds(r[b], kind, name);
      }
    }
  }
}
