/** The subscription array of a connection, searched and updated in place. */
module TracksImpl {
  import opened Bytes
  import opened Tracks
  import opened Session

  /** find_subscription_by_alias: an unnamed track below 8, else the first active entry with that alias. */
  method FindTrack(subs: seq<Entry>, alias: byte) returns (r: Option<TrackId>)
    ensures r == FindByAlias(subs, alias)
  {
    if alias < FIRST_NAMED_ALIAS {
      return Some(TrackId(alias, 0, []));
    }
    for i := 0 to |subs|
      invariant IndexOfAlias(subs, alias) >= i
    {
      if subs[i].active && subs[i].alias == alias {
        return Some(subs[i].track);
      }
    }
    return None;
  }

  class SubscriptionTable {
    const entries: array<Entry>

    ghost predicate Valid()
      reads this
    {
      entries.Length == SUBSCRIPTIONS
    }

    constructor ()
      ensures Valid() && fresh(entries) && entries[..] == Empty()
    {
      entries := new Entry[SUBSCRIPTIONS](_ => Entry(TrackId(0, 0, []), 0, false));
    }

    method Search(kind: byte, name: Block) returns (i: nat)
      requires Valid()
      ensures i == IndexOf(entries[..], kind, name)
    {
      i := 0;
      while i < entries.Length && !Holds(entries[i], kind, name)
        invariant i <= entries.Length && forall j :: 0 <= j < i ==> !Holds(entries[j], kind, name)
      {
        i := i + 1;
      }
    }

    /** find_alias_by_track. */
    method ResolveTrack(track: TrackId) returns (r: Option<byte>)
      requires Valid()
      ensures r == FindByTrack(entries[..], track)
    {
      if track.name == [] {
        return Some(track.kind);
      }
      var i := Search(track.kind, track.name);
      r := if i < entries.Length then Some(entries[i].alias) else None;
    }

    method Subscribe(kind: byte, flags: byte, name: Block, alias: byte)
      requires Valid()
      modifies entries
      ensures Valid() && entries[..] == Add(old(entries[..]), kind, flags, name, alias)
    {
      var i := Search(kind, name);
      if i < entries.Length {
        entries[i] := entries[i].(alias := alias, track := entries[i].track.(flags := flags));
        return;
      }
      i := 0;
      while i < entries.Length
        invariant i <= entries.Length && entries[..] == old(entries[..])
        invariant forall j :: 0 <= j < i ==> entries[j].active
      {
        if !entries[i].active {
          assert IndexOfFree(entries[..]) == i;
          entries[i] := Entry(TrackId(kind, flags, name), alias, true);
          return;
        }
        i := i + 1;
      }
    }

    /** The table's part in transport_subscribe: the alias in use, or one above every alias in use. */
    method Request(track: TrackId) returns (alias: byte)
      requires Valid()
      modifies entries
      ensures Valid()
      ensures match FindByTrack(old(entries[..]), track)
              case Some(a) => alias == a && entries[..] == old(entries[..])
              case None =>
                && alias == U8(NextAlias(old(entries[..])))
                && entries[..] == Add(old(entries[..]), track.kind, track.flags, track.name, alias)
    {
      var known := ResolveTrack(track);
      if known.Some? {
        return known.value;
      }
      var next := 8;
      for i := 0 to entries.Length
        invariant next == NextAlias(entries[..i]) && entries[..] == old(entries[..])
      {
        assert entries[..i + 1][..i] == entries[..i];
        if entries[i].active && entries[i].alias >= next {
          next := entries[i].alias + 1;
        }
      }
      assert entries[..entries.Length] == entries[..];
      alias := U8(next);
      Subscribe(track.kind, track.flags, track.name, alias);
    }

    method Unsubscribe(kind: byte, name: Block)
      requires Valid()
      modifies entries
      ensures Valid() && entries[..] == Remove(old(entries[..]), kind, name)
    {
      var i := Search(kind, name);
      if i < entries.Length {
        entries[i] := entries[i].(active := false);
      }
    }
  }
}
