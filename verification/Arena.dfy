/** The bump allocator that backs one publish call. */
module Arena {
  import opened Bytes
  import opened Wire
  import opened Sender

  const ARENA_CAPACITY: nat := 16777216
  const ARENA_MAX_FALLBACKS: nat := 1024

  /** (size + 7) & ~7. */
  function Rounded(size: nat): (r: nat)
    ensures size <= r < size + 8 && r % 8 == 0
  {
    size + 7 - (size + 7) % 8
  }

  /** Where block n starts when all earlier blocks fit. */
  function Start(sizes: seq<nat>, n: nat): (r: nat)
    requires n <= |sizes|
  {
    if n == 0 then 0 else Start(sizes, n - 1) + Rounded(sizes[n - 1])
  }

  lemma {:induction false} StartGrows(sizes: seq<nat>, i: nat, j: nat)
    requires i < j <= |sizes|
    ensures Start(sizes, i) + sizes[i] <= Start(sizes, j)
    decreases j - i
  {
    if i + 1 < j {
      StartGrows(sizes, i, j - 1);
    }
  }

  /** Blocks of one publish do not overlap and stay inside the arena. */
  lemma BlocksDisjoint(sizes: seq<nat>, i: nat, j: nat)
    requires i < j < |sizes| && Start(sizes, |sizes|) <= ARENA_CAPACITY
    ensures Start(sizes, i) + sizes[i] <= Start(sizes, j)
    ensures Start(sizes, j) + sizes[j] <= ARENA_CAPACITY
  {
    StartGrows(sizes, i, j);
    StartGrows(sizes, j, |sizes|);
  }

  class Arena {
    var buffer: array<byte>
    var offset: nat
    var fallbacks: nat

    ghost predicate Valid()
      reads this
    {
      offset <= buffer.Length && fallbacks <= ARENA_MAX_FALLBACKS
    }

    constructor ()
      ensures Valid() && fresh(buffer) && buffer.Length == 16777216 && offset == 0 && fallbacks == 0
    {
      buffer := new byte[ARENA_CAPACITY];
      offset, fallbacks := 0, 0;
    }

    /** The start of a zeroed block, or None when the block comes from the general heap instead. */
    method Alloc(size: nat) returns (place: Option<nat>)
      requires Valid()
      modifies this`offset, this`fallbacks, buffer
      ensures Valid()
      ensures if old(offset) + Rounded(size) <= buffer.Length
              then place == Some(old(offset)) && offset == old(offset) + Rounded(size) && fallbacks == old(fallbacks)
              else && place == None && offset == old(offset)
                   && fallbacks == if old(fallbacks) < 1024 then old(fallbacks) + 1 else old(fallbacks)
      ensures forall j :: old(offset) <= j < offset ==> buffer[j] == 0
      ensures forall j :: 0 <= j < old(offset) ==> buffer[j] == old(buffer[j])
      ensures forall j :: offset <= j < buffer.Length ==> buffer[j] == old(buffer[j])
    {
      var rounded := Rounded(size);
      if offset + rounded > buffer.Length {
        if fallbacks < ARENA_MAX_FALLBACKS {
          fallbacks := fallbacks + 1;
        }
        return None;
      }
      for i := 0 to rounded
        modifies buffer
        invariant forall j :: offset <= j < offset + i ==> buffer[j] == 0
        invariant forall j :: 0 <= j < buffer.Length && !(offset <= j < offset + i) ==> buffer[j] == old(buffer[j])
      {
        buffer[offset + i] := 0;
      }
      place := Some(offset);
      offset := offset + rounded;
    }

    method Reset()
      requires Valid()
      modifies this`offset, this`fallbacks
      ensures Valid() && offset == 0 && fallbacks == 0
    {
      offset, fallbacks := 0, 0;
    }

    /** The block allocations of one publish, from an arena that the previous publish has reset: if they fit, each block
        is at its own place and all of them are zero. */
    method AllocAll(sizes: seq<nat>) returns (places: seq<Option<nat>>)
      requires Valid() && offset == 0 && Start(sizes, |sizes|) <= buffer.Length
      modifies this`offset, this`fallbacks, buffer
      ensures Valid()
      ensures places == Places(sizes, |sizes|)
      ensures offset == Start(sizes, |sizes|) && forall j :: 0 <= j < offset ==> buffer[j] == 0
    {
      places := [];
      for n := 0 to |sizes|
        invariant Valid() && offset == Start(sizes, n)
        invariant places == Places(sizes, n)
        invariant forall j :: 0 <= j < offset ==> buffer[j] == 0
      {
        StartNext(sizes, n);
        var place := Alloc(sizes[n]);
        places := places + [place];
      }
    }

    /** The packet buffers of the send loop. They may overflow to the heap; blocks allocated before stay as they are. */
    method AllocPackets(count: nat, size: nat) returns (places: seq<Option<nat>>)
      requires Valid()
      modifies this`offset, this`fallbacks, buffer
      ensures Valid() && offset >= old(offset)
      ensures |places| == count
      ensures forall i :: 0 <= i < count && places[i].Some? ==> old(offset) <= places[i].value <= offset - size
      ensures forall j :: 0 <= j < old(offset) ==> buffer[j] == old(buffer[j])
    {
      places := [];
      for n := 0 to count
        invariant Valid() && offset >= old(offset) && |places| == n
        invariant forall i :: 0 <= i < n && places[i].Some? ==> old(offset) <= places[i].value <= offset - size
        invariant forall j :: 0 <= j < old(offset) ==> buffer[j] == old(buffer[j])
      {
        var place := Alloc(size);
        places := places + [place];
      }
    }

    /** The arena's part in one transport_publish to any number of connections. It finds the arena empty and leaves it
        empty; its pointer arrays, padded symbol and parity blocks lie apart in the first `used` bytes, which are zero,
        and the packet buffers, as far as they are in the arena, lie behind them. */
    method PublishCall(item: Item, l: Layout, connections: nat)
      returns (blocks: seq<Option<nat>>, used: nat, packets: seq<Option<nat>>)
      requires Valid() && offset == 0 && fallbacks == 0 && buffer.Length == ARENA_CAPACITY && InLimits(item, l)
      modifies this`offset, this`fallbacks, buffer
      ensures Valid() && offset == 0 && fallbacks == 0
      ensures Apart(blocks, PublishSizes(l, Padded(item, l)), used) && used <= buffer.Length
      ensures forall j :: 0 <= j < used ==> buffer[j] == 0
      ensures |packets| == PacketCount(connections, l)
      ensures forall j :: 0 <= j < |packets| && packets[j].Some? ==> used <= packets[j].value
    {
      PublishFits(item, l, Padded(item, l));
      blocks, used, packets := AllocAndReset(PublishSizes(l, Padded(item, l)), PacketCount(connections, l),
                                             HEADER_SIZE + l.t);
    }

    method AllocAndReset(sizes: seq<nat>, count: nat, size: nat)
      returns (blocks: seq<Option<nat>>, used: nat, packets: seq<Option<nat>>)
      requires Valid() && offset == 0 && Start(sizes, |sizes|) <= buffer.Length
      modifies this`offset, this`fallbacks, buffer
      ensures Valid() && offset == 0 && fallbacks == 0
      ensures Apart(blocks, sizes, used) && used <= buffer.Length
      ensures forall j :: 0 <= j < used ==> buffer[j] == 0
      ensures |packets| == count && forall j :: 0 <= j < count && packets[j].Some? ==> used <= packets[j].value
    {
      PlacesApart(sizes);
      blocks := AllocAll(sizes);
      used := offset;
      packets := AllocPackets(count, size);
      Reset();
    }

    /** Any series of publishes, each of them finding the arena as the one before left it. */
    method PublishAll(items: seq<Item>, layouts: seq<Layout>, connections: seq<nat>)
      requires Valid() && offset == 0 && fallbacks == 0 && buffer.Length == ARENA_CAPACITY
      requires |items| == |layouts| == |connections| && forall i :: 0 <= i < |items| ==> InLimits(items[i], layouts[i])
      modifies this`offset, this`fallbacks, buffer
      ensures Valid() && offset == 0 && fallbacks == 0
    {
      for n := 0 to |items|
        invariant Valid() && offset == 0 && fallbacks == 0
      {
        var blocks, used, packets := PublishCall(items[n], layouts[n], connections[n]);
      }
    }
  }

  /** One packet buffer for every symbol on every connection. */
  function PacketCount(connections: nat, l: Layout): (n: nat)
  {
    if connections == 0 then 0 else PacketCount(connections - 1, l) + l.k + l.p
  }

  /** Where the first n blocks are. */
  function Places(sizes: seq<nat>, n: nat): (r: seq<Option<nat>>)
    requires n <= |sizes|
    ensures |r| == n
  {
    if n == 0 then [] else Places(sizes, n - 1) + [Some(Start(sizes, n - 1))]
  }

  lemma {:induction false} PlaceIs(sizes: seq<nat>, n: nat, i: nat)
    requires i < n <= |sizes|
    ensures Places(sizes, n)[i] == Some(Start(sizes, i))
  {
    if i < n - 1 {
      PlaceIs(sizes, n - 1, i);
    }
  }

  /** Blocks of these sizes are in the arena, in order, without overlap, and below the limit. */
  predicate Apart(blocks: seq<Option<nat>>, sizes: seq<nat>, limit: nat) {
    && |blocks| == |sizes|
    && (forall i :: 0 <= i < |blocks| ==> blocks[i].Some? && blocks[i].value + sizes[i] <= limit)
    && (forall i, j :: 0 <= i < j < |blocks| ==> blocks[i].value + sizes[i] <= blocks[j].value)
  }

  lemma PlacesApart(sizes: seq<nat>)
    ensures Apart(Places(sizes, |sizes|), sizes, Start(sizes, |sizes|))
  {
    var blocks := Places(sizes, |sizes|);
    forall i | 0 <= i < |sizes|
      ensures blocks[i] == Some(Start(sizes, i)) && Start(sizes, i) + sizes[i] <= Start(sizes, |sizes|)
    {
      PlaceIs(sizes, |sizes|, i);
      StartGrows(sizes, i, |sizes|);
    }
    forall i, j | 0 <= i < j < |sizes|
      ensures Start(sizes, i) + sizes[i] <= Start(sizes, j)
    {
      StartGrows(sizes, i, j);
    }
  }

  /** Whether the last symbol has to be padded. */
  predicate Padded(item: Item, l: Layout) { |item.data| < l.k * l.t }

  /** Every data symbol but the last is a full slice of the object, so that one padded block is all there is. */
  lemma OnlyLastPadded(item: Item, l: Layout, i: nat)
    requires LaidOut(item, l) && i < l.k
    ensures (i + 1) * l.t > |item.data| <==> i == l.k - 1 && Padded(item, l)
  {
    if i < l.k - 1 {
      MulMonotone(i + 1, l.k - 1, l.t);
    }
  }

  lemma {:induction false} StartMonotone(sizes: seq<nat>, i: nat, j: nat)
    requires i <= j <= |sizes|
    ensures Start(sizes, i) <= Start(sizes, j)
    decreases j - i
  {
    if i < j {
      StartMonotone(sizes, i, j - 1);
    }
  }

  lemma StartNext(sizes: seq<nat>, n: nat)
    requires n < |sizes|
    ensures Start(sizes, n) + Rounded(sizes[n]) == Start(sizes, n + 1) <= Start(sizes, |sizes|)
  {
    StartMonotone(sizes, n + 1, |sizes|);
  }

  /** The blocks transport_publish asks for: two pointer arrays, one padded last symbol at most, and the parity. */
  function PublishSizes(l: Layout, padded: bool): (r: seq<nat>)
  {
    [8 * l.k, 8 * l.p] + (if padded then [l.t] else []) + seq(l.p, _ => l.t)
  }

  lemma {:induction false} StartBound(sizes: seq<nat>, n: nat, each: nat)
    requires 2 <= n <= |sizes| && forall i :: 2 <= i < |sizes| ==> sizes[i] <= each
    ensures Start(sizes, n) <= sizes[0] + sizes[1] + 16 + (n - 2) * (each + 8)
  {
    if n == 2 {
      assert Start(sizes, 1) == Start(sizes, 0) + Rounded(sizes[0]);
      assert Start(sizes, 2) == Start(sizes, 1) + Rounded(sizes[1]);
    } else {
      StartBound(sizes, n - 1, each);
      assert (n - 2) * (each + 8) == (n - 3) * (each + 8) + (each + 8);
    }
  }

  /** Within the protocol's limits every data and parity block lies in the arena, so that padding and parity start out
      zero. */
  lemma PublishFits(item: Item, l: Layout, padded: bool)
    requires InLimits(item, l)
    ensures Start(PublishSizes(l, padded), |PublishSizes(l, padded)|) <= ARENA_CAPACITY
  {
    var sizes := PublishSizes(l, padded);
    var n := |sizes|;
    assert sizes[0] == 8 * l.k && sizes[1] == 8 * l.p;
    assert forall i :: 2 <= i < n ==> sizes[i] <= 2016;
    StartBound(sizes, n, 2016);
    assert (n - 2) * 2024 <= 257 * 2024;
  }
}
