/** The grouping buffer in its imperative form: a byte buffer that doubles when it is too small. */
module GroupingImpl {
  import opened Bytes
  import opened Tracks
  import opened Sender
  import opened Grouping

  class GroupingBuffer {
    var buf: array<byte>
    var len: nat
    var firstTime: u64
    var track: TrackId
    var objectId: nat
    var count: nat
    var priority: byte

    ghost predicate Valid()
      reads this
    {
      len <= buf.Length
    }

    ghost function State(): (b: Buffer)
      requires Valid()
      reads this, buf
    {
      Buffer(buf[..len], firstTime, track, objectId, count, priority)
    }

    constructor ()
      ensures Valid() && fresh(buf) && State() == NewBuffer()
    {
      buf := new byte[0];
      len, firstTime, objectId, count, priority := 0, 0, 0, 0, 0;
      track := TrackId(0, 0, []);
    }

    method FlushBuffer() returns (flushed: Option<Item>)
      requires Valid()
      modifies this
      ensures Valid() && buf == old(buf)
      ensures Result(State(), flushed) == Flush(old(State()))
    {
      if len == 0 {
        return None;
      }
      flushed := Some(Item(track, 0, objectId, buf[..len], false, priority));
      objectId := U32(objectId + 1);
      len, firstTime, count := 0, 0, 0;
    }

    /** Doubles the capacity, from 4096, until `needed` bytes fit. */
    method Reserve(needed: nat)
      requires Valid()
      modifies this`buf
      ensures Valid() && needed <= buf.Length && (buf == old(buf) || fresh(buf))
      ensures buf[..len] == old(buf[..len])
    {
      if needed > buf.Length {
        var capacity := if buf.Length == 0 then 4096 else buf.Length * 2;
        while capacity < needed
          invariant capacity > 0 && capacity >= buf.Length
          decreases needed - capacity
        {
          capacity := capacity * 2;
        }
        var grown := new byte[capacity](_ => 0);
        for i := 0 to len
          modifies grown
          invariant forall j :: 0 <= j < i ==> grown[j] == buf[j]
        {
          grown[i] := buf[i];
        }
        buf := grown;
      }
    }

    method Append(bytes: Block)
      requires Valid() && len + |bytes| <= buf.Length
      modifies this`len, buf
      ensures Valid() && buf[..len] == old(buf[..len]) + bytes
    {
      for i := 0 to |bytes|
        modifies buf
        invariant forall j :: 0 <= j < len ==> buf[j] == old(buf[j])
        invariant forall j :: 0 <= j < i ==> buf[len + j] == bytes[j]
      {
        buf[len + i] := bytes[i];
      }
      len := len + |bytes|;
    }

    method Publish(id: TrackId, data: Block, prio: byte, now: u64) returns (flushed: Option<Item>)
      requires Valid()
      modifies this, buf
      ensures Valid() && (buf == old(buf) || fresh(buf))
      ensures Result(State(), flushed) == Accept(old(State()), id, data, prio, now)
    {
      if len == 0 {
        firstTime, track, priority := now, id, prio;
      }
      Reserve(len + 2 + |data|);
      Append(Be16(|data|));
      Append(data);
      assert buf[..len] == old(buf[..len]) + Frame(data);
      count := count + 1;
      flushed := None;
      if count >= MAX_PACKETS || len >= MAX_BYTES {
        flushed := FlushBuffer();
      }
    }

    method OnTimer(now: u64) returns (flushed: Option<Item>)
      requires Valid()
      modifies this
      ensures Valid() && buf == old(buf)
      ensures Result(State(), flushed) == OnTick(old(State()), now)
    {
      flushed := None;
      if len > 0 && Elapsed(now, firstTime) >= MAX_AGE_MS {
        flushed := FlushBuffer();
      }
    }
  }
}
