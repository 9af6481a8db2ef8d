/** The connection loop of transport_tick, which removes connections from the array it walks. */
module Sweep {

  const MAX_CONNECTIONS: nat := 32

  /** The connections, by id, that stay. */
  function Kept(conns: seq<nat>, freed: set<nat>): (r: seq<nat>)
  {
    if conns == [] then [] else (if conns[0] in freed then [] else [conns[0]]) + Kept(conns[1..], freed)
  }

  lemma KeptNext(stay: seq<nat>, rest: seq<nat>, freed: set<nat>)
    requires rest != []
    ensures stay + Kept(rest, freed) == (if rest[0] in freed then stay else stay + [rest[0]]) + Kept(rest[1..], freed)
  {}

  lemma CutFirst(stay: seq<nat>, rest: seq<nat>)
    requires rest != []
    ensures (stay + rest)[..|stay|] + (stay + rest)[|stay| + 1..] == stay + rest[1..]
  {
    assert (stay + rest)[..|stay|] == stay;
    assert (stay + rest)[|stay| + 1..] == rest[1..];
  }

  lemma ShiftFirst(stay: seq<nat>, rest: seq<nat>)
    requires rest != []
    ensures stay + rest == (stay + [rest[0]]) + rest[1..]
  {}

  /** size_t arithmetic on the loop index. */
  function Minus1(i: nat): (r: nat) { if i == 0 then 0xFFFF_FFFF_FFFF_FFFF else i - 1 }
  function Plus1(i: nat): (r: nat) { if i == 0xFFFF_FFFF_FFFF_FFFF then 0 else i + 1 }

  class Server {
    var conns: array<nat>
    var count: nat

    ghost predicate Valid()
      reads this
    {
      conns.Length == MAX_CONNECTIONS && count <= MAX_CONNECTIONS
    }

    /** memmove of the tail one place down. */
    method RemoveAt(i: nat)
      requires Valid() && i < count
      modifies this`count, conns
      ensures Valid() && conns == old(conns) && count == old(count) - 1
      ensures conns[..count] == old(conns[..i]) + old(conns[i + 1..count])
    {
      for j := i to count - 1
        modifies conns
        invariant forall m :: 0 <= m < i ==> conns[m] == old(conns[m])
        invariant forall m :: i <= m < j ==> conns[m] == old(conns[m + 1])
        invariant forall m :: j <= m < conns.Length ==> conns[m] == old(conns[m])
      {
        conns[j] := conns[j + 1];
      }
      count := count - 1;
    }

    /** One iteration: service connection i, remove it if it has been freed, and step the index. */
    method Service(i: nat, freed: set<nat>) returns (conn: nat, next: nat)
      requires Valid() && i < count
      modifies this`count, conns
      ensures Valid() && conns == old(conns) && conn == old(conns[..count])[i]
      ensures if conn in freed
              then next == i && conns[..count] == old(conns[..count])[..i] + old(conns[..count])[i + 1..]
              else next == i + 1 && conns[..count] == old(conns[..count])
    {
      conn, next := conns[i], i;
      if conn in freed {
        RemoveAt(i);
        assert old(conns[..count])[..i] == old(conns[..i]);
        assert old(conns[..count])[i + 1..] == old(conns[i + 1..count]);
        next := Minus1(next);
      }
      next := Plus1(next);
    }

    /** Services every connection that was there at the start exactly once, in order, whichever of them are freed on the
        way; those not freed stay, in order. The index wraps below zero when the first connection is freed. */
    method Tick(freed: set<nat>) returns (serviced: seq<nat>)
      requires Valid()
      modifies this`count, conns
      ensures Valid()
      ensures serviced == old(conns[..count])
      ensures conns[..count] == Kept(old(conns[..count]), freed)
    {
      serviced := [];
      ghost var all: seq<nat>, stay: seq<nat> := conns[..count], [];
      ghost var rest := all;
      var i := 0;
      while i < count
        invariant Valid() && serviced + rest == all
        invariant i == |stay| && conns[..count] == stay + rest
        invariant stay + Kept(rest, freed) == Kept(all, freed)
        decreases |rest|
      {
        KeptNext(stay, rest, freed);
        CutFirst(stay, rest);
        ShiftFirst(stay, rest);
        ShiftFirst(serviced, rest);
        var conn: nat;
        conn, i := Service(i, freed);
        serviced, rest := serviced + [conn], rest[1..];
        if conn !in freed {
          stay := stay + [conn];
        }
      }
      assert |conns[..count]| == |stay| + |rest|;
    }
  }
}
