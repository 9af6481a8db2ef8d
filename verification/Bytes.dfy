/** Octets, zero padding and big-endian integers, as used by every wire format in the transport. */
module Bytes {

  type byte = b: int | 0 <= b < 256

  type Block = seq<byte>

  datatype Option<+T> = None | Some(value: T)

  /** Truncation performed by a C cast to uint8_t, uint16_t and uint32_t. */
  function U8(n: nat): (r: byte) { if n < 0x100 then n else n % 0x100 }
  function U16(n: nat): (r: nat) { if n < 0x1_0000 then n else n % 0x1_0000 }
  function U32(n: nat): (r: nat) { if n < 0x1_0000_0000 then n else n % 0x1_0000_0000 }

  /** A uint64_t, such as a clock reading. */
  type u64 = n: nat | n < 0x1_0000_0000_0000_0000

  function Zeros(n: nat): (r: Block)
    ensures |r| == n
  {
    seq(n, _ => 0)
  }

  /** htobe16 / htobe32 followed by a memcpy into the output buffer. */
  function Be16(n: nat): (r: Block)
    ensures |r| == 2
  {
    [n / 0x100 % 0x100, n % 0x100]
  }

  function Be32(n: nat): (r: Block)
    ensures |r| == 4
  {
    Be16(n / 0x1_0000) + Be16(n)
  }

  /** be16toh / be32toh of the bytes at the front of a buffer. */
  function FromBe16(s: Block): (r: nat)
    requires |s| >= 2
    ensures r < 0x1_0000
  {
    s[0] as int * 0x100 + s[1] as int
  }

  function FromBe32(s: Block): (r: nat)
    requires |s| >= 4
    ensures r < 0x1_0000_0000
  {
    FromBe16(s) * 0x1_0000 + FromBe16(s[2..])
  }

  /** Reading back what was written yields the value truncated to the field width. */
  lemma Be16RoundTrip(n: nat, rest: Block)
    ensures FromBe16(Be16(n) + rest) == U16(n)
  {
    assert n == n / 0x1_0000 * 0x1_0000 + n % 0x1_0000;
    var r := n % 0x1_0000;
    assert n / 0x100 % 0x100 == r / 0x100;
    assert n % 0x100 == r % 0x100;
  }

  lemma Be32RoundTrip(n: nat, rest: Block)
    ensures FromBe32(Be32(n) + rest) == U32(n)
  {
    var s := Be32(n) + rest;
    assert s == Be16(n / 0x1_0000) + (Be16(n) + rest);
    assert s[2..] == Be16(n) + rest;
    Be16RoundTrip(n / 0x1_0000, Be16(n) + rest);
    Be16RoundTrip(n, rest);
    U32Halves(n);
  }

  lemma U32Halves(n: nat)
    ensures U16(n / 0x1_0000) * 0x1_0000 + U16(n) == U32(n)
  {}

  /** The number of true entries of a mask. */
  function Count(mask: seq<bool>): (n: nat)
    ensures n <= |mask|
  {
    if mask == [] then 0
    else Count(mask[..|mask| - 1]) + if mask[|mask| - 1] then 1 else 0
  }

  function Negate(mask: seq<bool>): (r: seq<bool>)
    ensures |r| == |mask|
    ensures forall i :: 0 <= i < |mask| ==> r[i] == !mask[i]
  {
    seq(|mask|, i requires 0 <= i < |mask| => !mask[i])
  }

  lemma {:induction false} CountSet(mask: seq<bool>, i: nat)
    requires i < |mask| && !mask[i]
    ensures Count(mask[i := true]) == Count(mask) + 1
  {
    var n := |mask| - 1;
    var after := mask[i := true];
    if i == n {
      assert after[..n] == mask[..n];
    } else {
      assert after[..n] == mask[..n][i := true];
      CountSet(mask[..n], i);
    }
  }

  lemma {:induction false} CountFull(mask: seq<bool>)
    ensures Count(mask) == |mask| <==> forall i :: 0 <= i < |mask| ==> mask[i]
  {
    if mask != [] {
      CountFull(mask[..|mask| - 1]);
    }
  }

  lemma {:induction false} CountNone(mask: seq<bool>)
    requires forall i :: 0 <= i < |mask| ==> !mask[i]
    ensures Count(mask) == 0
  {
    if mask != [] {
      CountNone(mask[..|mask| - 1]);
    }
  }

  lemma {:induction false} CountConcat(a: seq<bool>, b: seq<bool>)
    ensures Count(a + b) == Count(a) + Count(b)
  {
    if b == [] {
      assert a + b == a;
    } else {
      var n := |b| - 1;
      assert (a + b)[..|a + b| - 1] == a + b[..n];
      CountConcat(a, b[..n]);
    }
  }

  lemma {:induction false} SubsetSize<T>(a: set<T>, b: set<T>)
    requires a <= b
    ensures |a| <= |b|
  {
    if a != {} {
      var x :| x in a;
      SubsetSize(a - {x}, b - {x});
    }
  }

  lemma Regroup<T>(p: seq<T>, q: seq<T>, r: seq<T>)
    ensures (p + q) + r == p + (q + r)
  {}
}
