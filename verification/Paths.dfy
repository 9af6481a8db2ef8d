/** How transport_publish spreads the symbols of an object over the network paths. */
module Paths {

  function Sum(x: seq<nat>): (n: nat)
  {
    if x == [] then 0 else Sum(x[..|x| - 1]) + x[|x| - 1]
  }

  /** The accumulating search: the first path whose share is not used up by symbol s, else path 0. */
  function PathOf(x: seq<nat>, s: nat): (i: nat)
    ensures i == 0 || i < |x|
  {
    if x == [] || s >= Sum(x) then 0
    else if s < Sum(x[..|x| - 1]) then PathOf(x[..|x| - 1], s)
    else |x| - 1
  }

  lemma {:induction false} SumPrefix(x: seq<nat>, i: nat)
    requires i <= |x|
    ensures Sum(x[..i]) <= Sum(x)
    ensures i < |x| ==> Sum(x[..i + 1]) == Sum(x[..i]) + x[i]
  {
    if i < |x| {
      assert x[..i + 1][..i] == x[..i];
      if i < |x| - 1 {
        SumPrefix(x[..|x| - 1], i);
        assert x[..|x| - 1][..i] == x[..i];
      }
    } else {
      assert x[..i] == x;
    }
  }

  /** Path i carries the symbols from the end of the shares before it to the end of its own. */
  lemma {:induction false} PathOfRange(x: seq<nat>, s: nat, i: nat)
    requires i < |x| && Sum(x[..i]) <= s < Sum(x[..i + 1])
    ensures PathOf(x, s) == i
  {
    SumPrefix(x, i + 1);
    var n := |x| - 1;
    if i < n {
      assert x[..n][..i] == x[..i] && x[..n][..i + 1] == x[..i + 1];
      SumPrefix(x[..n], i + 1);
      PathOfRange(x[..n], s, i);
    } else {
      assert x[..i + 1] == x;
    }
  }

  method ChoosePath(x: seq<nat>, s: nat) returns (path: nat)
    ensures path == PathOf(x, s)
  {
    path := 0;
    var accumulated := 0;
    for i := 0 to |x|
      invariant accumulated == Sum(x[..i]) <= s
    {
      SumPrefix(x, i);
      accumulated := accumulated + x[i];
      if s < accumulated {
        PathOfRange(x, s, i);
        return i;
      }
    }
    assert x[..|x|] == x;
  }

  /** How many of the first n symbols go to path i. */
  function Carried(x: seq<nat>, n: nat, i: nat): (r: nat)
  {
    if n == 0 then 0 else Carried(x, n - 1, i) + if PathOf(x, n - 1) == i then 1 else 0
  }

  /** The part of path i's share among the first n symbols. */
  function Reached(x: seq<nat>, n: nat, i: nat): (r: nat)
    requires i < |x|
  {
    var start := Sum(x[..i]);
    if n <= start then 0 else if n - start < x[i] then n - start else x[i]
  }

  lemma {:induction false} RangeOf(x: seq<nat>, s: nat) returns (i: nat)
    requires s < Sum(x)
    ensures i < |x| && Sum(x[..i]) <= s < Sum(x[..i + 1])
  {
    var n := |x| - 1;
    assert x[..n + 1] == x;
    if s < Sum(x[..n]) {
      i := RangeOf(x[..n], s);
      assert x[..n][..i] == x[..i] && x[..n][..i + 1] == x[..i + 1];
    } else {
      i := n;
    }
  }

  lemma {:induction false} PrefixMonotone(x: seq<nat>, i: nat, j: nat)
    requires i <= j <= |x|
    ensures Sum(x[..i]) <= Sum(x[..j])
  {
    SumPrefix(x[..j], i);
    assert x[..j][..i] == x[..i];
  }

  lemma {:induction false} CarriedIs(x: seq<nat>, n: nat, i: nat)
    requires i < |x|
    ensures n <= Sum(x) ==> Carried(x, n, i) == Reached(x, n, i)
    ensures n > Sum(x) ==> Carried(x, n, i) == x[i] + if i == 0 then n - Sum(x) else 0
  {
    SumPrefix(x, i);
    SumPrefix(x, i + 1);
    if n > 0 {
      CarriedIs(x, n - 1, i);
      if n - 1 < Sum(x) {
        var j := RangeOf(x, n - 1);
        PathOfRange(x, n - 1, j);
        if i < j {
          PrefixMonotone(x, i + 1, j);
        } else if j < i {
          PrefixMonotone(x, j + 1, i);
        }
      }
    }
  }

  /** With n at least the sum of the shares, path i carries exactly its share, and whatever exceeds the sum goes to
      path 0. */
  lemma PathShares(x: seq<nat>, n: nat, i: nat)
    requires i < |x| && Sum(x) <= n
    ensures Carried(x, n, i) == x[i] + if i == 0 then n - Sum(x) else 0
  {
    CarriedIs(x, n, i);
    SumPrefix(x, i);
    SumPrefix(x, i + 1);
  }

  // ----- Parity from the optimizer's answer -----

  function Surplus(x: seq<nat>, m: seq<nat>): (n: nat)
    requires |x| == |m|
  {
    if x == [] then 0
    else
      var k := |x| - 1;
      Surplus(x[..k], m[..k]) + if x[k] > m[k] then x[k] - m[k] else 0
  }

  /** The parity count: what the shares hold beyond the data symbols, and at least one. */
  function ParityOf(x: seq<nat>, m: seq<nat>): (p: nat)
    requires |x| == |m|
  {
    if Surplus(x, m) == 0 then 1 else Surplus(x, m)
  }

  lemma {:induction false} SurplusIs(x: seq<nat>, m: seq<nat>)
    requires |x| == |m| && forall i :: 0 <= i < |x| ==> x[i] >= m[i]
    ensures Sum(x) == Sum(m) + Surplus(x, m)
  {
    if x != [] {
      SurplusIs(x[..|x| - 1], m[..|m| - 1]);
    }
  }

  /** Given an answer with sum(m) = k and x >= m: every path carries exactly x_i symbols, except that a parity symbol
      that had to be forced goes to path 0 on top. */
  lemma EveryPathCarriesItsShare(x: seq<nat>, m: seq<nat>, k: nat, i: nat)
    requires |x| == |m| && i < |x| && Sum(m) == k && forall i :: 0 <= i < |x| ==> x[i] >= m[i]
    ensures var total := k + ParityOf(x, m);
            Carried(x, total, i) == x[i] + if i == 0 && Sum(x) == k then 1 else 0
  {
    SurplusIs(x, m);
    PathShares(x, k + ParityOf(x, m), i);
  }
}
