/** Interface snapshots, their difference, and the watcher that reports it. */
module Ifmon {
  import opened Bytes

  const MAX_INTERFACES: nat := 16
  const MAX_IPS: nat := 16

  datatype Addr = V4(ip4: nat, prefix4: byte) | V6(ip6: Block, prefix6: byte)

  datatype Iface = Iface(index: nat, name: Block, hw: Block, addrs: seq<Addr>)

  type Snapshot = seq<Iface>

  datatype Diff = Diff(index: nat, hwChanged: bool, added: seq<Addr>, removed: seq<Addr>)

  datatype Update = Update(
    isInitial: bool, interfaces: Snapshot, added: seq<nat>, removed: seq<nat>, modified: seq<Diff>)

  /** The sizes of the C arrays, and one entry per interface index. */
  predicate WellFormed(s: Snapshot) {
    && |s| <= 16
    && (forall i :: 0 <= i < |s| ==> |s[i].addrs| <= 16)
    && (forall i, j :: 0 <= i < j < |s| ==> s[i].index != s[j].index)
  }

  // ----- What generate_update computes -----

  function Find(s: Snapshot, x: nat): (i: nat)
    ensures i <= |s| && (i < |s| ==> s[i].index == x) && forall j :: 0 <= j < i ==> s[j].index != x
  {
    if s == [] || s[0].index == x then 0 else 1 + Find(s[1..], x)
  }

  predicate Has(s: Snapshot, x: nat) { Find(s, x) < |s| }

  function Minus(a: seq<Addr>, b: seq<Addr>): (r: seq<Addr>)
    ensures |r| <= |a| && forall x :: x in r <==> x in a && x !in b
  {
    if a == [] then []
    else Minus(a[..|a| - 1], b) + if a[|a| - 1] in b then [] else [a[|a| - 1]]
  }

  lemma MinusAppend(a: seq<Addr>, y: Addr, b: seq<Addr>)
    ensures Minus(a + [y], b) == Minus(a, b) + if y in b then [] else [y]
  {
    assert (a + [y])[..|a|] == a;
  }

  lemma MinusConcatStep(a: seq<Addr>, front: seq<Addr>, last: Addr, b: seq<Addr>)
    requires Minus(a + front, b) == Minus(a, b) + Minus(front, b)
    ensures Minus(a + (front + [last]), b) == Minus(a, b) + Minus(front + [last], b)
  {
    MinusAppend(a + front, last, b);
    MinusAppend(front, last, b);
    Regroup(a, front, [last]);
    Regroup(Minus(a, b), Minus(front, b), if last in b then [] else [last]);
  }

  /** The order is that of a. */
  lemma {:induction false} MinusConcat(a: seq<Addr>, more: seq<Addr>, b: seq<Addr>)
    ensures Minus(a + more, b) == Minus(a, b) + Minus(more, b)
  {
    if more == [] {
      assert a + more == a && Minus(more, b) == [];
      assert Minus(a, b) + [] == Minus(a, b);
    } else {
      var n := |more| - 1;
      assert a + more == a + (more[..n] + [more[n]]) && more == more[..n] + [more[n]];
      MinusConcat(a, more[..n], b);
      MinusConcatStep(a, more[..n], more[n], b);
    }
  }

  lemma MinusOne(y: Addr, b: seq<Addr>)
    ensures Minus([y], b) == if y in b then [] else [y]
  {
    var one := [y];
    assert one[..0] == [];
  }

  function DiffOf(prev: Iface, curr: Iface): (d: Diff)
  {
    Diff(curr.index, prev.hw != curr.hw, Minus(curr.addrs, prev.addrs), Minus(prev.addrs, curr.addrs))
  }

  predicate Changed(d: Diff) { d.hwChanged || |d.added| > 0 || |d.removed| > 0 }

  /** Indices of a that b does not have. */
  function Missing(a: Snapshot, b: Snapshot): (r: seq<nat>)
    ensures |r| <= |a|
  {
    if a == [] then []
    else
      var x := a[|a| - 1].index;
      Missing(a[..|a| - 1], b) + if Has(b, x) then [] else [x]
  }

  function Modified(prev: Snapshot, curr: Snapshot): (r: seq<Diff>)
    ensures |r| <= |curr|
  {
    if curr == [] then []
    else
      var c := curr[|curr| - 1];
      Modified(prev, curr[..|curr| - 1]) +
      if Has(prev, c.index) && Changed(DiffOf(prev[Find(prev, c.index)], c)) then [DiffOf(prev[Find(prev, c.index)], c)]
      else []
  }

  function Generate(prev: Snapshot, curr: Snapshot): (u: Update)
  {
    Update(false, curr, Missing(curr, prev), Missing(prev, curr), Modified(prev, curr))
  }

  function Initial(curr: Snapshot): (u: Update) { Update(true, curr, [], [], []) }

  predicate Empty(u: Update) { u.added == [] && u.removed == [] && u.modified == [] }

  // ----- The loops -----

  method Lookup(s: Snapshot, x: nat) returns (i: nat)
    ensures i == Find(s, x)
  {
    i := 0;
    while i < |s| && s[i].index != x
      invariant i <= |s| && forall j :: 0 <= j < i ==> s[j].index != x
    {
      i := i + 1;
    }
  }

  /** The two address loops of generate_update; the array bound is never reached. */
  method ListAddrs(a: seq<Addr>, b: seq<Addr>) returns (r: seq<Addr>)
    requires |a| <= MAX_IPS
    ensures r == Minus(a, b)
  {
    r := [];
    for c := 0 to |a|
      invariant r == Minus(a[..c], b)
    {
      assert a[..c + 1][..c] == a[..c];
      var found := false;
      for p := 0 to |b|
        invariant found <==> a[c] in b[..p]
      {
        if a[c] == b[p] {
          found := true;
          break;
        }
      }
      assert b[..|b|] == b;
      if !found && |r| < MAX_IPS {
        r := r + [a[c]];
      }
    }
    assert a[..|a|] == a;
  }

  method ListMissing(a: Snapshot, b: Snapshot) returns (r: seq<nat>)
    requires |a| <= MAX_INTERFACES
    ensures r == Missing(a, b)
  {
    r := [];
    for c := 0 to |a|
      invariant r == Missing(a[..c], b)
    {
      assert a[..c + 1][..c] == a[..c];
      var i := Lookup(b, a[c].index);
      if i == |b| && |r| < MAX_INTERFACES {
        r := r + [a[c].index];
      }
    }
    assert a[..|a|] == a;
  }

  lemma MissingStep(a: Snapshot, b: Snapshot, i: nat)
    requires i < |a|
    ensures Missing(a[..i + 1], b) == Missing(a[..i], b) + if Has(b, a[i].index) then [] else [a[i].index]
  {
    assert a[..i + 1][..i] == a[..i];
  }

  lemma ModifiedStep(prev: Snapshot, curr: Snapshot, i: nat)
    requires i < |curr|
    ensures var j := Find(prev, curr[i].index);
            Modified(prev, curr[..i + 1]) == Modified(prev, curr[..i]) +
            if j < |prev| && Changed(DiffOf(prev[j], curr[i])) then [DiffOf(prev[j], curr[i])] else []
  {
    assert curr[..i + 1][..i] == curr[..i];
  }

  method Compare(prev: Iface, curr: Iface) returns (d: Diff)
    requires |prev.addrs| <= MAX_IPS && |curr.addrs| <= MAX_IPS
    ensures d == DiffOf(prev, curr)
    ensures d.index == curr.index && (d.hwChanged <==> prev.hw != curr.hw)
    ensures forall y :: y in d.added <==> y in curr.addrs && y !in prev.addrs
    ensures forall y :: y in d.removed <==> y in prev.addrs && y !in curr.addrs
  {
    var plus := ListAddrs(curr.addrs, prev.addrs);
    var minus := ListAddrs(prev.addrs, curr.addrs);
    d := Diff(curr.index, prev.hw != curr.hw, plus, minus);
  }

  /** The loop over the current interfaces. */
  method CompareAll(prev: Snapshot, curr: Snapshot) returns (added: seq<nat>, modified: seq<Diff>)
    requires |curr| <= MAX_INTERFACES
    requires forall i :: 0 <= i < |prev| ==> |prev[i].addrs| <= MAX_IPS
    requires forall i :: 0 <= i < |curr| ==> |curr[i].addrs| <= MAX_IPS
    ensures added == Missing(curr, prev) && modified == Modified(prev, curr)
  {
    added, modified := [], [];
    for i := 0 to |curr|
      invariant added == Missing(curr[..i], prev) && modified == Modified(prev, curr[..i])
    {
      MissingStep(curr, prev, i);
      ModifiedStep(prev, curr, i);
      var j := Lookup(prev, curr[i].index);
      if j == |prev| {
        if |added| < MAX_INTERFACES {
          added := added + [curr[i].index];
        }
      } else {
        var diff := Compare(prev[j], curr[i]);
        if Changed(diff) && |modified| < MAX_INTERFACES {
          modified := modified + [diff];
        }
      }
    }
    assert curr[..|curr|] == curr;
  }

  method GenerateUpdate(prev: Snapshot, curr: Snapshot, isInitial: bool) returns (u: Update)
    requires WellFormed(prev) && WellFormed(curr)
    ensures u == if isInitial then Initial(curr) else Generate(prev, curr)
  {
    if isInitial {
      return Initial(curr);
    }
    var added, modified := CompareAll(prev, curr);
    var removed := ListMissing(prev, curr);
    u := Update(false, curr, added, removed, modified);
  }

  // ----- What an update means -----

  /** What subscribers can see of an interface. */
  datatype Content = Content(hw: Block, addrs: set<Addr>)

  type View = map<nat, Content>

  function SetOf(s: seq<Addr>): (r: set<Addr>) { set x | x in s }

  function ContentOf(i: Iface): (c: Content) { Content(i.hw, SetOf(i.addrs)) }

  function ViewOf(s: Snapshot): (v: View)
  {
    map x | x in (set i | 0 <= i < |s| :: s[i].index) && Has(s, x) :: ContentOf(s[Find(s, x)])
  }

  lemma ViewKeys(s: Snapshot, x: nat)
    ensures x in ViewOf(s) <==> Has(s, x)
    ensures Has(s, x) ==> ViewOf(s)[x] == ContentOf(s[Find(s, x)])
  {
    if Has(s, x) {
      assert s[Find(s, x)].index == x;
    }
  }

  function FindDiff(ds: seq<Diff>, x: nat): (i: nat)
    ensures i <= |ds| && (i < |ds| ==> ds[i].index == x) && forall j :: 0 <= j < i ==> ds[j].index != x
  {
    if ds == [] || ds[0].index == x then 0 else 1 + FindDiff(ds[1..], x)
  }

  /** What a receiver that knew c makes of the update's entry for interface x, if there is one. */
  function Patch(u: Update, x: nat, c: Content): (r: Content)
  {
    var d := FindDiff(u.modified, x);
    if d == |u.modified| then c
    else
      var diff := u.modified[d];
      Content(if diff.hwChanged && Has(u.interfaces, x) then u.interfaces[Find(u.interfaces, x)].hw else c.hw,
              (c.addrs - SetOf(diff.removed)) + SetOf(diff.added))
  }

  /** Applying an update: drop the removed, take the added from the snapshot, patch the rest. */
  function ApplyUpdate(u: Update, v: View): (r: View)
  {
    if u.isInitial then ViewOf(u.interfaces)
    else
      map x | x in (v.Keys - (set i | 0 <= i < |u.removed| :: u.removed[i]))
                   + (set i | 0 <= i < |u.added| :: u.added[i])
           && (x in v || Has(u.interfaces, x))
        :: if x in u.added && Has(u.interfaces, x) then ContentOf(u.interfaces[Find(u.interfaces, x)])
           else if x in v then Patch(u, x, v[x]) else ContentOf(u.interfaces[Find(u.interfaces, x)])
  }

  lemma {:induction false} MissingExact(a: Snapshot, b: Snapshot)
    ensures forall x :: x in Missing(a, b) <==> Has(a, x) && !Has(b, x)
  {
    if a != [] {
      var n := |a| - 1;
      MissingExact(a[..n], b);
      forall x
        ensures Has(a, x) <==> Has(a[..n], x) || a[n].index == x
      {
        HasGrows(a, x);
      }
    }
  }

  lemma HasGrows(a: Snapshot, x: nat)
    requires a != []
    ensures Has(a, x) <==> Has(a[..|a| - 1], x) || a[|a| - 1].index == x
  {
    var n := |a| - 1;
    if Has(a[..n], x) {
      assert a[Find(a[..n], x)].index == x;
    }
    if Has(a, x) && Find(a, x) < n {
      assert a[..n][Find(a, x)].index == x;
    }
  }

  /** The entry for x in the list of modifications: its difference, if it is in both snapshots and changed. */
  lemma {:induction false} ModifiedIsDiff(prev: Snapshot, curr: Snapshot, x: nat)
    requires forall i, j :: 0 <= i < j < |curr| ==> curr[i].index != curr[j].index
    ensures var m, f := Modified(prev, curr), FindDiff(Modified(prev, curr), x);
            if Has(prev, x) && Has(curr, x) && Changed(DiffOf(prev[Find(prev, x)], curr[Find(curr, x)]))
            then f < |m| && m[f] == DiffOf(prev[Find(prev, x)], curr[Find(curr, x)])
            else f == |m|
  {
    if curr != [] {
      var n := |curr| - 1;
      ModifiedIsDiff(prev, curr[..n], x);
      HasGrows(curr, x);
      var front, whole := Modified(prev, curr[..n]), Modified(prev, curr);
      if curr[n].index == x {
        assert Find(curr, x) == n;
        assert !Has(curr[..n], x) by {
          assert forall i :: 0 <= i < n ==> curr[..n][i].index != x;
        }
        DiffAppended(front, whole[|front|..], x);
      } else {
        if Has(curr[..n], x) {
          FindIs(curr, x, Find(curr[..n], x));
        }
        DiffAppended(front, whole[|front|..], x);
      }
      assert whole == front + whole[|front|..];
    }
  }

  /** What the list of modifications says of interface x: there is an entry, and only one, if and only if x is in both
      snapshots and its hardware address or its set of addresses differs. The entry says that the hardware address
      changed if and only if it did, and lists exactly the addresses that only the current snapshot has as added, and
      exactly those that only the previous one has as removed. */
  lemma ModifiedExact(prev: Snapshot, curr: Snapshot, x: nat)
    requires forall i, j :: 0 <= i < j < |curr| ==> curr[i].index != curr[j].index
    ensures var m, f := Modified(prev, curr), FindDiff(Modified(prev, curr), x);
            && (f < |m| <==>
                && Has(prev, x) && Has(curr, x)
                && var p, c := prev[Find(prev, x)], curr[Find(curr, x)];
                   p.hw != c.hw || exists y :: (y in p.addrs) != (y in c.addrs))
            && (f < |m| ==>
                  && Has(prev, x) && Has(curr, x)
                  && var p, c := prev[Find(prev, x)], curr[Find(curr, x)];
                     && m[f].index == x && (m[f].hwChanged <==> p.hw != c.hw)
                     && (forall y :: y in m[f].added <==> y in c.addrs && y !in p.addrs)
                     && (forall y :: y in m[f].removed <==> y in p.addrs && y !in c.addrs)
                     && forall j :: 0 <= j < |m| && j != f ==> m[j].index != x)
  {
    ModifiedIsDiff(prev, curr, x);
    if Has(prev, x) && Has(curr, x) {
      ChangedIff(prev[Find(prev, x)], curr[Find(curr, x)]);
    }
    OneEntry(prev, curr, x);
  }

  lemma ChangedIff(p: Iface, c: Iface)
    ensures Changed(DiffOf(p, c)) <==> p.hw != c.hw || exists y :: (y in p.addrs) != (y in c.addrs)
  {
    var d := DiffOf(p, c);
    if |d.added| > 0 {
      assert d.added[0] in d.added;
    }
    if |d.removed| > 0 {
      assert d.removed[0] in d.removed;
    }
    if y :| (y in p.addrs) != (y in c.addrs) {
      assert y in d.added || y in d.removed;
    }
  }

  /** Entries are for interfaces of the current snapshot, each of them once. */
  lemma {:induction false} EntriesDiffer(prev: Snapshot, curr: Snapshot)
    requires forall i, j :: 0 <= i < j < |curr| ==> curr[i].index != curr[j].index
    ensures forall j :: 0 <= j < |Modified(prev, curr)| ==> Has(curr, Modified(prev, curr)[j].index)
    ensures forall i, j :: 0 <= i < j < |Modified(prev, curr)| ==>
              Modified(prev, curr)[i].index != Modified(prev, curr)[j].index
  {
    if curr != [] {
      var n := |curr| - 1;
      EntriesDiffer(prev, curr[..n]);
      var front, whole := Modified(prev, curr[..n]), Modified(prev, curr);
      NewIndex(curr);
      forall j | 0 <= j < |whole|
        ensures Has(curr, whole[j].index)
        ensures if j < |front| then whole[j] == front[j] && front[j].index != curr[n].index
                else whole[j].index == curr[n].index
      {
        HasGrows(curr, whole[j].index);
        if j < |front| {
          assert Has(curr[..n], front[j].index);
        }
      }
    }
  }

  lemma NewIndex(curr: Snapshot)
    requires curr != [] && forall i, j :: 0 <= i < j < |curr| ==> curr[i].index != curr[j].index
    ensures !Has(curr[..|curr| - 1], curr[|curr| - 1].index)
  {
    assert forall i :: 0 <= i < |curr| - 1 ==> curr[..|curr| - 1][i] == curr[i];
  }

  lemma OneEntry(prev: Snapshot, curr: Snapshot, x: nat)
    requires forall i, j :: 0 <= i < j < |curr| ==> curr[i].index != curr[j].index
    ensures var m, f := Modified(prev, curr), FindDiff(Modified(prev, curr), x);
            forall j :: 0 <= j < |m| && j != f ==> m[j].index != x
  {
    EntriesDiffer(prev, curr);
  }

  lemma FindIs(s: Snapshot, x: nat, i: nat)
    requires i < |s| && s[i].index == x && forall j :: 0 <= j < i ==> s[j].index != x
    ensures Find(s, x) == i
  {}

  lemma DiffAppended(front: seq<Diff>, more: seq<Diff>, x: nat)
    ensures FindDiff(front, x) < |front| ==> FindDiff(front + more, x) == FindDiff(front, x)
    ensures FindDiff(front, x) == |front| ==> FindDiff(front + more, x) == |front| + FindDiff(more, x)
  {
    var all := front + more;
    var f := FindDiff(all, x);
    if FindDiff(front, x) < |front| {
      assert all[FindDiff(front, x)].index == x;
    } else if FindDiff(more, x) < |more| {
      assert all[|front| + FindDiff(more, x)].index == x;
    }
    assert f < |front| ==> front[f].index == x;
    assert |front| <= f < |all| ==> more[f - |front|].index == x;
  }

  lemma SetMinus(a: seq<Addr>, b: seq<Addr>)
    ensures (SetOf(a) - SetOf(Minus(a, b))) + SetOf(Minus(b, a)) == SetOf(b)
  {}

  /** The entry of interface x after applying the generated update. */
  lemma PatchIsCurrent(prev: Snapshot, curr: Snapshot, x: nat)
    requires WellFormed(prev) && WellFormed(curr) && Has(prev, x) && Has(curr, x)
    ensures Patch(Generate(prev, curr), x, ContentOf(prev[Find(prev, x)])) == ContentOf(curr[Find(curr, x)])
  {
    ModifiedIsDiff(prev, curr, x);
    var p, c := prev[Find(prev, x)], curr[Find(curr, x)];
    SetMinus(p.addrs, c.addrs);
    if !Changed(DiffOf(p, c)) {
      assert SetOf(p.addrs) == SetOf(c.addrs);
    }
  }

  lemma AppliedKeys(u: Update, v: View, x: nat)
    requires !u.isInitial
    ensures x in ApplyUpdate(u, v) <==>
            ((x in v && x !in u.removed) || x in u.added) && (x in v || Has(u.interfaces, x))
  {
    assert x in u.removed <==> x in (set i | 0 <= i < |u.removed| :: u.removed[i]);
    assert x in u.added <==> x in (set i | 0 <= i < |u.added| :: u.added[i]);
  }

  lemma AppliedAt(prev: Snapshot, curr: Snapshot, x: nat)
    requires WellFormed(prev) && WellFormed(curr)
    ensures var r := ApplyUpdate(Generate(prev, curr), ViewOf(prev));
            (x in r <==> x in ViewOf(curr)) && (x in r ==> r[x] == ViewOf(curr)[x])
  {
    MissingExact(curr, prev);
    MissingExact(prev, curr);
    AppliedKeys(Generate(prev, curr), ViewOf(prev), x);
    ViewKeys(prev, x);
    ViewKeys(curr, x);
    if Has(prev, x) && Has(curr, x) {
      PatchIsCurrent(prev, curr, x);
    }
  }

  /** Applying the update to the previous view gives the current one: index set, hardware addresses, address sets. */
  lemma UpdateReconstructs(prev: Snapshot, curr: Snapshot)
    requires WellFormed(prev) && WellFormed(curr)
    ensures ApplyUpdate(Generate(prev, curr), ViewOf(prev)) == ViewOf(curr)
  {
    var r, v := ApplyUpdate(Generate(prev, curr), ViewOf(prev)), ViewOf(curr);
    forall x: nat
      ensures (x in r <==> x in v) && (x in r ==> r[x] == v[x])
    {
      AppliedAt(prev, curr, x);
    }
  }

  /** The update is empty exactly if nothing visible changed. */
  lemma EmptyIffSame(prev: Snapshot, curr: Snapshot)
    requires WellFormed(prev) && WellFormed(curr)
    ensures Empty(Generate(prev, curr)) <==> ViewOf(prev) == ViewOf(curr)
  {
    UpdateReconstructs(prev, curr);
    var u := Generate(prev, curr);
    if Empty(u) {
      EmptyChangesNothing(u, ViewOf(prev));
    }
    if ViewOf(prev) == ViewOf(curr) {
      SameGivesEmpty(prev, curr);
    }
  }

  lemma EmptyChangesNothing(u: Update, v: View)
    requires Empty(u) && !u.isInitial
    ensures ApplyUpdate(u, v) == v
  {
    forall x: nat
      ensures (x in ApplyUpdate(u, v) <==> x in v) && (x in v ==> ApplyUpdate(u, v)[x] == v[x])
    {
      AppliedKeys(u, v, x);
    }
  }

  lemma SameGivesEmpty(prev: Snapshot, curr: Snapshot)
    requires WellFormed(prev) && WellFormed(curr) && ViewOf(prev) == ViewOf(curr)
    ensures Empty(Generate(prev, curr))
  {
    var u := Generate(prev, curr);
    forall x: nat
      ensures Has(prev, x) <==> Has(curr, x)
    {
      ViewKeys(prev, x);
      ViewKeys(curr, x);
    }
    MissingExact(curr, prev);
    MissingExact(prev, curr);
    NoElement(u.added);
    NoElement(u.removed);
    if u.modified != [] {
      var x := u.modified[0].index;
      ViewKeys(prev, x);
      ViewKeys(curr, x);
      ModifiedIsDiff(prev, curr, x);
      SameContentUnchanged(prev[Find(prev, x)], curr[Find(curr, x)]);
    }
  }

  lemma SameContentUnchanged(p: Iface, c: Iface)
    requires ContentOf(p) == ContentOf(c)
    ensures !Changed(DiffOf(p, c))
  {
    assert forall x :: x in p.addrs <==> x in SetOf(p.addrs);
    assert forall x :: x in c.addrs <==> x in SetOf(c.addrs);
    var plus, minus := Minus(c.addrs, p.addrs), Minus(p.addrs, c.addrs);
    NoElement(plus);
    NoElement(minus);
  }

  lemma NoElement<T>(s: seq<T>)
    ensures (forall x :: x !in s) ==> s == []
  {
    if s != [] {
      assert s[0] in s;
    }
  }

  // ----- The watcher -----

  /** One call of ifmon_list_get: its verdict, and what it left in the list (a failing call can leave a partial list).
      */
  datatype Fetch = Fetch(ok: bool, list: Snapshot)

  datatype Watch = Watch(prev: Snapshot, calls: seq<Update>)

  function Begin(first: Fetch): (w: Watch)
  {
    Watch(first.list, if first.ok then [Initial(first.list)] else [])
  }

  /** One wake-up of the watcher thread. */
  function Wake(w: Watch, f: Fetch): (r: Watch)
  {
    if f.ok && !Empty(Generate(w.prev, f.list)) then Watch(f.list, w.calls + [Generate(w.prev, f.list)]) else w
  }

  function RunWatch(first: Fetch, events: seq<Fetch>): (w: Watch)
  {
    if events == [] then Begin(first) else Wake(RunWatch(first, events[..|events| - 1]), events[|events| - 1])
  }

  /** The snapshot of the latest fetch that succeeded. */
  function Latest(first: Fetch, events: seq<Fetch>): (s: Snapshot)
  {
    if events == [] then first.list
    else
      var n := |events| - 1;
      if events[n].ok then events[n].list else Latest(first, events[..n])
  }

  /** What a callback that starts out knowing nothing holds after a series of updates. */
  function Replay(calls: seq<Update>): (v: View)
  {
    if calls == [] then map[] else ApplyUpdate(calls[|calls| - 1], Replay(calls[..|calls| - 1]))
  }

  predicate Fetches(events: seq<Fetch>) { forall i :: 0 <= i < |events| ==> WellFormed(events[i].list) }

  lemma ReplayNext(calls: seq<Update>, u: Update)
    ensures Replay(calls + [u]) == ApplyUpdate(u, Replay(calls))
  {
    assert (calls + [u])[..|calls|] == calls;
  }

  /** The watcher's snapshot always shows what the latest successful fetch showed, whatever the first fetch did. */
  lemma {:induction false} PrevIsLatest(first: Fetch, events: seq<Fetch>)
    requires WellFormed(first.list) && Fetches(events)
    ensures WellFormed(RunWatch(first, events).prev)
    ensures ViewOf(RunWatch(first, events).prev) == ViewOf(Latest(first, events))
  {
    if events != [] {
      var n := |events| - 1;
      PrevIsLatest(first, events[..n]);
      EmptyIffSame(RunWatch(first, events[..n]).prev, events[n].list);
    }
  }

  /** If the first fetch succeeded, or failed before listing anything, the callbacks compose to that snapshot. */
  lemma {:induction false} CallbacksCompose(first: Fetch, events: seq<Fetch>)
    requires WellFormed(first.list) && Fetches(events) && (first.ok || first.list == [])
    ensures Replay(RunWatch(first, events).calls) == ViewOf(RunWatch(first, events).prev)
  {
    if events == [] {
      if first.ok {
        ReplayNext([], Initial(first.list));
        assert [] + [Initial(first.list)] == [Initial(first.list)];
      }
    } else {
      var n := |events| - 1;
      CallbacksCompose(first, events[..n]);
      PrevIsLatest(first, events[..n]);
      var w := RunWatch(first, events[..n]);
      UpdateReconstructs(w.prev, events[n].list);
      ReplayNext(w.calls, Generate(w.prev, events[n].list));
    }
  }

  /** No change is lost over any run exactly if the first fetch succeeded or failed before listing anything. */
  lemma NoChangeLostIff(first: Fetch)
    requires WellFormed(first.list)
    ensures (forall events :: Fetches(events) ==>
               Replay(RunWatch(first, events).calls) == ViewOf(Latest(first, events)))
            <==> first.ok || first.list == []
  {
    if first.ok || first.list == [] {
      forall events | Fetches(events)
        ensures Replay(RunWatch(first, events).calls) == ViewOf(Latest(first, events))
      {
        CallbacksCompose(first, events);
        PrevIsLatest(first, events);
      }
    } else {
      assert Fetches([]);
      ViewKeys(first.list, first.list[0].index);
      assert first.list[0].index in ViewOf(Latest(first, []));
      assert Replay(RunWatch(first, []).calls) == map[];
    }
  }

  /** If the first fetch fails after listing interfaces, they are not reported even when a later fetch shows them. */
  lemma FirstFetchLost(list: Snapshot)
    requires WellFormed(list) && list != []
    ensures var first, events := Fetch(false, list), [Fetch(true, list)];
            && RunWatch(first, events).calls == []
            && Replay(RunWatch(first, events).calls) != ViewOf(Latest(first, events))
  {
    var first, events := Fetch(false, list), [Fetch(true, list)];
    assert events[..0] == [];
    EmptyIffSame(list, list);
    ViewKeys(list, list[0].index);
    assert list[0].index in ViewOf(Latest(first, events));
  }

  /** A wake-up calls back exactly if the fetch succeeded and shows something else than before. */
  lemma CallbackIff(first: Fetch, events: seq<Fetch>, f: Fetch)
    requires WellFormed(first.list) && Fetches(events) && WellFormed(f.list)
    ensures var w := RunWatch(first, events);
            |Wake(w, f).calls| ==
            |w.calls| + if f.ok && ViewOf(Latest(first, events)) != ViewOf(f.list) then 1 else 0
  {
    PrevIsLatest(first, events);
    EmptyIffSame(RunWatch(first, events).prev, f.list);
  }

  class Watcher {
    var prev: Snapshot
    var curr: Snapshot
    var calls: seq<Update>

    ghost predicate Valid()
      reads this
    {
      WellFormed(prev)
    }

    ghost function Model(): (w: Watch)
      reads this
    {
      Watch(prev, calls)
    }

    constructor (first: Fetch)
      requires WellFormed(first.list)
      ensures Valid() && Model() == Begin(first)
    {
      prev, curr, calls := first.list, [], [];
      new;
      if first.ok {
        var update := GenerateUpdate([], prev, true);
        calls := [update];
      }
    }

    method OnEvent(f: Fetch)
      requires Valid() && WellFormed(f.list)
      modifies this
      ensures Valid() && Model() == Wake(old(Model()), f)
    {
      curr := f.list;
      if f.ok {
        var update := GenerateUpdate(prev, curr, false);
        if |update.added| > 0 || |update.removed| > 0 || |update.modified| > 0 {
          calls := calls + [update];
          prev := curr;
        }
      }
    }
  }

  /** ifmon_watch_start followed by the thread's loop over a series of wake-ups. */
  method WatchLoop(first: Fetch, events: seq<Fetch>) returns (w: Watcher)
    requires WellFormed(first.list) && Fetches(events)
    ensures fresh(w) && w.Valid() && w.Model() == RunWatch(first, events)
    ensures first.ok || first.list == [] ==> Replay(w.calls) == ViewOf(Latest(first, events))
  {
    w := new Watcher(first);
    for i := 0 to |events|
      invariant fresh(w) && w.Valid() && w.Model() == RunWatch(first, events[..i])
    {
      assert events[..i + 1][..i] == events[..i];
      w.OnEvent(events[i]);
    }
    assert events[..|events|] == events;
    NoChangeLostIff(first);
  }
}
