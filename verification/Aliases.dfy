/** Alias agreement: one endpoint subscribes and picks aliases, the other learns them from the control stream. */
module Aliases {
  import opened Bytes
  import opened Tracks
  import opened Session
  import opened Protocol
  import Codec

  datatype Request = Request(alias: byte, kind: byte, flags: byte, name: Block)

  /** The subscriber's table, the publisher's table, and the SUBSCRIBE messages on their way. */
  datatype Link = Link(near: seq<Entry>, far: seq<Entry>, flight: seq<Request>)

  datatype Move = Subscribe(track: TrackId) | Deliver

  /** Subscribes at the near end, or applies the oldest message at the far end. */
  function Step(k: Link, move: Move): (k': Link)
    requires move.Deliver? ==> k.flight != []
  {
    match move
    case Subscribe(track) =>
      (match FindByTrack(k.near, track)
       case Some(alias) => k.(flight := k.flight + [Request(alias, track.kind, track.flags, track.name)])
       case None =>
         var alias := U8(NextAlias(k.near));
         k.(near := Add(k.near, track.kind, track.flags, track.name, alias),
            flight := k.flight + [Request(alias, track.kind, track.flags, track.name)]))
    case Deliver =>
      var r := k.flight[0];
      k.(far := Add(k.far, r.kind, r.flags, r.name, r.alias), flight := k.flight[1..])
  }

  /** A step is what the endpoints do: transport_subscribe at the near end, which puts the message in flight on the
      stream, and the control parser's handling of that message, before its callback, at the far end. */
  lemma StepIsTransport<A>(k: Link, track: TrackId, near: Conn<A>, far: Conn<A>, react: Reactor<A>)
    requires near.subs == k.near && far.subs == k.far
    ensures var k' := Step(k, Subscribe(track));
            && Subscribing(near, track).subs == k'.near
            && Subscribing(near, track).out == near.out + SubscribeBytes(k'.flight[|k.flight|].alias, track)
    ensures k.flight != [] ==>
              var r := k.flight[0];
              Apply(react, far, Codec.Subscribe(r.alias, r.kind, r.flags, r.name))
              == Raise(react, far.(subs := Step(k, Deliver).far), Subscribed(TrackId(r.kind, r.flags, r.name)))
  {}

  /** Entries are packed at the front, and no two are for the same (type, name). */
  predicate Packed(s: seq<Entry>) {
    && |s| == SUBSCRIPTIONS
    && (forall i :: IndexOfFree(s) <= i < |s| ==> !s[i].active)
    && (forall i, j :: 0 <= i < j < IndexOfFree(s) ==>
          !(s[i].track.kind == s[j].track.kind && s[i].track.name == s[j].track.name))
  }

  predicate Full(s: seq<Entry>) { IndexOfFree(s) == |s| }

  predicate In(s: seq<Entry>, kind: byte, name: Block) { IndexOf(s, kind, name) < |s| }

  /** The subscriber's entries are named and numbered from 8. */
  predicate NearOk(near: seq<Entry>) {
    Packed(near) &&
    forall i :: 0 <= i < IndexOfFree(near) ==> near[i].track.name != [] && near[i].alias == 8 + i
  }

  /** An (alias, type, name) triple that means the same at the near end. */
  predicate Means(near: seq<Entry>, alias: byte, kind: byte, name: Block) {
    if name == [] then alias == kind < FIRST_NAMED_ALIAS
    else In(near, kind, name) && near[IndexOf(near, kind, name)].alias == alias
  }

  predicate FarOk(k: Link) {
    Packed(k.far) &&
    forall i :: 0 <= i < IndexOfFree(k.far) ==>
      Means(k.near, k.far[i].alias, k.far[i].track.kind, k.far[i].track.name)
  }

  predicate Requested(flight: seq<Request>, kind: byte, name: Block) {
    exists p :: 0 <= p < |flight| && flight[p].kind == kind && flight[p].name == name
  }

  /** Every near entry is known at the far end or on its way there, ahead of message p, unless the far end is full. */
  predicate KnownBy(k: Link, p: nat)
    requires p <= |k.flight|
  {
    Full(k.far) ||
    forall i :: 0 <= i < IndexOfFree(k.near) ==>
      In(k.far, k.near[i].track.kind, k.near[i].track.name)
      || Requested(k.flight[..p], k.near[i].track.kind, k.near[i].track.name)
  }

  /** A message means the same at the near end, or was dropped there, and then finds the far end full as well. */
  predicate FlightOk(k: Link) {
    forall p :: 0 <= p < |k.flight| ==>
      || Means(k.near, k.flight[p].alias, k.flight[p].kind, k.flight[p].name)
      || (Full(k.near) && k.flight[p].name != [] && !In(k.near, k.flight[p].kind, k.flight[p].name) && KnownBy(k, p))
  }

  predicate Inv(k: Link) { NearOk(k.near) && FarOk(k) && FlightOk(k) && KnownBy(k, |k.flight|) }

  // ----- What Add does to a packed table -----

  lemma AddFresh(s: seq<Entry>, kind: byte, flags: byte, name: Block, alias: byte)
    requires Packed(s) && !In(s, kind, name) && !Full(s)
    ensures var r := Add(s, kind, flags, name, alias);
            && Packed(r) && IndexOfFree(r) == IndexOfFree(s) + 1
            && r == s[IndexOfFree(s) := Entry(TrackId(kind, flags, name), alias, true)]
            && IndexOf(r, kind, name) == IndexOfFree(s)
            && forall k: byte, n: Block :: !(k == kind && n == name) ==> IndexOf(r, k, n) == IndexOf(s, k, n)
  {
    var f := IndexOfFree(s);
    var r := Add(s, kind, flags, name, alias);
    FreeIs(r, f + 1);
    IndexIs(r, kind, name, f);
    forall k: byte, n: Block | !(k == kind && n == name)
      ensures IndexOf(r, k, n) == IndexOf(s, k, n)
    {
      IndexIs(r, k, n, IndexOf(s, k, n));
    }
  }

  lemma AddKnown(s: seq<Entry>, kind: byte, flags: byte, name: Block, alias: byte)
    requires Packed(s) && In(s, kind, name)
    ensures var r := Add(s, kind, flags, name, alias);
            && Packed(r) && IndexOfFree(r) == IndexOfFree(s)
            && (forall k: byte, n: Block :: IndexOf(r, k, n) == IndexOf(s, k, n))
            && (forall i :: 0 <= i < |s| ==>
                  && r[i].track.kind == s[i].track.kind && r[i].track.name == s[i].track.name
                  && r[i].alias == if i == IndexOf(s, kind, name) then alias else s[i].alias)
  {
    var r := Add(s, kind, flags, name, alias);
    FreeIs(r, IndexOfFree(s));
    forall k: byte, n: Block
      ensures IndexOf(r, k, n) == IndexOf(s, k, n)
    {
      IndexIs(r, k, n, IndexOf(s, k, n));
    }
  }

  lemma FreeIs(s: seq<Entry>, i: nat)
    requires i <= |s| && (i < |s| ==> !s[i].active) && forall j :: 0 <= j < i ==> s[j].active
    ensures IndexOfFree(s) == i
  {}

  lemma IndexIs(s: seq<Entry>, kind: byte, name: Block, i: nat)
    requires i <= |s| && (i < |s| ==> Holds(s[i], kind, name)) && forall j :: 0 <= j < i ==> !Holds(s[j], kind, name)
    ensures IndexOf(s, kind, name) == i
  {}

  lemma {:induction false} NextAliasPacked(near: seq<Entry>, k: nat)
    requires NearOk(near) && k <= |near|
    ensures NextAlias(near[..k]) == 8 + if k < IndexOfFree(near) then k else IndexOfFree(near)
  {
    if k > 0 {
      NextAliasPacked(near, k - 1);
      assert near[..k][..k - 1] == near[..k - 1];
    }
  }

  // ----- Steps keep the invariant -----

  lemma InitInv()
    ensures Inv(Link(Empty(), Empty(), []))
  {
    assert IndexOfFree(Empty()) == 0;
  }

  lemma KnownByGrows(k: Link, k': Link, r: Request, p: nat)
    requires p <= |k.flight| && KnownBy(k, p)
    requires k'.near == k.near && k'.far == k.far && k'.flight == k.flight + [r]
    ensures KnownBy(k', p) && KnownBy(k', p + 1)
  {
    assert k'.flight[..p] == k.flight[..p];
    forall i | 0 <= i < IndexOfFree(k.near) && Requested(k.flight[..p], k.near[i].track.kind, k.near[i].track.name)
      ensures Requested(k'.flight[..p + 1], k.near[i].track.kind, k.near[i].track.name)
    {
      var q :| 0 <= q < p && k.flight[..p][q].kind == k.near[i].track.kind
            && k.flight[..p][q].name == k.near[i].track.name;
      assert k'.flight[..p + 1][q] == k.flight[..p][q];
    }
  }

  /** A request for a track that needs no new near entry. */
  lemma SendKeeps(k: Link, r: Request)
    requires Inv(k)
    requires Means(k.near, r.alias, r.kind, r.name)
          || (Full(k.near) && r.name != [] && !In(k.near, r.kind, r.name))
    ensures Inv(k.(flight := k.flight + [r]))
  {
    var k' := k.(flight := k.flight + [r]);
    KnownByGrows(k, k', r, |k.flight|);
    assert k'.flight[..|k'.flight|] == k'.flight;
    forall p | 0 <= p < |k'.flight|
      ensures Means(k'.near, k'.flight[p].alias, k'.flight[p].kind, k'.flight[p].name)
           || (Full(k'.near) && k'.flight[p].name != []
               && !In(k'.near, k'.flight[p].kind, k'.flight[p].name) && KnownBy(k', p))
    {
      if p < |k.flight| && KnownBy(k, p) {
        KnownByGrows(k, k', r, p);
      }
    }
  }

  /** A new near entry leaves every earlier meaning intact. */
  lemma MeansGrows(near: seq<Entry>, kind: byte, flags: byte, name: Block, alias: byte, a: byte, t: byte, n: Block)
    requires NearOk(near) && !In(near, kind, name) && !Full(near) && Means(near, a, t, n)
    ensures Means(Add(near, kind, flags, name, alias), a, t, n)
  {
    AddFresh(near, kind, flags, name, alias);
  }

  lemma NewEntryKeeps(k: Link, track: TrackId)
    requires Inv(k) && track.name != [] && !In(k.near, track.kind, track.name) && !Full(k.near)
    ensures Inv(Step(k, Subscribe(track)))
  {
    var n := IndexOfFree(k.near);
    NextAliasPacked(k.near, |k.near|);
    assert k.near[..|k.near|] == k.near;
    var alias: byte := 8 + n;
    AddFresh(k.near, track.kind, track.flags, track.name, alias);
    var r := Request(alias, track.kind, track.flags, track.name);
    var k' := Step(k, Subscribe(track));
    assert k' == k.(near := Add(k.near, track.kind, track.flags, track.name, alias), flight := k.flight + [r]);
    forall i | 0 <= i < IndexOfFree(k.far)
      ensures Means(k'.near, k.far[i].alias, k.far[i].track.kind, k.far[i].track.name)
    {
      MeansGrows(k.near, track.kind, track.flags, track.name, alias,
                 k.far[i].alias, k.far[i].track.kind, k.far[i].track.name);
    }
    forall p | 0 <= p < |k.flight|
      ensures Means(k'.near, k.flight[p].alias, k.flight[p].kind, k.flight[p].name)
    {
      MeansGrows(k.near, track.kind, track.flags, track.name, alias,
                 k.flight[p].alias, k.flight[p].kind, k.flight[p].name);
    }
    NewEntryKnown(k, k', r);
  }

  lemma NewEntryKnown(k: Link, k': Link, r: Request)
    requires KnownBy(k, |k.flight|) && k'.far == k.far && k'.flight == k.flight + [r]
    requires |k.near| == |k'.near| && IndexOfFree(k'.near) == IndexOfFree(k.near) + 1
    requires forall i :: 0 <= i < IndexOfFree(k.near) ==> k'.near[i] == k.near[i]
    requires var e := k'.near[IndexOfFree(k.near)]; e.track.kind == r.kind && e.track.name == r.name
    ensures KnownBy(k', |k'.flight|)
  {
    assert k.flight[..|k.flight|] == k.flight && k'.flight[..|k'.flight|] == k'.flight;
    forall i | 0 <= i < IndexOfFree(k'.near) && !In(k.far, k'.near[i].track.kind, k'.near[i].track.name) && !Full(k.far)
      ensures Requested(k'.flight, k'.near[i].track.kind, k'.near[i].track.name)
    {
      if i < IndexOfFree(k.near) {
        var q :| 0 <= q < |k.flight| && k.flight[q].kind == k.near[i].track.kind
              && k.flight[q].name == k.near[i].track.name;
        assert k'.flight[q] == k.flight[q];
      } else {
        assert k'.flight[|k.flight|] == r;
      }
    }
  }

  lemma SubscribeKeeps(k: Link, track: TrackId)
    requires Inv(k) && ValidTrack(track)
    ensures Inv(Step(k, Subscribe(track)))
  {
    if track.name != [] && !In(k.near, track.kind, track.name) && !Full(k.near) {
      NewEntryKeeps(k, track);
    } else {
      var k' := Step(k, Subscribe(track));
      SendKeeps(k, k'.flight[|k.flight|]);
    }
  }

  // ----- Delivery -----

  ghost function Keys(s: seq<Entry>, n: nat): (r: set<(byte, Block)>)
    requires n <= |s|
  {
    set i | 0 <= i < n :: (s[i].track.kind, s[i].track.name)
  }

  lemma {:induction false} KeysSize(s: seq<Entry>, n: nat)
    requires n <= |s|
    ensures |Keys(s, n)| <= n
    ensures (forall i, j :: 0 <= i < j < n ==>
               !(s[i].track.kind == s[j].track.kind && s[i].track.name == s[j].track.name)) ==> |Keys(s, n)| == n
  {
    if n == 0 {
      assert Keys(s, 0) == {};
    } else {
      KeysSize(s, n - 1);
      var last := (s[n - 1].track.kind, s[n - 1].track.name);
      assert Keys(s, n) == Keys(s, n - 1) + {last};
    }
  }

  /** If a full table's entries are all in another table, that one is full as well. */
  lemma CoveredIsFull(near: seq<Entry>, far: seq<Entry>)
    requires Packed(near) && Packed(far) && Full(near)
    requires forall i :: 0 <= i < |near| ==> In(far, near[i].track.kind, near[i].track.name)
    ensures Full(far)
  {
    var m := IndexOfFree(far);
    KeysSize(near, |near|);
    KeysSize(far, m);
    forall i | 0 <= i < |near|
      ensures (near[i].track.kind, near[i].track.name) in Keys(far, m)
    {
      var j := IndexOf(far, near[i].track.kind, near[i].track.name);
      assert 0 <= j < m && (far[j].track.kind, far[j].track.name) == (near[i].track.kind, near[i].track.name);
    }
    assert Keys(near, |near|) <= Keys(far, m);
    SubsetSize(Keys(near, |near|), Keys(far, m));
  }

  /** A message that reaches the far end means the same at the near end, or leaves the far table alone. */
  lemma DeliveredMeans(k: Link)
    requires Inv(k) && k.flight != []
    ensures var r := k.flight[0];
            Means(k.near, r.alias, r.kind, r.name) || (Full(k.far) && !In(k.far, r.kind, r.name))
  {
    var r := k.flight[0];
    if !Means(k.near, r.alias, r.kind, r.name) {
      assert KnownBy(k, 0);
      if !Full(k.far) {
        assert forall i :: 0 <= i < |k.near| ==> In(k.far, k.near[i].track.kind, k.near[i].track.name);
        CoveredIsFull(k.near, k.far);
      }
    }
  }

  lemma FarGrows(k: Link)
    requires Inv(k) && k.flight != []
    ensures var r, k' := k.flight[0], Step(k, Deliver);
            && FarOk(k')
            && (Full(k.far) ==> Full(k'.far))
            && (In(k'.far, r.kind, r.name) || Full(k'.far))
            && forall t: byte, n: Block :: In(k.far, t, n) ==> In(k'.far, t, n)
  {
    DeliveredMeans(k);
    var r := k.flight[0];
    if In(k.far, r.kind, r.name) {
      FarRefreshed(k, r);
    } else if !Full(k.far) {
      FarEntered(k, r);
    }
  }

  lemma FarRefreshed(k: Link, r: Request)
    requires FarOk(k) && In(k.far, r.kind, r.name) && Means(k.near, r.alias, r.kind, r.name)
    ensures var far' := Add(k.far, r.kind, r.flags, r.name, r.alias);
            && FarOk(k.(far := far')) && IndexOfFree(far') == IndexOfFree(k.far)
            && forall t: byte, n: Block :: In(k.far, t, n) <==> In(far', t, n)
  {
    AddKnown(k.far, r.kind, r.flags, r.name, r.alias);
  }

  lemma FarEntered(k: Link, r: Request)
    requires FarOk(k) && !In(k.far, r.kind, r.name) && !Full(k.far) && Means(k.near, r.alias, r.kind, r.name)
    ensures var far' := Add(k.far, r.kind, r.flags, r.name, r.alias);
            && FarOk(k.(far := far')) && In(far', r.kind, r.name)
            && forall t: byte, n: Block :: In(k.far, t, n) ==> In(far', t, n)
  {
    AddFresh(k.far, r.kind, r.flags, r.name, r.alias);
  }

  lemma KnownByShifts(k: Link, p: nat)
    requires Inv(k) && 0 < p <= |k.flight| && KnownBy(k, p)
    ensures KnownBy(Step(k, Deliver), p - 1)
  {
    FarGrows(k);
    var k' := Step(k, Deliver);
    forall i | 0 <= i < IndexOfFree(k.near) && !Full(k'.far) && !In(k'.far, k.near[i].track.kind, k.near[i].track.name)
      ensures Requested(k'.flight[..p - 1], k.near[i].track.kind, k.near[i].track.name)
    {
      var q :| 0 <= q < p && k.flight[..p][q].kind == k.near[i].track.kind
            && k.flight[..p][q].name == k.near[i].track.name;
      assert q > 0;
      assert k'.flight[..p - 1][q - 1] == k.flight[..p][q];
    }
  }

  lemma FlightShifts(k: Link, k': Link, p: nat)
    requires Inv(k) && p + 1 < |k.flight| && k' == Step(k, Deliver)
    ensures var r := k.flight[p + 1];
            || Means(k.near, r.alias, r.kind, r.name)
            || (Full(k.near) && r.name != [] && !In(k.near, r.kind, r.name) && KnownBy(k', p))
  {
    var r := k.flight[p + 1];
    if !Means(k.near, r.alias, r.kind, r.name) {
      KnownByShifts(k, p + 1);
    }
  }

  lemma DeliverKeeps(k: Link)
    requires Inv(k) && k.flight != []
    ensures Inv(Step(k, Deliver))
  {
    FarGrows(k);
    var k' := Step(k, Deliver);
    KnownByShifts(k, |k.flight|);
    assert FlightOk(k') by {
      forall p | 0 <= p < |k'.flight|
        ensures Means(k'.near, k'.flight[p].alias, k'.flight[p].kind, k'.flight[p].name)
             || (Full(k'.near) && k'.flight[p].name != []
                 && !In(k'.near, k'.flight[p].kind, k'.flight[p].name) && KnownBy(k', p))
      {
        FlightShifts(k, k', p);
      }
    }
  }

  // ----- Runs -----

  /** The state after a run of subscriptions and deliveries, starting from empty tables; a delivery with nothing in
      flight does nothing. */
  function Run(moves: seq<Move>): (k: Link)
  {
    if moves == [] then Link(Empty(), Empty(), [])
    else
      var k := Run(moves[..|moves| - 1]);
      var move := moves[|moves| - 1];
      if move.Deliver? && k.flight == [] then k else Step(k, move)
  }

  predicate ValidMoves(moves: seq<Move>) {
    forall i :: 0 <= i < |moves| && moves[i].Subscribe? ==> ValidTrack(moves[i].track)
  }

  lemma {:induction false} RunInv(moves: seq<Move>)
    requires ValidMoves(moves)
    ensures Inv(Run(moves))
  {
    if moves == [] {
      InitInv();
    } else {
      var k := Run(moves[..|moves| - 1]);
      RunInv(moves[..|moves| - 1]);
      match moves[|moves| - 1]
      case Subscribe(track) => SubscribeKeeps(k, track);
      case Deliver =>
        if k.flight != [] {
          DeliverKeeps(k);
        }
    }
  }

  /** Where the alias of a named track leads at the near end. */
  lemma NearResolves(near: seq<Entry>, alias: byte, kind: byte, name: Block)
    requires NearOk(near) && name != [] && Means(near, alias, kind, name)
    ensures alias >= FIRST_NAMED_ALIAS && IndexOfAlias(near, alias) == IndexOf(near, kind, name)
  {
    var j := IndexOf(near, kind, name);
    assert j < IndexOfFree(near);
    AliasIs(near, alias, j);
  }

  lemma AliasIs(s: seq<Entry>, alias: byte, i: nat)
    requires i < |s| && s[i].active && s[i].alias == alias
    requires forall j :: 0 <= j < i ==> !(s[j].active && s[j].alias == alias)
    ensures IndexOfAlias(s, alias) == i
  {}

  /** Two named far entries with one alias are one entry. */
  lemma FarAliasUnique(k: Link, i: nat, j: nat)
    requires Inv(k) && i < IndexOfFree(k.far) && j < IndexOfFree(k.far)
    requires k.far[i].alias == k.far[j].alias >= FIRST_NAMED_ALIAS
    ensures i == j
  {
    var a, b := k.far[i].track, k.far[j].track;
    assert Means(k.near, k.far[i].alias, a.kind, a.name) && Means(k.near, k.far[j].alias, b.kind, b.name);
    NearResolves(k.near, k.far[i].alias, a.kind, a.name);
    NearResolves(k.near, k.far[j].alias, b.kind, b.name);
  }

  lemma FarResolves(k: Link, t: TrackId)
    requires Inv(k) && t.name != [] && FindByTrack(k.far, t).Some?
    ensures var alias := FindByTrack(k.far, t).value;
            && FindByAlias(k.far, alias).Some? && SameTrack(FindByAlias(k.far, alias).value, t)
            && FindByAlias(k.near, alias).Some? && SameTrack(FindByAlias(k.near, alias).value, t)
  {
    var i := IndexOf(k.far, t.kind, t.name);
    assert i < IndexOfFree(k.far);
    var alias := k.far[i].alias;
    assert Means(k.near, alias, t.kind, t.name);
    NearResolves(k.near, alias, t.kind, t.name);
    var j := IndexOfAlias(k.far, alias);
    assert j < IndexOfFree(k.far);
    FarAliasUnique(k, i, j);
  }

  lemma FarAliasResolves(k: Link, alias: byte)
    requires Inv(k) && FindByAlias(k.far, alias).Some?
    ensures FindByTrack(k.far, FindByAlias(k.far, alias).value) == Some(alias)
  {
    if alias >= FIRST_NAMED_ALIAS {
      var j := IndexOfAlias(k.far, alias);
      assert j < IndexOfFree(k.far);
      var t := k.far[j].track;
      assert Means(k.near, alias, t.kind, t.name);
      IndexIs(k.far, t.kind, t.name, j);
    }
  }

  /** The publisher's table is a bijection, and its aliases mean the same at the subscriber. */
  lemma InvAgrees(k: Link)
    requires Inv(k)
    ensures Bijective(k.far) && Agreed(k.far, k.near)
  {
    forall a: byte | FindByAlias(k.far, a).Some?
      ensures FindByTrack(k.far, FindByAlias(k.far, a).value) == Some(a)
    {
      FarAliasResolves(k, a);
    }
    forall t: TrackId | ValidTrack(t) && FindByTrack(k.far, t).Some?
      ensures var alias := FindByTrack(k.far, t).value;
              && FindByAlias(k.far, alias).Some? && SameTrack(FindByAlias(k.far, alias).value, t)
              && FindByAlias(k.near, alias).Some? && SameTrack(FindByAlias(k.near, alias).value, t)
    {
      if t.name != [] {
        FarResolves(k, t);
      }
    }
  }

  /** After every run of one-sided subscriptions, with no limit on how many: the publisher's table is a bijection, and
      every alias it uses resolves to the same type and name at the subscriber, unnamed tracks included. These are the
      conditions under which the object protocol's guarantees hold. */
  lemma AliasAgreement(moves: seq<Move>)
    requires ValidMoves(moves)
    ensures var k := Run(moves); Bijective(k.far) && Agreed(k.far, k.near)
  {
    RunInv(moves);
    InvAgrees(Run(moves));
  }

  /** Entries stay unique at both ends, and aliases of named tracks stay in 8..39 and distinct. */
  lemma TablesStayUnique(moves: seq<Move>, i: nat, j: nat)
    requires ValidMoves(moves) && i < j < 32
    ensures var k := Run(moves);
            && |k.near| == |k.far| == 32
            && (k.near[i].active && k.near[j].active ==>
                  !SameTrack(k.near[i].track, k.near[j].track) && k.near[i].alias != k.near[j].alias
                  && 8 <= k.near[i].alias < 40)
            && (k.far[i].active && k.far[j].active ==>
                  && !SameTrack(k.far[i].track, k.far[j].track)
                  && (k.far[i].track.name != [] && k.far[j].track.name != [] ==> k.far[i].alias != k.far[j].alias))
  {
    RunInv(moves);
    var k := Run(moves);
    if k.far[i].active && k.far[j].active && k.far[i].track.name != [] && k.far[j].track.name != []
       && k.far[i].alias == k.far[j].alias {
      assert Means(k.near, k.far[i].alias, k.far[i].track.kind, k.far[i].track.name);
      NearResolves(k.near, k.far[i].alias, k.far[i].track.kind, k.far[i].track.name);
      FarAliasUnique(k, i, j);
    }
  }
}
