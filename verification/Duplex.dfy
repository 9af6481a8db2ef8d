/** Alias agreement when both ends subscribe, at any time: exactly when no alias ever means two tracks. The daemons keep
    to an order in which it holds: the server subscribes before it sends its accepting reply, the client when it has
    received that reply. The control stream is ordered, so the client has then seen every SUBSCRIBE of the server. */
module Duplex {
  import opened Bytes
  import opened ErasureCode
  import opened Tracks
  import opened Sender
  import opened Protocol
  import opened Aliases
  import opened Session

  type Key = (byte, Block)

  // ----- Tables that number their named tracks from 8 -----

  /** An entry for an unnamed track, or for the track with that number in the list. */
  predicate Numbered(e: Entry, names: seq<Key>) {
    if e.track.name == [] then e.alias == e.track.kind < FIRST_NAMED_ALIAS
    else 8 <= e.alias < 8 + |names| && names[e.alias - 8] == (e.track.kind, e.track.name)
  }

  predicate Distinct(names: seq<Key>) {
    (forall i, j :: 0 <= i < j < |names| ==> names[i] != names[j]) && forall i :: 0 <= i < |names| ==> names[i].1 != []
  }

  /** The table knows exactly the tracks of the list, under their numbers, and perhaps unnamed tracks. */
  ghost predicate Lists(table: seq<Entry>, names: seq<Key>) {
    && |table| == SUBSCRIPTIONS && Distinct(names)
    && (forall i :: 0 <= i < |table| && table[i].active ==> Numbered(table[i], names))
    && (forall j :: 0 <= j < |names| ==> In(table, names[j].0, names[j].1))
  }

  /** A named track in such a table has its number. */
  lemma ListedTrack(table: seq<Entry>, names: seq<Key>, j: nat)
    requires Lists(table, names) && j < |names|
    ensures var i := IndexOf(table, names[j].0, names[j].1); i < |table| && table[i].alias == 8 + j
  {
    var i := IndexOf(table, names[j].0, names[j].1);
    assert In(table, names[j].0, names[j].1);
    assert Numbered(table[i], names);
  }

  /** An alias in such a table resolves to the track with that number. */
  lemma ListedAlias(table: seq<Entry>, names: seq<Key>, j: nat)
    requires Lists(table, names) && j < |names| && 8 + j < 256
    ensures var r := FindByAlias(table, 8 + j); r.Some? && (r.value.kind, r.value.name) == names[j]
  {
    ListedTrack(table, names, j);
    var i := IndexOfAlias(table, 8 + j);
    assert i < |table|;
    assert Numbered(table[i], names);
  }

  lemma {:induction false} NextAliasAtMost(table: seq<Entry>, n: nat)
    requires 8 <= n && forall i :: 0 <= i < |table| && table[i].active ==> table[i].alias < n
    ensures NextAlias(table) <= n
  {
    if table != [] {
      NextAliasAtMost(table[..|table| - 1], n);
    }
  }

  lemma NextAliasIs(table: seq<Entry>, n: nat)
    requires 8 <= n && forall i :: 0 <= i < |table| && table[i].active ==> table[i].alias < n
    requires n == 8 || exists i :: 0 <= i < |table| && table[i].active && table[i].alias == n - 1
    ensures NextAlias(table) == n
  {
    NextAliasAtMost(table, n);
  }

  lemma ListedNext(table: seq<Entry>, names: seq<Key>)
    requires Lists(table, names) && |names| <= SUBSCRIPTIONS
    ensures NextAlias(table) == 8 + |names|
  {
    if names != [] {
      ListedTrack(table, names, |names| - 1);
    }
    forall i | 0 <= i < |table| && table[i].active
      ensures table[i].alias < 8 + |names|
    {
      assert Numbered(table[i], names);
    }
    NextAliasIs(table, 8 + |names|);
  }

  /** Adding an entry that the longer list numbers, to a table that has room for it. */
  lemma AddLists(table: seq<Entry>, names: seq<Key>, longer: seq<Key>,
                 kind: byte, flags: byte, name: Block, alias: byte)
    requires Lists(table, names) && Distinct(longer) && Numbered(Entry(TrackId(kind, flags, name), alias, true), longer)
    requires longer == names || (longer == names + [(kind, name)] && name != [])
    requires In(table, kind, name) || !Full(table)
    ensures Lists(Add(table, kind, flags, name, alias), longer)
  {
    var after := Add(table, kind, flags, name, alias);
    forall i | 0 <= i < |after| && after[i].active
      ensures Numbered(after[i], longer)
    {
      assert table[i].active ==> Numbered(table[i], names);
    }
    forall j | 0 <= j < |longer|
      ensures In(after, longer[j].0, longer[j].1)
    {
      AddKeeps(table, kind, flags, name, alias, longer[j].0, longer[j].1);
      assert j < |names| ==> In(table, names[j].0, names[j].1);
    }
  }

  lemma AddKeeps(table: seq<Entry>, kind: byte, flags: byte, name: Block, alias: byte, k: byte, n: Block)
    requires In(table, k, n) || (k == kind && n == name && !Full(table))
    ensures In(Add(table, kind, flags, name, alias), k, n)
  {
    var after := Add(table, kind, flags, name, alias);
    if In(table, k, n) {
      assert Holds(after[IndexOf(table, k, n)], k, n);
    } else {
      assert Holds(after[IndexOfFree(table)], k, n);
    }
  }

  // ----- Room -----

  function Actives(table: seq<Entry>): (n: nat)
    ensures n <= |table|
  {
    if table == [] then 0 else Actives(table[1..]) + if table[0].active then 1 else 0
  }

  lemma {:induction false} FullIsFull(table: seq<Entry>)
    ensures Full(table) ==> Actives(table) == |table|
  {
    if table != [] {
      FullIsFull(table[1..]);
    }
  }

  lemma {:induction false} UpdateActives(table: seq<Entry>, i: nat, e: Entry)
    requires i < |table|
    ensures Actives(table[i := e]) + (if table[i].active then 1 else 0) == Actives(table) + if e.active then 1 else 0
  {
    if i == 0 {
      assert table[i := e][1..] == table[1..];
    } else {
      UpdateActives(table[1..], i - 1, e);
      assert table[i := e][1..] == table[1..][i - 1 := e];
    }
  }

  lemma AddActives(table: seq<Entry>, kind: byte, flags: byte, name: Block, alias: byte)
    ensures Actives(Add(table, kind, flags, name, alias)) <= Actives(table) + 1
  {
    var i, f := IndexOf(table, kind, name), IndexOfFree(table);
    if i < |table| {
      UpdateActives(table, i, table[i].(alias := alias, track := table[i].track.(flags := flags)));
    } else if f < |table| {
      UpdateActives(table, f, Entry(TrackId(kind, flags, name), alias, true));
    }
  }

  lemma {:induction false} EmptyActives(n: nat)
    requires n <= SUBSCRIPTIONS
    ensures Actives(Empty()[n..]) == 0
    decreases SUBSCRIPTIONS - n
  {
    if n < SUBSCRIPTIONS {
      EmptyActives(n + 1);
      assert Empty()[n..][1..] == Empty()[n + 1..];
    }
  }

  // ----- A new track at one end -----

  lemma FoundIsNumbered(table: seq<Entry>, names: seq<Key>, track: TrackId)
    requires Lists(table, names) && ValidTrack(track) && FindByTrack(table, track).Some?
    ensures Numbered(Entry(track, FindByTrack(table, track).value, true), names)
  {
    if track.name != [] {
      assert Numbered(table[IndexOf(table, track.kind, track.name)], names);
    }
  }

  lemma NewIsUnlisted(near: seq<Entry>, names: seq<Key>, track: TrackId)
    requires Lists(near, names) && FindByTrack(near, track).None?
    ensures track.name != [] && Distinct(names + [(track.kind, track.name)])
  {
    forall j | 0 <= j < |names|
      ensures names[j] != (track.kind, track.name)
    {
      assert In(near, names[j].0, names[j].1);
    }
  }

  ghost function NameSet(names: seq<Key>, n: nat): (r: set<Key>)
    requires n <= |names|
  {
    set j | 0 <= j < n :: names[j]
  }

  lemma {:induction false} NamesSize(names: seq<Key>, n: nat)
    requires Distinct(names) && n <= |names|
    ensures |NameSet(names, n)| == n
  {
    if n == 0 {
      assert NameSet(names, 0) == {};
    } else {
      NamesSize(names, n - 1);
      assert NameSet(names, n) == NameSet(names, n - 1) + {names[n - 1]};
    }
  }

  /** A table has no more named tracks than entries. */
  lemma ListsBound(table: seq<Entry>, names: seq<Key>)
    requires Lists(table, names)
    ensures |names| <= SUBSCRIPTIONS
  {
    NamesSize(names, |names|);
    KeysSize(table, |table|);
    forall j | 0 <= j < |names|
      ensures names[j] in Keys(table, |table|)
    {
      assert In(table, names[j].0, names[j].1);
      var i := IndexOf(table, names[j].0, names[j].1);
      assert (table[i].track.kind, table[i].track.name) == names[j];
    }
    SubsetSize(NameSet(names, |names|), Keys(table, |table|));
  }

  /** The entry a subscription makes at an end that knows the first `known` tracks. */
  function Entered(table: seq<Entry>, track: TrackId): (after: seq<Entry>)
  {
    Add(table, track.kind, track.flags, track.name, U8(NextAlias(table)))
  }

  lemma EnteredIs(table: seq<Entry>, names: seq<Key>, track: TrackId)
    requires Lists(table, names)
    ensures U8(NextAlias(table)) == 8 + |names| < 256
  {
    ListsBound(table, names);
    ListedNext(table, names);
  }

  lemma EnteredLists(table: seq<Entry>, names: seq<Key>, track: TrackId)
    requires Lists(table, names) && FindByTrack(table, track).None? && !Full(table)
    ensures Lists(Entered(table, track), names + [(track.kind, track.name)])
  {
    EnteredIs(table, names, track);
    NewIsUnlisted(table, names, track);
    AddLists(table, names, names + [(track.kind, track.name)], track.kind, track.flags, track.name, 8 + |names|);
  }

  /** Some alias means one track at one end and another track at the other. */
  ghost predicate Clash(a: seq<Entry>, b: seq<Entry>) {
    exists alias: byte :: Differs(a, b, alias)
  }

  predicate Differs(a: seq<Entry>, b: seq<Entry>, alias: byte) {
    && FindByAlias(a, alias).Some? && FindByAlias(b, alias).Some?
    && !SameTrack(FindByAlias(a, alias).value, FindByAlias(b, alias).value)
  }

  lemma AliasIsNumbered(table: seq<Entry>, names: seq<Key>, alias: byte)
    requires Lists(table, names) && alias >= FIRST_NAMED_ALIAS && FindByAlias(table, alias).Some?
    ensures alias - 8 < |names|
    ensures var t := FindByAlias(table, alias).value; (t.kind, t.name) == names[alias - 8]
  {
    assert Numbered(table[IndexOfAlias(table, alias)], names);
  }

  /** Tables that number their tracks by the same list do not clash. */
  lemma SameListNoClash(a: seq<Entry>, b: seq<Entry>, names: seq<Key>, ka: nat, kb: nat)
    requires ka <= |names| && kb <= |names| && Lists(a, names[..ka]) && Lists(b, names[..kb])
    ensures !Clash(a, b)
  {
    if alias: byte :| Differs(a, b, alias) {
      if alias >= FIRST_NAMED_ALIAS {
        AliasIsNumbered(a, names[..ka], alias);
        AliasIsNumbered(b, names[..kb], alias);
      }
    }
  }

  lemma ClashIsSymmetric(a: seq<Entry>, b: seq<Entry>)
    ensures Clash(a, b) <==> Clash(b, a)
  {
    if alias: byte :| Differs(a, b, alias) {
      assert Differs(b, a, alias);
    }
    if alias: byte :| Differs(b, a, alias) {
      assert Differs(a, b, alias);
    }
  }

  /** One subscription to a new track, at an end that knows the first ka of the tracks numbered so far while the other
      knows the first kb: it makes an alias mean two tracks if and only if the end is behind and asks for another track
      than the one numbered next. */
  lemma SubscribeClashIff(a: seq<Entry>, b: seq<Entry>, names: seq<Key>, ka: nat, kb: nat, track: TrackId)
    requires ka <= |names| && kb <= |names| && (ka == |names| || kb == |names|)
    requires Lists(a, names[..ka]) && Lists(b, names[..kb]) && FindByTrack(a, track).None? && !Full(a)
    ensures Clash(Entered(a, track), b) <==> ka < |names| && names[ka] != (track.kind, track.name)
  {
    EnteredLists(a, names[..ka], track);
    if ka < |names| && names[ka] != (track.kind, track.name) {
      assert names[..kb] == names;
      OtherNameClashes(Entered(a, track), b, names[..ka] + [(track.kind, track.name)], names, ka);
    } else {
      NextNameNoClash(Entered(a, track), b, names, ka, kb, (track.kind, track.name));
    }
  }

  lemma NextNameNoClash(a: seq<Entry>, b: seq<Entry>, names: seq<Key>, ka: nat, kb: nat, key: Key)
    requires ka <= |names| && kb <= |names| && (ka < |names| ==> names[ka] == key)
    requires Lists(a, names[..ka] + [key]) && Lists(b, names[..kb])
    ensures !Clash(a, b)
  {
    var all := if ka < |names| then names else names + [key];
    assert all[..ka + 1] == names[..ka] + [key];
    assert all[..kb] == names[..kb];
    SameListNoClash(a, b, all, ka + 1, kb);
  }

  lemma OtherNameClashes(a: seq<Entry>, b: seq<Entry>, xs: seq<Key>, ys: seq<Key>, j: nat)
    requires Lists(a, xs) && Lists(b, ys) && j < |xs| && j < |ys| && xs[j] != ys[j]
    ensures Clash(a, b)
  {
    ListsBound(a, xs);
    ListedAlias(a, xs, j);
    ListedAlias(b, ys, j);
    assert Differs(a, b, 8 + j);
  }

  // ----- Both ends, at any time -----

  /** One end: its table, the SUBSCRIBE messages on their way to it, and, as history, how many of the tracks numbered so
      far it has asked for or been told about. */
  datatype Side = Side(table: seq<Entry>, inbox: seq<Request>, known: nat)

  /** `names` are the named tracks in the order in which they were first asked for. */
  datatype State = State(server: Side, client: Side, names: seq<Key>)

  datatype Act = Ask(byServer: bool, track: TrackId) | Take(byServer: bool)

  function Self(s: State, byServer: bool): (x: Side) { if byServer then s.server else s.client }

  function With(s: State, byServer: bool, self: Side, other: Side): (s': State)
  {
    if byServer then s.(server := self, client := other) else s.(server := other, client := self)
  }

  predicate IsNew(x: Side, track: TrackId) { FindByTrack(x.table, track).None? }

  /** A subscription at one end, and the handling of the oldest message at one end; nothing if there is none. */
  function Next(s: State, act: Act): (s': State)
  {
    var self, other := Self(s, act.byServer), Self(s, !act.byServer);
    match act
    case Ask(_, track) =>
      var k := Aliases.Step(Link(self.table, other.table, other.inbox), Aliases.Subscribe(track));
      var isNew := IsNew(self, track);
      With(s, act.byServer, self.(table := k.near, known := if isNew then self.known + 1 else self.known),
           other.(inbox := k.flight)).(
        names := if isNew && self.known >= |s.names| then s.names + [(track.kind, track.name)] else s.names)
    case Take(_) =>
      if self.inbox == [] then s
      else
        var k := Aliases.Step(Link(other.table, self.table, self.inbox), Aliases.Deliver);
        With(s, act.byServer, Side(k.far, k.flight, After(self.known, self.inbox[0])), other)
  }

  function After(known: nat, r: Request): (n: nat)
  {
    if r.name != [] && r.alias - 8 == known then known + 1 else known
  }

  function Replay(acts: seq<Act>): (s: State)
  {
    if acts == [] then State(Side(Empty(), [], 0), Side(Empty(), [], 0), [])
    else Next(Replay(acts[..|acts| - 1]), acts[|acts| - 1])
  }

  /** A subscription to a new track is made by an end that is not behind, or is for the track numbered next. */
  predicate InOrder(s: State, act: Act) {
    act.Ask? && IsNew(Self(s, act.byServer), act.track) ==>
      var known := Self(s, act.byServer).known;
      known >= |s.names| || s.names[known] == (act.track.kind, act.track.name)
  }

  /** The table has room for what the act enters. */
  predicate HasRoom(s: State, act: Act) {
    var self := Self(s, act.byServer);
    match act
    case Ask(_, track) => IsNew(self, track) ==> !Full(self.table)
    case Take(_) => self.inbox != [] ==> In(self.table, self.inbox[0].kind, self.inbox[0].name) || !Full(self.table)
  }

  /** Every act is in order. */
  predicate Orderly(acts: seq<Act>)
  {
    acts == [] || (Orderly(acts[..|acts| - 1]) && InOrder(Replay(acts[..|acts| - 1]), acts[|acts| - 1]))
  }

  /** Every subscription is for a track that exists, and no table overflows. */
  predicate Fitting(acts: seq<Act>)
  {
    acts == [] ||
    var n := |acts| - 1;
    Fitting(acts[..n]) && HasRoom(Replay(acts[..n]), acts[n]) && (acts[n].Ask? ==> ValidTrack(acts[n].track))
  }

  // ----- What orderly subscriptions keep -----

  function EntryOf(r: Request): (e: Entry) { Entry(TrackId(r.kind, r.flags, r.name), r.alias, true) }

  /** An end that takes these messages in order misses no number, and knows at least the first `limit` tracks then. */
  predicate Follows(known: nat, limit: nat, inbox: seq<Request>)
    decreases |inbox|
  {
    if inbox == [] then known >= limit
    else (inbox[0].name != [] ==> inbox[0].alias - 8 <= known) && Follows(After(known, inbox[0]), limit, inbox[1..])
  }

  /** One end, while the other knows the first `told` tracks. */
  ghost predicate SideOk(x: Side, told: nat, names: seq<Key>) {
    && x.known <= |names| && told <= |names| && Lists(x.table, names[..x.known]) && Follows(x.known, told, x.inbox)
    && forall p :: 0 <= p < |x.inbox| ==> Numbered(EntryOf(x.inbox[p]), names[..told])
  }

  ghost predicate Ok(s: State) {
    && SideOk(s.server, s.client.known, s.names) && SideOk(s.client, s.server.known, s.names)
    && (s.server.known == |s.names| || s.client.known == |s.names|) && Distinct(s.names)
  }

  lemma {:induction false} FollowsFrom(known: nat, more: nat, limit: nat, less: nat, inbox: seq<Request>)
    requires Follows(known, limit, inbox) && known <= more && (less <= limit || less <= more)
    ensures Follows(more, less, inbox)
    decreases |inbox|
  {
    if inbox != [] {
      FollowsFrom(After(known, inbox[0]), After(more, inbox[0]), limit, less, inbox[1..]);
    }
  }

  lemma {:induction false} FollowsMore(known: nat, limit: nat, inbox: seq<Request>, r: Request, more: nat)
    requires Follows(known, limit, inbox) && (r.name != [] ==> r.alias - 8 <= limit)
    requires limit <= more && (more > limit ==> r.name != [] && r.alias - 8 == limit && more == limit + 1)
    ensures Follows(known, more, inbox + [r])
    decreases |inbox|
  {
    if inbox == [] {
      assert (inbox + [r])[1..] == [];
    } else {
      FollowsMore(After(known, inbox[0]), limit, inbox[1..], r, more);
      assert (inbox + [r])[1..] == inbox[1..] + [r];
    }
  }

  lemma NumberedLonger(e: Entry, names: seq<Key>, longer: seq<Key>)
    requires Numbered(e, names) && names <= longer
    ensures Numbered(e, longer)
  {}

  /** The end that is told about one more message. */
  lemma Told(x: Side, told: nat, names: seq<Key>, longer: seq<Key>, more: nat, r: Request)
    requires SideOk(x, told, names) && names <= longer && told <= more <= |longer|
    requires Numbered(EntryOf(r), longer[..more]) && (r.name != [] ==> r.alias - 8 <= told)
    requires more > told ==> r.name != [] && r.alias - 8 == told && more == told + 1
    ensures SideOk(x.(inbox := x.inbox + [r]), more, longer)
  {
    FollowsMore(x.known, told, x.inbox, r, more);
    assert longer[..x.known] == names[..x.known];
    forall p | 0 <= p < |x.inbox + [r]|
      ensures Numbered(EntryOf((x.inbox + [r])[p]), longer[..more])
    {
      if p < |x.inbox| {
        assert names[..told] <= longer[..more];
        NumberedLonger(EntryOf(x.inbox[p]), names[..told], longer[..more]);
      }
    }
  }

  /** The end that enters a new track. */
  lemma Knows(x: Side, told: nat, names: seq<Key>, longer: seq<Key>, table: seq<Entry>)
    requires SideOk(x, told, names) && names <= longer && x.known < |longer| && Lists(table, longer[..x.known + 1])
    ensures SideOk(x.(table := table, known := x.known + 1), told, longer)
  {
    FollowsFrom(x.known, x.known + 1, told, told, x.inbox);
    assert longer[..told] == names[..told];
  }

  /** A subscription to a track the end knows. */
  lemma AskKnownOk(self: Side, other: Side, names: seq<Key>, track: TrackId)
    requires SideOk(self, other.known, names) && SideOk(other, self.known, names)
    requires ValidTrack(track) && !IsNew(self, track)
    ensures var r := Request(FindByTrack(self.table, track).value, track.kind, track.flags, track.name);
            SideOk(other.(inbox := other.inbox + [r]), self.known, names)
  {
    FoundIsNumbered(self.table, names[..self.known], track);
    var r := Request(FindByTrack(self.table, track).value, track.kind, track.flags, track.name);
    Told(other, self.known, names, names, self.known, r);
  }

  function NewRequest(self: Side, track: TrackId): (r: Request)
  {
    Request(U8(NextAlias(self.table)), track.kind, track.flags, track.name)
  }

  /** A subscription to a new track, in order; `longer` is the list that has it behind the first self.known. */
  lemma AskNewOk(self: Side, other: Side, names: seq<Key>, longer: seq<Key>, track: TrackId)
    requires SideOk(self, other.known, names) && SideOk(other, self.known, names)
    requires IsNew(self, track) && !Full(self.table)
    requires names <= longer && self.known < |longer|
    requires longer[..self.known + 1] == names[..self.known] + [(track.kind, track.name)]
    ensures SideOk(self.(table := Entered(self.table, track), known := self.known + 1), other.known, longer)
    ensures SideOk(other.(inbox := other.inbox + [NewRequest(self, track)]), self.known + 1, longer)
  {
    EnteredIs(self.table, names[..self.known], track);
    EnteredLists(self.table, names[..self.known], track);
    Knows(self, other.known, names, longer, Entered(self.table, track));
    var r := NewRequest(self, track);
    assert Numbered(EntryOf(r), longer[..self.known + 1]) by {
      NewIsUnlisted(self.table, names[..self.known], track);
    }
    Told(other, self.known, names, longer, self.known + 1, r);
  }

  lemma LongerIs(self: Side, names: seq<Key>, track: TrackId) returns (longer: seq<Key>)
    requires self.known <= |names| && Lists(self.table, names[..self.known]) && Distinct(names) && IsNew(self, track)
    requires self.known == |names| || names[self.known] == (track.kind, track.name)
    ensures longer == if self.known == |names| then names + [(track.kind, track.name)] else names
    ensures names <= longer && self.known < |longer| && (longer == names || self.known + 1 == |longer|)
    ensures longer[..self.known + 1] == names[..self.known] + [(track.kind, track.name)] && Distinct(longer)
  {
    longer := if self.known == |names| then names + [(track.kind, track.name)] else names;
    assert names[..|names|] == names;
    NewIsUnlisted(self.table, names[..self.known], track);
  }

  lemma AskOk(s: State, act: Act)
    requires Ok(s) && act.Ask? && ValidTrack(act.track) && InOrder(s, act) && HasRoom(s, act)
    ensures Ok(Next(s, act))
  {
    if IsNew(Self(s, act.byServer), act.track) {
      AskedNewOk(s, act);
    } else {
      AskKnownOk(Self(s, act.byServer), Self(s, !act.byServer), s.names, act.track);
    }
  }

  lemma AskedNewOk(s: State, act: Act)
    requires Ok(s) && act.Ask? && ValidTrack(act.track) && InOrder(s, act) && HasRoom(s, act)
    requires IsNew(Self(s, act.byServer), act.track)
    ensures Ok(Next(s, act))
  {
    var self, other := Self(s, act.byServer), Self(s, !act.byServer);
    OkIs(s, act.byServer);
    var longer := AskNewSides(self, other, s.names, act.track);
    NextIsNew(s, act);
    SidesOk(s, act.byServer, self.(table := Entered(self.table, act.track), known := self.known + 1),
            other.(inbox := other.inbox + [NewRequest(self, act.track)]), longer);
  }

  lemma OkIs(s: State, byServer: bool)
    requires Ok(s)
    ensures var self, other := Self(s, byServer), Self(s, !byServer);
            && SideOk(self, other.known, s.names) && SideOk(other, self.known, s.names) && Distinct(s.names)
            && (self.known == |s.names| || other.known == |s.names|)
  {}

  lemma AskNewSides(self: Side, other: Side, names: seq<Key>, track: TrackId) returns (longer: seq<Key>)
    requires SideOk(self, other.known, names) && SideOk(other, self.known, names) && Distinct(names)
    requires IsNew(self, track) && !Full(self.table) && (self.known == |names| || other.known == |names|)
    requires self.known == |names| || names[self.known] == (track.kind, track.name)
    ensures longer == if self.known == |names| then names + [(track.kind, track.name)] else names
    ensures SideOk(self.(table := Entered(self.table, track), known := self.known + 1), other.known, longer)
    ensures SideOk(other.(inbox := other.inbox + [NewRequest(self, track)]), self.known + 1, longer)
    ensures Distinct(longer) && (self.known + 1 == |longer| || other.known == |longer|)
  {
    longer := LongerIs(self, names, track);
    AskNewOk(self, other, names, longer, track);
  }

  lemma SidesOk(s: State, byServer: bool, self: Side, other: Side, names: seq<Key>)
    requires SideOk(self, other.known, names) && SideOk(other, self.known, names) && Distinct(names)
    requires self.known == |names| || other.known == |names|
    ensures Ok(With(s, byServer, self, other).(names := names))
  {}

  lemma NextIsNew(s: State, act: Act)
    requires act.Ask? && IsNew(Self(s, act.byServer), act.track)
    ensures var self, other, track := Self(s, act.byServer), Self(s, !act.byServer), act.track;
            Next(s, act) == With(s, act.byServer, self.(table := Entered(self.table, track), known := self.known + 1),
                                 other.(inbox := other.inbox + [NewRequest(self, track)])).(
              names := if self.known >= |s.names| then s.names + [(track.kind, track.name)] else s.names)
  {}

  /** A message taken. */
  lemma TakeSideOk(self: Side, other: Side, names: seq<Key>)
    requires SideOk(self, other.known, names) && SideOk(other, self.known, names) && Distinct(names)
    requires self.inbox != [] && (In(self.table, self.inbox[0].kind, self.inbox[0].name) || !Full(self.table))
    ensures var r := self.inbox[0];
            var n := After(self.known, r);
            && SideOk(Side(Add(self.table, r.kind, r.flags, r.name, r.alias), self.inbox[1..], n), other.known, names)
            && SideOk(other, n, names) && (n > self.known ==> n <= other.known)
  {
    var r := self.inbox[0];
    var n := After(self.known, r);
    assert Numbered(EntryOf(r), names[..other.known]);
    NumberedLonger(EntryOf(r), names[..other.known], names);
    DeliverLists(self.table, names, self.known, r);
    FollowsFrom(other.known, other.known, self.known, n, other.inbox);
    forall p | 0 <= p < |other.inbox|
      ensures Numbered(EntryOf(other.inbox[p]), names[..n])
    {
      assert names[..self.known] <= names[..n];
      NumberedLonger(EntryOf(other.inbox[p]), names[..self.known], names[..n]);
    }
  }

  lemma DeliverLists(far: seq<Entry>, names: seq<Key>, known: nat, r: Request)
    requires known <= After(known, r) <= |names| && Distinct(names) && Lists(far, names[..known])
    requires Numbered(EntryOf(r), names) && (r.name != [] ==> r.alias - 8 <= known)
    requires In(far, r.kind, r.name) || !Full(far)
    ensures Lists(Add(far, r.kind, r.flags, r.name, r.alias), names[..After(known, r)])
  {
    var n := After(known, r);
    assert n == known + 1 ==> names[..n] == names[..known] + [names[known]];
    AddLists(far, names[..known], names[..n], r.kind, r.flags, r.name, r.alias);
  }

  lemma TakeOk(s: State, act: Act)
    requires Ok(s) && act.Take? && HasRoom(s, act)
    ensures Ok(Next(s, act))
  {
    var self, other := Self(s, act.byServer), Self(s, !act.byServer);
    if self.inbox != [] {
      TakeSideOk(self, other, s.names);
    }
  }

  lemma {:induction false} OrderlyOk(acts: seq<Act>)
    requires Fitting(acts) && Orderly(acts)
    ensures Ok(Replay(acts))
  {
    if acts != [] {
      var n := |acts| - 1;
      OrderlyOk(acts[..n]);
      match acts[n]
      case Ask(_, _) => AskOk(Replay(acts[..n]), acts[n]);
      case Take(_) => TakeOk(Replay(acts[..n]), acts[n]);
    }
  }

  // ----- Exactly when no alias ever means two tracks -----

  ghost predicate Clashes(s: State) { Clash(s.server.table, s.client.table) }

  /** No alias means two tracks, now or at any earlier moment. */
  ghost predicate NeverClash(acts: seq<Act>)
  {
    !Clashes(Replay(acts)) && (acts == [] || NeverClash(acts[..|acts| - 1]))
  }

  lemma OkNoClash(s: State)
    requires Ok(s)
    ensures !Clashes(s)
  {
    SameListNoClash(s.server.table, s.client.table, s.names, s.server.known, s.client.known);
  }

  /** The first subscription out of order makes an alias mean two tracks at once. */
  lemma OutOfOrderClashes(s: State, act: Act)
    requires Ok(s) && HasRoom(s, act) && !InOrder(s, act)
    ensures Clashes(Next(s, act))
  {
    var self, other := Self(s, act.byServer), Self(s, !act.byServer);
    SubscribeClashIff(self.table, other.table, s.names, self.known, other.known, act.track);
    ClashIsSymmetric(Entered(self.table, act.track), other.table);
  }

  /** Both ends subscribing and taking messages in any order, as long as no table overflows: no alias ever means one
      track at one end and another at the other if and only if every subscription to a new track is made by an end
      that is not behind, or is for the track numbered next. */
  lemma {:induction false} NeverClashIff(acts: seq<Act>)
    requires Fitting(acts)
    ensures NeverClash(acts) <==> Orderly(acts)
  {
    if acts != [] {
      NeverClashIff(acts[..|acts| - 1]);
    }
    if Orderly(acts) {
      OrderlyOk(acts);
      OkNoClash(Replay(acts));
    } else if Orderly(acts[..|acts| - 1]) {
      OrderlyOk(acts[..|acts| - 1]);
      OutOfOrderClashes(Replay(acts[..|acts| - 1]), acts[|acts| - 1]);
    }
  }

  // ----- What the two ends then agree on -----

  /** The two ends agree on this track: same alias, and each resolves it to the track. */
  ghost predicate Shared(a: seq<Entry>, b: seq<Entry>, t: TrackId) {
    && FindByTrack(a, t).Some? && FindByTrack(b, t) == FindByTrack(a, t)
    && var alias := FindByTrack(a, t).value;
       && FindByAlias(a, alias).Some? && SameTrack(FindByAlias(a, alias).value, t)
       && FindByAlias(b, alias).Some? && SameTrack(FindByAlias(b, alias).value, t)
  }

  lemma ListedIsShared(a: seq<Entry>, b: seq<Entry>, names: seq<Key>, known: nat, t: TrackId)
    requires known <= |names| && Lists(a, names[..known]) && Lists(b, names) && ValidTrack(t)
    requires FindByTrack(a, t).Some?
    ensures Shared(a, b, t)
  {
    if t.name != [] {
      ListsBound(b, names);
      FoundIsNumbered(a, names[..known], t);
      var j := FindByTrack(a, t).value - 8;
      assert names[..known][j] == names[j];
      NumberedIsShared(a, b, names[..known], names, j, t);
    }
  }

  lemma NumberedIsShared(a: seq<Entry>, b: seq<Entry>, fewer: seq<Key>, names: seq<Key>, j: nat, t: TrackId)
    requires Lists(a, fewer) && Lists(b, names) && |names| <= SUBSCRIPTIONS && j < |fewer| && j < |names|
    requires t.name != [] && fewer[j] == names[j] == (t.kind, t.name) && FindByTrack(a, t) == Some(8 + j)
    ensures Shared(a, b, t)
  {
    ListedTrack(b, names, j);
    ListedAlias(a, fewer, j);
    ListedAlias(b, names, j);
  }

  /** A track known at the end that knows less is known at both under one alias. */
  lemma SharedWhenKnown(a: Side, b: Side, names: seq<Key>, t: TrackId)
    requires SideOk(a, b.known, names) && SideOk(b, a.known, names) && a.known <= b.known
    requires ValidTrack(t) && FindByTrack(a.table, t).Some?
    ensures Shared(a.table, b.table, t) && Shared(b.table, a.table, t)
  {
    assert names[..b.known][..a.known] == names[..a.known];
    ListedIsShared(a.table, b.table, names[..b.known], a.known, t);
  }

  /** At every moment of orderly subscriptions, a track that both ends know has one alias at both, which both resolve to
      it, unnamed tracks included; and with no message on its way this goes for every track that either end knows. */
  lemma TwoWayAgreement(acts: seq<Act>, t: TrackId)
    requires Fitting(acts) && Orderly(acts) && ValidTrack(t)
    ensures var s := Replay(acts);
            var a, b := s.server.table, s.client.table;
            && (FindByTrack(a, t).Some? && FindByTrack(b, t).Some? ==> Shared(a, b, t) && Shared(b, a, t))
            && (s.server.inbox == s.client.inbox == [] && (FindByTrack(a, t).Some? || FindByTrack(b, t).Some?) ==>
                  Shared(a, b, t) && Shared(b, a, t))
  {
    OrderlyOk(acts);
    var s := Replay(acts);
    if s.server.known <= s.client.known && FindByTrack(s.server.table, t).Some? {
      SharedWhenKnown(s.server, s.client, s.names, t);
    }
    if s.client.known <= s.server.known && FindByTrack(s.client.table, t).Some? {
      SharedWhenKnown(s.client, s.server, s.names, t);
    }
  }

  lemma AliasFindsTrack(table: seq<Entry>, names: seq<Key>, alias: byte)
    requires Lists(table, names) && FindByAlias(table, alias).Some?
    ensures FindByTrack(table, FindByAlias(table, alias).value) == Some(alias)
  {
    if alias >= FIRST_NAMED_ALIAS {
      var e := table[IndexOfAlias(table, alias)];
      assert Numbered(e, names);
      ListedTrack(table, names, alias - 8);
    }
  }

  lemma ListedIsBijective(table: seq<Entry>, names: seq<Key>)
    requires Lists(table, names)
    ensures Bijective(table)
  {
    forall a: byte | FindByAlias(table, a).Some?
      ensures FindByTrack(table, FindByAlias(table, a).value) == Some(a)
    {
      AliasFindsTrack(table, names, a);
    }
    forall t: TrackId | ValidTrack(t) && FindByTrack(table, t).Some?
      ensures Shared(table, table, t)
    {
      assert names[..|names|] == names;
      ListedIsShared(table, table, names, |names|, t);
    }
  }

  /** So, when nothing is on its way, either end may publish to the other under the assumptions of the object
      protocol. */
  lemma EitherEndMayPublish(acts: seq<Act>, code: Code)
    requires Fitting(acts) && Orderly(acts) && Lawful(code)
    requires Replay(acts).server.inbox == Replay(acts).client.inbox == []
    ensures var s := Replay(acts);
            && Sane(Config(code, s.server.table, s.client.table)) && Sane(Config(code, s.client.table, s.server.table))
  {
    OrderlyOk(acts);
    var s := Replay(acts);
    ListedIsBijective(s.server.table, s.names[..s.server.known]);
    ListedIsBijective(s.client.table, s.names[..s.client.known]);
    forall t: TrackId | ValidTrack(t)
      ensures FindByTrack(s.server.table, t).Some? ==> Shared(s.server.table, s.client.table, t)
      ensures FindByTrack(s.client.table, t).Some? ==> Shared(s.client.table, s.server.table, t)
    {
      TwoWayAgreement(acts, t);
    }
  }

  // ----- The daemons -----

  predicate ByClient(act: Act) { act.Ask? && !act.byServer }

  /** The server subscribes before it replies; the client when it has the reply, and so every message sent before it. */
  predicate DaemonOrder(acts: seq<Act>)
  {
    acts == [] ||
    var n := |acts| - 1;
    && DaemonOrder(acts[..n])
    && (ByClient(acts[n]) ==> Replay(acts[..n]).client.inbox == [])
    && (acts[n].Ask? && acts[n].byServer ==> forall m :: 0 <= m < n ==> !ByClient(acts[m]))
  }

  /** Only the client's subscriptions reach the server. */
  lemma {:induction false} ServerHearsClient(acts: seq<Act>)
    requires forall n :: 0 <= n < |acts| ==> !ByClient(acts[n])
    ensures Replay(acts).server.inbox == []
  {
    if acts != [] {
      ServerHearsClient(acts[..|acts| - 1]);
    }
  }

  lemma {:induction false} DaemonsAreOrderly(acts: seq<Act>)
    requires Fitting(acts) && DaemonOrder(acts)
    ensures Orderly(acts)
  {
    if acts != [] {
      var n := |acts| - 1;
      DaemonsAreOrderly(acts[..n]);
      OrderlyOk(acts[..n]);
      if acts[n].Ask? && acts[n].byServer {
        ServerHearsClient(acts[..n]);
      }
    }
  }

  function Asks(acts: seq<Act>): (n: nat)
  {
    if acts == [] then 0 else Asks(acts[..|acts| - 1]) + if acts[|acts| - 1].Ask? then 1 else 0
  }

  /** An end has at most as many entries, those on their way included, as there were subscriptions. */
  lemma {:induction false} EntriesBounded(acts: seq<Act>)
    ensures var s := Replay(acts);
            && Actives(s.server.table) + |s.server.inbox| <= Asks(acts)
            && Actives(s.client.table) + |s.client.inbox| <= Asks(acts)
            && |s.server.table| == |s.client.table| == SUBSCRIPTIONS
  {
    if acts == [] {
      EmptyActives(0);
      assert Empty()[0..] == Empty();
    } else {
      var n := |acts| - 1;
      EntriesBounded(acts[..n]);
      var s, act := Replay(acts[..n]), acts[n];
      var self := Self(s, act.byServer);
      if act.Ask? {
        AddActives(self.table, act.track.kind, act.track.flags, act.track.name, U8(NextAlias(self.table)));
      } else if self.inbox != [] {
        var r := self.inbox[0];
        AddActives(self.table, r.kind, r.flags, r.name, r.alias);
      }
    }
  }

  /** With at most 32 subscriptions in all, and each daemon makes at most 16, no table overflows. */
  lemma {:induction false} FewFit(acts: seq<Act>)
    requires Asks(acts) <= SUBSCRIPTIONS && forall n :: 0 <= n < |acts| && acts[n].Ask? ==> ValidTrack(acts[n].track)
    ensures Fitting(acts)
  {
    if acts != [] {
      var n := |acts| - 1;
      FewFit(acts[..n]);
      EntriesBounded(acts[..n]);
      FullIsFull(Self(Replay(acts[..n]), acts[n].byServer).table);
    }
  }

  /** Two daemons never come to mean two tracks by one alias. */
  lemma DaemonsNeverClash(acts: seq<Act>)
    requires Asks(acts) <= SUBSCRIPTIONS && forall n :: 0 <= n < |acts| && acts[n].Ask? ==> ValidTrack(acts[n].track)
    requires DaemonOrder(acts)
    ensures Fitting(acts) && Orderly(acts) && NeverClash(acts)
  {
    FewFit(acts);
    DaemonsAreOrderly(acts);
    NeverClashIff(acts);
  }

  // ----- Without that order -----

  /** A table with two entries. */
  function Pair(x: TrackId, y: TrackId, alias: byte): (table: seq<Entry>)
  {
    Empty()[0 := Entry(x, alias, true)][1 := Entry(y, alias, true)]
  }

  lemma FirstInEmpty(x: TrackId)
    requires x.name != []
    ensures Aliases.Step(Link(Empty(), Empty(), []), Aliases.Subscribe(x))
            == Link(Empty()[0 := Entry(x, 8, true)], Empty(), [Request(8, x.kind, x.flags, x.name)])
  {
    IndexIs(Empty(), x.kind, x.name, SUBSCRIPTIONS);
    FreeIs(Empty(), 0);
    NextAliasIs(Empty(), 8);
    assert [] + [Request(8, x.kind, x.flags, x.name)] == [Request(8, x.kind, x.flags, x.name)];
  }

  lemma SecondIsAdded(x: TrackId, y: TrackId)
    requires x.name != [] && y.name != [] && !SameTrack(x, y)
    ensures Add(Empty()[0 := Entry(x, 8, true)], y.kind, y.flags, y.name, 8) == Pair(x, y, 8)
  {
    var table := Empty()[0 := Entry(x, 8, true)];
    IndexIs(table, y.kind, y.name, SUBSCRIPTIONS);
    FreeIs(table, 1);
  }

  /** If both ends subscribe before either has heard from the other, both choose alias 8. At each end that alias then
      stands for the end's own track, although it is also the one recorded for the other's; and a NACK for an object of
      the other's track is not answered. */
  lemma CrossedSubscriptionsCollide(x: TrackId, y: TrackId, code: Code, ring: seq<Option<Cached>>,
                                    groupId: nat, objectId: nat, missing: seq<nat>, times: seq<u64>)
    requires x.name != [] && y.name != [] && !SameTrack(x, y)
    requires RingShape(code, ring) && |times| == |missing|
    requires forall i :: 0 <= i < |ring| && ring[i].Some? ==> SameTrack(ring[i].value.track, y)
    ensures var none := Link(Empty(), Empty(), []);
            var a, b := Aliases.Step(none, Aliases.Subscribe(x)), Aliases.Step(none, Aliases.Subscribe(y));
            var server := Aliases.Step(Link(b.near, a.near, b.flight), Aliases.Deliver).far;
            && FindByTrack(server, y) == Some(8)
            && FindByAlias(server, 8) == Some(x) && !Bijective(server)
            && HandleNack(code, ring, server, 8, groupId, objectId, missing, times) == []
  {
    FirstInEmpty(x);
    FirstInEmpty(y);
    SecondIsAdded(x, y);
    PairCollides(x, y, code, ring, groupId, objectId, missing, times);
  }

  lemma PairCollides(x: TrackId, y: TrackId, code: Code, ring: seq<Option<Cached>>,
                     groupId: nat, objectId: nat, missing: seq<nat>, times: seq<u64>)
    requires x.name != [] && y.name != [] && !SameTrack(x, y)
    requires RingShape(code, ring) && |times| == |missing|
    requires forall i :: 0 <= i < |ring| && ring[i].Some? ==> SameTrack(ring[i].value.track, y)
    ensures var server := Pair(x, y, 8);
            && FindByTrack(server, y) == Some(8)
            && FindByAlias(server, 8) == Some(x) && !Bijective(server)
            && HandleNack(code, ring, server, 8, groupId, objectId, missing, times) == []
  {
    var server := Pair(x, y, 8);
    IndexIs(server, y.kind, y.name, 1);
    AliasIs(server, 8, 0);
    assert !Agreed(server, server) by { assert ValidTrack(y); }
  }
}
