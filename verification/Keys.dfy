/** How objects are told apart. The receiver and the NACK path know an object by its track, group and object id. A
    daemon numbers packets with one counter and grouped objects with another, so a key can be used twice; and a DATA
    object that no peer got is remembered all the same. This says when that does harm. */
module Keys {
  import opened Bytes
  import opened ErasureCode
  import opened Tracks
  import opened Wire
  import opened Sender
  import opened Assembler
  import opened Residency
  import opened Protocol
  import opened Delivery
  import opened Guarantees
  import opened Repair
  import opened Objects
  import opened Progress
  import Grouping

  predicate SameName(a: Item, b: Item) {
    SameTrack(a.track, b.track) && a.groupId == b.groupId && a.objectId == b.objectId
  }

  // ----- What the publisher remembers -----

  /** Every DATA object sent has been remembered, once, and in the order of sending. */
  ghost predicate AllKept(s: System) {
    && (forall n :: 0 <= n < |s.sent| && s.sent[n].item.track.kind == TRACK_DATA ==> KeptAs(s, n))
    && (forall m, p :: 0 <= m < p < |s.kept| && s.kept[m].sentAs.Some? && s.kept[p].sentAs.Some? ==>
          s.kept[m].sentAs.value < s.kept[p].sentAs.value)
  }

  ghost predicate KeptAs(s: System, n: nat) { exists m :: 0 <= m < |s.kept| && s.kept[m].sentAs == Some(n) }

  lemma KeptAsGrows(s: System, s': System, n: nat)
    requires KeptAs(s, n) && s.kept <= s'.kept
    ensures KeptAs(s', n)
  {
    var m :| 0 <= m < |s.kept| && s.kept[m].sentAs == Some(n);
    assert s'.kept[m] == s.kept[m];
  }

  /** What one step adds to the publisher's memory: an object sent, a DATA object with it, or a stray. */
  ghost predicate Grown(s: System, s': System) {
    && s.sent <= s'.sent && s.kept <= s'.kept && |s'.sent| <= |s.sent| + 1 && |s'.kept| <= |s.kept| + 1
    && (|s.sent| < |s'.sent| && s'.sent[|s.sent|].item.track.kind == TRACK_DATA ==>
          |s.kept| < |s'.kept| && s'.kept[|s.kept|].sentAs == Some(|s.sent|))
    && (|s.kept| < |s'.kept| && s'.kept[|s.kept|].sentAs.Some? ==> s'.kept[|s.kept|].sentAs.value == |s.sent|)
  }

  lemma StepGrown(cfg: Config, s: System, a: Action, s': System)
    requires StepsTo(cfg, s, a, s')
    ensures Grown(s, s')
  {
    if a.Arrive? {
      ArriveLeavesMemory(cfg, s, a.raw);
    }
  }

  lemma GrownAllKept(s: System, s': System)
    requires Grown(s, s') && KeptOk(s.sent, s.kept) && AllKept(s)
    ensures AllKept(s')
  {
    forall n | 0 <= n < |s'.sent| && s'.sent[n].item.track.kind == TRACK_DATA
      ensures KeptAs(s', n)
    {
      if n < |s.sent| {
        KeptAsGrows(s, s', n);
      } else {
        assert s'.kept[|s.kept|].sentAs == Some(n);
      }
    }
    forall m, p | 0 <= m < p < |s'.kept| && s'.kept[m].sentAs.Some? && s'.kept[p].sentAs.Some?
      ensures s'.kept[m].sentAs.value < s'.kept[p].sentAs.value
    {
      assert s'.kept[m] == s.kept[m];
    }
  }

  lemma {:induction false} RunAllKept(cfg: Config, run: Run, t: nat)
    requires Sane(cfg) && IsRun(cfg, run) && t < |run.states|
    ensures AllKept(run.states[t])
  {
    if t > 0 {
      RunAllKept(cfg, run, t - 1);
      RunStepGrown(cfg, run, t - 1);
      GrownAllKept(run.states[t - 1], run.states[t]);
    }
  }

  lemma RunStepGrown(cfg: Config, run: Run, t: nat)
    requires Sane(cfg) && IsRun(cfg, run) && t < |run.actions|
    ensures Grown(run.states[t], run.states[t + 1]) && KeptOk(run.states[t].sent, run.states[t].kept)
  {
    RunKeeps(cfg, run, t);
    assert StepAt(cfg, run, t);
    StepGrown(cfg, run.states[t], run.actions[t], run.states[t + 1]);
  }

  // ----- Which object answers a NACK -----

  /** A stray of the same name lies in the ring in front of place p. */
  ghost predicate StrayBefore(s: System, item: Item, p: nat) {
    exists m: nat :: Remembered(s, m) && s.kept[m].sentAs.None? && SameName(s.kept[m].item, item)
                     && m % SENT_CACHE_SIZE < p % SENT_CACHE_SIZE
  }

  /** The publisher looks for the object n of a NACK, which is remembered as number p. It ends at the object's own
      place if and only if no stray with its track, group and object id lies in the ring before it; otherwise at a
      stray. */
  lemma SearchEndsAtOwnIff(cfg: Config, s: System, n: nat, p: nat)
    requires Sane(cfg) && Inv(cfg, s) && AllKept(s) && n < |s.sent| && Remembered(s, p) && s.kept[p].sentAs == Some(n)
    ensures var x := s.sent[n];
            && (FindsStray(cfg, s, x.alias, x.item.groupId, x.item.objectId) <==> StrayBefore(s, x.item, p))
            && FindByAlias(cfg.senderSubs, x.alias).Some?
            && var track := FindByAlias(cfg.senderSubs, x.alias).value;
               var j := IndexOfCached(s.ring.slots, track, x.item.groupId, x.item.objectId);
               j == p % SENT_CACHE_SIZE <==> !StrayBefore(s, x.item, p)
  {
    var x := s.sent[n];
    var track := FindByAlias(cfg.senderSubs, x.alias).value;
    var j := IndexOfCached(s.ring.slots, track, x.item.groupId, x.item.objectId);
    RememberedMatches(cfg, s, p, track, x.item);
    var m := MatchIsOwn(cfg, s, n, track, j);
    if s.kept[m].sentAs.Some? {
      assert m == p;
    } else {
      SameResidue(s, m, p);
    }
    if StrayBefore(s, x.item, p) {
      var q: nat :| Remembered(s, q) && s.kept[q].sentAs.None? && SameName(s.kept[q].item, x.item)
                    && q % SENT_CACHE_SIZE < p % SENT_CACHE_SIZE;
      RememberedMatches(cfg, s, q, track, x.item);
    }
    if FindsStray(cfg, s, x.alias, x.item.groupId, x.item.objectId) {
      var q: nat :| Remembered(s, q) && s.kept[q].sentAs.None? && j == q % SENT_CACHE_SIZE;
      SameResidue(s, q, m);
    }
  }

  lemma RememberedMatches(cfg: Config, s: System, m: nat, track: TrackId, item: Item)
    requires Inv(cfg, s) && Remembered(s, m) && SameName(s.kept[m].item, item) && SameTrack(track, item.track)
    ensures IndexOfCached(s.ring.slots, track, item.groupId, item.objectId) <= m % SENT_CACHE_SIZE
  {
    RememberedIsThere(cfg, s, m);
    assert Matches(s.ring.slots[m % SENT_CACHE_SIZE], track, item.groupId, item.objectId);
  }

  /** Two objects remembered have different places. */
  lemma SameResidue(s: System, m: nat, p: nat)
    requires Remembered(s, m) && Remembered(s, p)
    ensures m % SENT_CACHE_SIZE == p % SENT_CACHE_SIZE <==> m == p
  {
    if m < p {
      DistinctResidues(m, p);
    } else if p < m {
      DistinctResidues(p, m);
    }
  }

  /** In every reachable state: a NACK for an object among the last 32 remembered, number p of them, is answered from
      its own entry, with exactly the datagrams first sent for the requested symbols, if and only if no stray with the
      same track, group and object id lies in the ring before it; and otherwise from a stray. */
  lemma AnsweredFromOwnIff(cfg: Config, run: Run, t: nat, n: nat, p: nat, missing: seq<nat>, times: seq<u64>)
    requires Sane(cfg) && IsRun(cfg, run) && t < |run.states| && n < |run.states[t].sent| && |missing| == |times|
    requires Remembered(run.states[t], p) && run.states[t].kept[p].sentAs == Some(n)
    ensures var s := run.states[t];
            var x := s.sent[n];
            && RingShape(cfg.code, s.ring.slots) && |Symbols(cfg.code, x.item, x.l)| == x.l.k + x.l.p
            && var out := HandleNack(cfg.code, s.ring.slots, cfg.senderSubs, x.alias, x.item.groupId, x.item.objectId,
                                     missing, times);
               if StrayBefore(s, x.item, p) then FromStray(cfg, s, x, missing, times, out)
               else out == Originals(cfg.code, x.item, x.alias, x.l, Asked(missing), Asked(times))
  {
    RunKeeps(cfg, run, t);
    RunAllKept(cfg, run, t);
    RingSafe(cfg, run.states[t]);
    AnswerSource(cfg, run.states[t], n, p, missing, times);
  }

  /** The answer consists of symbols of a stray of the same name, under the alias of x. */
  ghost predicate FromStray(cfg: Config, s: System, x: Sent, missing: seq<nat>, times: seq<u64>, out: seq<Block>)
    requires |missing| == |times|
  {
    exists m: nat :: IsStray(cfg, s, x, m) &&
      out == Originals(cfg.code, s.kept[m].item, x.alias, s.kept[m].l, Asked(missing), Asked(times))
  }

  ghost predicate IsStray(cfg: Config, s: System, x: Sent, m: nat) {
    && Remembered(s, m) && s.kept[m].sentAs.None? && SameName(s.kept[m].item, x.item)
    && |Symbols(cfg.code, s.kept[m].item, s.kept[m].l)| == s.kept[m].l.k + s.kept[m].l.p
  }

  lemma AnswerSource(cfg: Config, s: System, n: nat, p: nat, missing: seq<nat>, times: seq<u64>)
    requires Sane(cfg) && Inv(cfg, s) && AllKept(s) && RingShape(cfg.code, s.ring.slots) && |missing| == |times|
    requires n < |s.sent| && Remembered(s, p) && s.kept[p].sentAs == Some(n)
    ensures var x := s.sent[n];
            && |Symbols(cfg.code, x.item, x.l)| == x.l.k + x.l.p
            && var out := HandleNack(cfg.code, s.ring.slots, cfg.senderSubs, x.alias, x.item.groupId, x.item.objectId,
                                     missing, times);
               if StrayBefore(s, x.item, p) then FromStray(cfg, s, x, missing, times, out)
               else out == Originals(cfg.code, x.item, x.alias, x.l, Asked(missing), Asked(times))
  {
    var x := s.sent[n];
    SearchEndsAtOwnIff(cfg, s, n, p);
    SymbolsShape(cfg.code, x.item, x.l);
    if StrayBefore(s, x.item, p) {
      var track := FindByAlias(cfg.senderSubs, x.alias).value;
      var m: nat :| Remembered(s, m) && s.kept[m].sentAs.None?
        && IndexOfCached(s.ring.slots, track, x.item.groupId, x.item.objectId) == m % SENT_CACHE_SIZE;
      StrayAnswers(cfg, s, x, track, m, missing, times);
    } else {
      assert Recent(s, n);
      AnswerExactness(cfg, s, n, missing, times);
    }
  }

  lemma StrayAnswers(cfg: Config, s: System, x: Sent, track: TrackId, m: nat, missing: seq<nat>, times: seq<u64>)
    requires Sane(cfg) && Inv(cfg, s) && RingShape(cfg.code, s.ring.slots) && |missing| == |times|
    requires InLimits(x.item, x.l)
    requires FindByAlias(cfg.senderSubs, x.alias) == Some(track) && SameTrack(track, x.item.track)
    requires Remembered(s, m) && s.kept[m].sentAs.None?
    requires IndexOfCached(s.ring.slots, track, x.item.groupId, x.item.objectId) == m % SENT_CACHE_SIZE
    ensures IsStray(cfg, s, x, m)
    ensures HandleNack(cfg.code, s.ring.slots, cfg.senderSubs, x.alias, x.item.groupId, x.item.objectId, missing, times)
            == Originals(cfg.code, s.kept[m].item, x.alias, s.kept[m].l, Asked(missing), Asked(times))
  {
    RememberedIsThere(cfg, s, m);
    RetransmissionFidelity(cfg.code, s.kept[m].item, s.kept[m].l, x.alias, Asked(missing), Asked(times));
  }

  // ----- Distinct keys suffice -----

  /** What the actions publish, with or without a peer, in order. */
  function Items(actions: seq<Action>): (r: seq<Item>)
  {
    if actions == [] then []
    else
      var a := actions[|actions| - 1];
      Items(actions[..|actions| - 1]) + if a.Publish? || a.Stash? then [a.item] else []
  }

  predicate DistinctNames(items: seq<Item>) {
    forall i, j :: 0 <= i < j < |items| ==> !SameName(items[i], items[j])
  }

  /** The NACK handled is one that the receiver has sent. */
  ghost predicate FromReceiver(s: System, a: Action) {
    a.Answer? ==> exists k :: 0 <= k < |s.log| && s.log[k].output == Nack(a.alias, a.groupId, a.objectId, a.missing)
  }

  ghost predicate AllFromReceiver(run: Run) {
    forall c :: 0 <= c < |run.actions| && c < |run.states| ==> FromReceiver(run.states[c], run.actions[c])
  }

  /** Objects sent and strays are among the items, and no stray has the name of an object sent. */
  ghost predicate Apart(s: System, items: seq<Item>) {
    && (forall n :: 0 <= n < |s.sent| ==> s.sent[n].item in items)
    && (forall m :: 0 <= m < |s.kept| && s.kept[m].sentAs.None? ==> s.kept[m].item in items)
    && (forall n, m :: 0 <= n < |s.sent| && 0 <= m < |s.kept| && s.kept[m].sentAs.None? ==>
          !SameName(s.kept[m].item, s.sent[n].item))
  }

  predicate NewName(items: seq<Item>, x: Item) { forall i :: 0 <= i < |items| ==> !SameName(items[i], x) }

  lemma PublishApart(s: System, s': System, items: seq<Item>, x: Sent)
    requires Apart(s, items) && NewName(items, x.item) && s'.sent == s.sent + [x]
    requires s'.kept == s.kept || s'.kept == s.kept + [Kept(x.item, x.l, Some(|s.sent|))]
    ensures Apart(s', items + [x.item])
  {
    forall n, m | 0 <= n < |s'.sent| && 0 <= m < |s'.kept| && s'.kept[m].sentAs.None?
      ensures !SameName(s'.kept[m].item, s'.sent[n].item)
    {
      assert s'.kept[m] == s.kept[m] && s.kept[m].item in items;
    }
  }

  lemma StashApart(s: System, s': System, items: seq<Item>, item: Item, l: Layout)
    requires Apart(s, items) && NewName(items, item) && s'.sent == s.sent
    requires s'.kept == s.kept + [Kept(item, l, None)]
    ensures Apart(s', items + [item])
  {
    forall n, m | 0 <= n < |s'.sent| && 0 <= m < |s'.kept| && s'.kept[m].sentAs.None?
      ensures !SameName(s'.kept[m].item, s'.sent[n].item)
    {
      assert s.sent[n].item in items;
    }
  }

  lemma StepApart(cfg: Config, s: System, a: Action, s': System, items: seq<Item>)
    requires GoesTo(cfg, s, a, s') && Apart(s, items) && (a.Publish? || a.Stash? ==> NewName(items, a.item))
    ensures Apart(s', items + if a.Publish? || a.Stash? then [a.item] else [])
  {
    match a
    case Publish(item, l, _, _) => PublishApart(s, s', items, s'.sent[|s.sent|]);
    case Stash(item, l) => StashApart(s, s', items, item, l);
    case Answer(_, _, _, _, _) => assert items + [] == items;
    case Arrive(raw) =>
      ArriveLeavesMemory(cfg, s, raw);
      assert items + [] == items;
  }

  lemma ArriveLeavesMemory(cfg: Config, s: System, raw: Block)
    requires Safe(cfg, s, Arrive(raw))
    ensures Arrived(cfg, s, raw).sent == s.sent && Arrived(cfg, s, raw).kept == s.kept
  {}

  lemma AliasNamesTrack(cfg: Config, a: TrackId, b: TrackId)
    requires Sane(cfg) && ValidTrack(a) && ValidTrack(b)
    requires FindByTrack(cfg.senderSubs, a).Some? && FindByTrack(cfg.senderSubs, a) == FindByTrack(cfg.senderSubs, b)
    ensures SameTrack(a, b)
  {}

  /** With names kept apart, every step is regular. */
  lemma ApartIsRegular(cfg: Config, s: System, a: Action, items: seq<Item>)
    requires Sane(cfg) && Inv(cfg, s) && Possible(cfg, s, a) && FromReceiver(s, a) && Apart(s, items)
    requires a.Publish? || a.Stash? ==> NewName(items, a.item)
    ensures Regular(cfg, s, a)
  {
    match a
    case Publish(item, l, _, _) =>
      var x := Sent(item, FindByTrack(cfg.senderSubs, item.track).value, l);
      forall i | 0 <= i < |s.sent|
        ensures !SameKey(s.sent[i], x)
      {
        assert s.sent[i].item in items;
        if SameKey(s.sent[i], x) {
          AliasNamesTrack(cfg, s.sent[i].item.track, item.track);
        }
      }
    case Answer(alias, groupId, objectId, _, _) => ApartFindsNoStray(cfg, s, alias, groupId, objectId, items);
    case _ =>
  }

  lemma ApartFindsNoStray(cfg: Config, s: System, alias: byte, groupId: nat, objectId: nat, items: seq<Item>)
    requires Sane(cfg) && Inv(cfg, s) && Apart(s, items)
    requires exists k :: 0 <= k < |s.log| && s.log[k].output.Nack? && s.log[k].output.alias == alias
                         && s.log[k].output.groupId == groupId && s.log[k].output.objectId == objectId
    ensures !FindsStray(cfg, s, alias, groupId, objectId)
  {
    var k :| 0 <= k < |s.log| && s.log[k].output.Nack? && s.log[k].output.alias == alias
             && s.log[k].output.groupId == groupId && s.log[k].output.objectId == objectId;
    var x := s.sent[s.log[k].sentIndex];
    assert x.alias == alias && x.item.groupId == groupId && x.item.objectId == objectId;
    forall m: nat | Remembered(s, m) && s.kept[m].sentAs.None?
      ensures !SameName(s.kept[m].item, x.item)
      ensures s.ring.slots[m % SENT_CACHE_SIZE] == Some(Cache(s.kept[m].item, s.kept[m].l))
    {
      RememberedIsThere(cfg, s, m);
    }
  }

  function Prefix(run: Run, k: nat): (r: Run)
    requires k < |run.states| && k <= |run.actions|
  {
    Run(run.states[..k + 1], run.actions[..k])
  }

  lemma {:induction false} PrefixIsRun(cfg: Config, run: Run, k: nat)
    requires Sane(cfg) && IsTrace(cfg, run) && k < |run.states|
    requires DistinctNames(Items(run.actions[..k])) && AllFromReceiver(run)
    ensures IsRun(cfg, Prefix(run, k)) && Apart(run.states[k], Items(run.actions[..k]))
  {
    if k > 0 {
      var c := k - 1;
      assert run.actions[..k][..c] == run.actions[..c];
      ItemsShorter(run.actions[..k]);
      PrefixIsRun(cfg, run, c);
      PrefixGrows(cfg, run, c, Items(run.actions[..c]));
    }
  }

  lemma PrefixGrows(cfg: Config, run: Run, c: nat, items: seq<Item>)
    requires Sane(cfg) && IsTrace(cfg, run) && c < |run.actions| && AllFromReceiver(run)
    requires IsRun(cfg, Prefix(run, c)) && Apart(run.states[c], items)
    requires var a := run.actions[c]; a.Publish? || a.Stash? ==> NewName(items, a.item)
    ensures IsRun(cfg, Prefix(run, c + 1))
    ensures var a := run.actions[c];
            Apart(run.states[c + 1], items + if a.Publish? || a.Stash? then [a.item] else [])
  {
    assert GoesAt(cfg, run, c) && FromReceiver(run.states[c], run.actions[c]);
    PrefixNext(run, c);
    RegularNext(cfg, Prefix(run, c), run.actions[c], run.states[c + 1], items);
  }

  lemma PrefixNext(run: Run, c: nat)
    requires |run.states| == |run.actions| + 1 && c < |run.actions|
    ensures var before := Prefix(run, c);
            && before.states != [] && Last(before) == run.states[c]
            && Prefix(run, c + 1) == Run(before.states + [run.states[c + 1]], before.actions + [run.actions[c]])
  {}

  lemma RegularNext(cfg: Config, before: Run, a: Action, next: System, items: seq<Item>)
    requires Sane(cfg) && IsRun(cfg, before) && GoesTo(cfg, Last(before), a, next) && FromReceiver(Last(before), a)
    requires Apart(Last(before), items) && (a.Publish? || a.Stash? ==> NewName(items, a.item))
    ensures IsRun(cfg, Run(before.states + [next], before.actions + [a]))
    ensures Apart(next, items + if a.Publish? || a.Stash? then [a.item] else [])
  {
    RunStepRegular(cfg, before, a, items);
    StepApart(cfg, Last(before), a, next, items);
    Appended(cfg, before, a, next);
  }

  lemma RunStepRegular(cfg: Config, run: Run, a: Action, items: seq<Item>)
    requires Sane(cfg) && IsRun(cfg, run) && Possible(cfg, Last(run), a) && FromReceiver(Last(run), a)
    requires Apart(Last(run), items) && (a.Publish? || a.Stash? ==> NewName(items, a.item))
    ensures Regular(cfg, Last(run), a)
  {
    RunKeeps(cfg, run, |run.actions|);
    ApartIsRegular(cfg, Last(run), a, items);
  }

  lemma ItemsShorter(actions: seq<Action>)
    requires actions != [] && DistinctNames(Items(actions))
    ensures var n, a := |actions| - 1, actions[|actions| - 1];
            && DistinctNames(Items(actions[..n])) && (a.Publish? || a.Stash? ==> NewName(Items(actions[..n]), a.item))
  {
    var n, a := |actions| - 1, actions[|actions| - 1];
    var front, all := Items(actions[..n]), Items(actions);
    assert forall i :: 0 <= i < |front| ==> all[i] == front[i];
    if a.Publish? || a.Stash? {
      assert all[|front|] == a.item;
    }
  }

  /** Whatever the code lets happen is a run in which all guarantees of the object protocol hold, if no two objects
      published, strays included, have the same track, group and object id, and NACKs are those of the receiver. */
  lemma DistinctKeysSuffice(cfg: Config, run: Run)
    requires Sane(cfg) && IsTrace(cfg, run) && DistinctNames(Items(run.actions)) && AllFromReceiver(run)
    ensures IsRun(cfg, run)
  {
    var k := |run.actions|;
    assert run.actions[..k] == run.actions && run.states[..k + 1] == run.states;
    PrefixIsRun(cfg, run, k);
  }

  /** A grouping run never uses a key twice before its counter wraps. */
  lemma GroupedNamesDistinct(inputs: seq<Grouping.Input>)
    requires |Grouping.Run(inputs).objects| <= 0x1_0000_0000
    ensures DistinctNames(Grouping.Run(inputs).objects)
  {
    Grouping.GroupingConserves(inputs);
  }

  /** So what a grouping run alone publishes, below 2^32 objects, meets the assumption of the object protocol, whether
      or not a peer gets each object. */
  lemma GroupingAloneIsRegular(cfg: Config, run: Run, inputs: seq<Grouping.Input>)
    requires Sane(cfg) && IsTrace(cfg, run) && AllFromReceiver(run)
    requires |Grouping.Run(inputs).objects| <= 0x1_0000_0000 && Items(run.actions) <= Grouping.Run(inputs).objects
    ensures IsRun(cfg, run)
  {
    GroupedNamesDistinct(inputs);
    var items, objects := Items(run.actions), Grouping.Run(inputs).objects;
    assert forall i :: 0 <= i < |items| ==> items[i] == objects[i];
    DistinctKeysSuffice(cfg, run);
  }

  // ----- A key used again -----

  predicate SameContent(a: Item, b: Item) { a.data == b.data && a.keyframe == b.keyframe && a.priority == b.priority }

  /** Every object delivered carries what was sent under its track, group and object id. */
  ghost predicate Truthful(s: System) {
    forall k, n :: 0 <= k < |s.log| && 0 <= n < |s.sent| && s.log[k].output.Delivered? ==> TrueOf(s, k, n)
  }

  predicate TrueOf(s: System, k: nat, n: nat)
    requires k < |s.log| && n < |s.sent| && s.log[k].output.Delivered?
  {
    var o := s.log[k].output;
    Names(o.track, o.groupId, o.objectId, s.sent[n].item) ==>
      s.sent[n].item.data == o.data && s.sent[n].item.keyframe == o.keyframe && s.sent[n].item.priority == o.priority
  }

  /** What is delivered, and what a decoded slot holds, is deliverable and has been reported. */
  ghost predicate Reported(s: System) {
    && Sized(s)
    && (forall k :: 0 <= k < |s.log| && s.log[k].output.Delivered? ==>
          s.log[k].sentIndex < |s.sent| && Deliverable(s.sent[s.log[k].sentIndex]))
    && (forall i :: 0 <= i < ASSEMBLER_CACHE_SIZE && Used(s.receiver.slots[i]) && s.receiver.slots[i].decoded ==>
          ReportedAs(s, s.owners[i]))
  }

  ghost predicate ReportedAs(s: System, n: nat) {
    exists k :: 0 <= k < |s.log| && s.log[k].output.Delivered? && s.log[k].sentIndex == n
  }

  lemma ReportedAsGrows(s: System, s': System, n: nat)
    requires ReportedAs(s, n) && s.log <= s'.log
    ensures ReportedAs(s', n)
  {
    var k :| 0 <= k < |s.log| && s.log[k].output.Delivered? && s.log[k].sentIndex == n;
    assert s'.log[k] == s.log[k];
  }

  lemma MovedReports(cfg: Config, s: System, s': System, m: Move)
    requires SlotsOk(cfg, s) && Moved(cfg, s, s', m) && m.after.decoded && !m.before.decoded
    ensures ReportedAs(s', m.n)
  {
    var k := |s.log + m.lost + m.nacks|;
    assert s'.log[k] == m.delivered[0] && m.delivered[0] in m.delivered;
  }

  lemma MovedReported(cfg: Config, s: System, s': System, m: Move)
    requires SlotsOk(cfg, s) && Moved(cfg, s, s', m) && Reported(s) && Deliverable(s.sent[m.n])
    ensures Reported(s')
  {
    assert s.log <= s'.log;
    forall i | 0 <= i < ASSEMBLER_CACHE_SIZE && Used(s'.receiver.slots[i]) && s'.receiver.slots[i].decoded
      ensures ReportedAs(s', s'.owners[i])
    {
      MovedElsewhere(cfg, s, s', m, i);
      if i == m.i && !m.before.decoded {
        MovedReports(cfg, s, s', m);
      } else {
        assert ReportedAs(s, s.owners[i]);
        ReportedAsGrows(s, s', s'.owners[i]);
      }
    }
    forall k | 0 <= k < |s'.log| && s'.log[k].output.Delivered?
      ensures s'.log[k].sentIndex < |s'.sent| && Deliverable(s'.sent[s'.log[k].sentIndex])
    {
      if k < |s.log| {
        assert s'.log[k] == s.log[k];
      } else {
        assert s'.log[k] in m.lost || s'.log[k] in m.nacks || s'.log[k] in m.delivered;
      }
    }
  }

  lemma MoveIsDeliverable(cfg: Config, s: System, s': System, m: Move, q: nat)
    requires SlotsOk(cfg, s) && Moved(cfg, s, s', m) && Details(s, s', m, q)
    ensures Deliverable(s.sent[m.n])
  {}

  lemma QuietReported(s: System, s': System)
    requires Quiet(s, s') && Reported(s)
    ensures Reported(s')
  {
    forall i | 0 <= i < ASSEMBLER_CACHE_SIZE && Used(s'.receiver.slots[i]) && s'.receiver.slots[i].decoded
      ensures ReportedAs(s', s'.owners[i])
    {
      ReportedAsGrows(s, s', s.owners[i]);
    }
  }

  lemma {:induction false} RunReported(cfg: Config, run: Run, t: nat)
    requires Sane(cfg) && IsRun(cfg, run) && t < |run.states|
    ensures Reported(run.states[t])
  {
    if t > 0 {
      RunReported(cfg, run, t - 1);
      var m, q := RunMoves(cfg, run, t - 1);
      if m.Some? {
        MoveIsDeliverable(cfg, run.states[t - 1], run.states[t], m.value, q);
        MovedReported(cfg, run.states[t - 1], run.states[t], m.value);
      } else {
        QuietReported(run.states[t - 1], run.states[t]);
      }
    }
  }

  /** The key of the action has been used for a deliverable object with other content. */
  ghost predicate UsedOtherwise(cfg: Config, s: System, a: Action)
    requires a.Publish? && FindByTrack(cfg.senderSubs, a.item.track).Some?
  {
    exists n :: 0 <= n < |s.sent| && Deliverable(s.sent[n]) && !SameContent(s.sent[n].item, a.item)
                && SameKey(s.sent[n], Sent(a.item, FindByTrack(cfg.senderSubs, a.item.track).value, a.l))
  }

  /** Wherever the network takes a run before it, publishing leaves every delivery true. */
  ghost predicate Harmless(cfg: Config, run: Run, a: Action)
    requires run.states != []
  {
    forall longer, s' :: GoesOn(cfg, run, a, longer, s') ==> Truthful(s')
  }

  ghost predicate GoesOn(cfg: Config, run: Run, a: Action, longer: Run, s': System)
    requires run.states != []
  {
    IsRun(cfg, longer) && Continues(run, longer) && Last(longer).sent == Last(run).sent
    && GoesTo(cfg, Last(longer), a, s')
  }

  /** Publishing an object leaves every delivery true, whatever has arrived before, if and only if its key has not been
      used for another deliverable object with other content. */
  lemma KeyReuseIff(cfg: Config, run: Run, a: Action)
    requires Sane(cfg) && IsRun(cfg, run) && a.Publish? && Possible(cfg, Last(run), a)
    ensures Harmless(cfg, run, a) <==> !UsedOtherwise(cfg, Last(run), a)
  {
    if UsedOtherwise(cfg, Last(run), a) {
      ReuseDoesHarm(cfg, run, a);
    } else {
      forall longer, s' | GoesOn(cfg, run, a, longer, s')
        ensures Truthful(s')
      {
        NewKeyDoesNoHarm(cfg, run, a, longer, s');
      }
    }
  }

  lemma ReuseDoesHarm(cfg: Config, run: Run, a: Action)
    requires Sane(cfg) && IsRun(cfg, run) && a.Publish? && Possible(cfg, Last(run), a)
    requires UsedOtherwise(cfg, Last(run), a)
    ensures !Harmless(cfg, run, a)
  {
    var x := Sent(a.item, FindByTrack(cfg.senderSubs, a.item.track).value, a.l);
    var n :| 0 <= n < |Last(run).sent| && Deliverable(Last(run).sent[n])
             && !SameContent(Last(run).sent[n].item, a.item) && SameKey(Last(run).sent[n], x);
    var longer, i := DeliveryRemainsPossible(cfg, run, n);
    RunReported(cfg, longer, |longer.actions|);
    var s' := MisleadAfter(cfg, longer, a, n, x);
    assert GoesOn(cfg, run, a, longer, s');
  }

  lemma MisleadAfter(cfg: Config, run: Run, a: Action, n: nat, x: Sent) returns (s': System)
    requires Sane(cfg) && IsRun(cfg, run) && a.Publish? && Possible(cfg, Last(run), a) && n < |Last(run).sent|
    requires x == Sent(a.item, FindByTrack(cfg.senderSubs, a.item.track).value, a.l)
    requires !SameContent(Last(run).sent[n].item, a.item) && SameKey(Last(run).sent[n], x)
    requires ReportedAs(Last(run), n)
    ensures GoesTo(cfg, Last(run), a, s') && !Truthful(s')
  {
    RunKeeps(cfg, run, |run.actions|);
    PossibleIsSafe(cfg, Last(run), a);
    s' := Step(cfg, Last(run), a);
    ReuseMisleads(cfg, Last(run), a, s', n);
  }

  lemma NewKeyDoesNoHarm(cfg: Config, run: Run, a: Action, longer: Run, s': System)
    requires Sane(cfg) && IsRun(cfg, run) && a.Publish? && Possible(cfg, Last(run), a)
    requires !UsedOtherwise(cfg, Last(run), a) && GoesOn(cfg, run, a, longer, s')
    ensures Truthful(s')
  {
    RunKeepsTruth(cfg, longer, a, s');
  }

  lemma RunKeepsTruth(cfg: Config, run: Run, a: Action, s': System)
    requires Sane(cfg) && IsRun(cfg, run) && a.Publish? && GoesTo(cfg, Last(run), a, s')
    requires !UsedOtherwise(cfg, Last(run), a)
    ensures Truthful(s')
  {
    RunKeeps(cfg, run, |run.actions|);
    RunReported(cfg, run, |run.actions|);
    NewKeyIsTrue(cfg, Last(run), a, s');
  }

  lemma PublishIs(cfg: Config, s: System, a: Action, s': System)
    requires a.Publish? && GoesTo(cfg, s, a, s')
    ensures s'.log == s.log && s'.sent == s.sent + [Sent(a.item, FindByTrack(cfg.senderSubs, a.item.track).value, a.l)]
  {}

  lemma ReuseMisleads(cfg: Config, s: System, a: Action, s': System, n: nat)
    requires Sane(cfg) && SentOk(cfg, s.sent) && LogOk(cfg, s) && a.Publish? && GoesTo(cfg, s, a, s')
    requires n < |s.sent| && ReportedAs(s, n)
    requires !SameContent(s.sent[n].item, a.item)
    requires SameKey(s.sent[n], Sent(a.item, FindByTrack(cfg.senderSubs, a.item.track).value, a.l))
    ensures !Truthful(s')
  {
    PublishIs(cfg, s, a, s');
    var k :| 0 <= k < |s.log| && s.log[k].output.Delivered? && s.log[k].sentIndex == n;
    assert OutputOk(cfg, s.sent[n], s.log[k]);
    AliasNamesTrack(cfg, s.sent[n].item.track, a.item.track);
    assert !TrueOf(s', k, |s.sent|);
  }

  lemma NewKeyIsTrue(cfg: Config, s: System, a: Action, s': System)
    requires Sane(cfg) && Inv(cfg, s) && Reported(s) && a.Publish? && GoesTo(cfg, s, a, s')
    requires !UsedOtherwise(cfg, s, a)
    ensures Truthful(s')
  {
    PublishIs(cfg, s, a, s');
    forall k, n | 0 <= k < |s'.log| && 0 <= n < |s'.sent| && s'.log[k].output.Delivered?
      ensures TrueOf(s', k, n)
    {
      var o, m := s.log[k].output, s.log[k].sentIndex;
      assert OutputOk(cfg, s.sent[m], s.log[k]);
      if Names(o.track, o.groupId, o.objectId, s'.sent[n].item) {
        if n < |s.sent| {
          SameNameSameObject(cfg, s.sent, n, m);
        } else {
          SameTrackSameAlias(cfg.senderSubs, s.sent[m].item.track, a.item.track);
          assert SameContent(s.sent[m].item, a.item);
        }
      }
    }
  }
}
