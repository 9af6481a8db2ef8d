/** Objects and subscriptions together: SUBSCRIBE messages are sent and handled between any two steps of the object
    protocol, which works at every moment with the tables of that moment. */
module Live {
  import opened Bytes
  import opened ErasureCode
  import opened Tracks
  import opened Wire
  import opened Sender
  import opened Assembler
  import opened Residency
  import opened Protocol
  import opened Delivery
  import opened Guarantees
  import opened Progress
  import Session
  import Aliases

  /** The receiver of the objects is the subscriber. */
  function Tables(code: Code, k: Aliases.Link): (cfg: Config) { Config(code, k.far, k.near) }

  datatype World = World(link: Aliases.Link, system: System)

  datatype Event = Table(move: Aliases.Move) | Object(action: Action)

  ghost predicate Goes(code: Code, w: World, e: Event, w': World) {
    match e
    case Table(move) =>
      && (move.Subscribe? ==> ValidTrack(move.track)) && (move.Deliver? ==> w.link.flight != [])
      && w' == w.(link := Aliases.Step(w.link, move))
    case Object(a) => StepsTo(Tables(code, w.link), w.system, a, w'.system) && w' == w.(system := w'.system)
  }

  /** Starts with empty tables. */
  ghost predicate IsLive(code: Code, worlds: seq<World>, events: seq<Event>) {
    && |worlds| == |events| + 1
    && worlds[0] == World(Aliases.Link(Empty(), Empty(), []), Init())
    && forall t: nat :: t < |events| ==> GoesAt(code, worlds, events, t)
  }

  ghost predicate GoesAt(code: Code, worlds: seq<World>, events: seq<Event>, t: nat) {
    t < |events| && t + 1 < |worlds| && Goes(code, worlds[t], events[t], worlds[t + 1])
  }

  // ----- Tables only grow -----

  /** What an alias or a track meant, it means still. */
  ghost predicate Grows(cfg: Config, cfg': Config) {
    && cfg'.code == cfg.code
    && (forall t: TrackId :: FindByTrack(cfg.senderSubs, t).Some? ==>
          FindByTrack(cfg'.senderSubs, t) == FindByTrack(cfg.senderSubs, t))
    && (forall a: byte :: FindByAlias(cfg.senderSubs, a).Some? ==> StillMeans(cfg.senderSubs, cfg'.senderSubs, a))
    && (forall a: byte :: FindByAlias(cfg.receiverSubs, a).Some? ==>
          FindByAlias(cfg'.receiverSubs, a) == FindByAlias(cfg.receiverSubs, a))
  }

  predicate StillMeans(subs: seq<Entry>, subs': seq<Entry>, a: byte)
    requires FindByAlias(subs, a).Some?
  {
    FindByAlias(subs', a).Some? && SameTrack(FindByAlias(subs', a).value, FindByAlias(subs, a).value)
  }

  /** An entry added behind the others. */
  lemma AddedBehind(s: seq<Entry>, kind: byte, flags: byte, name: Block, alias: byte)
    requires Aliases.Packed(s) && !Aliases.In(s, kind, name)
    ensures var r := Add(s, kind, flags, name, alias);
            && (forall t: TrackId :: FindByTrack(s, t).Some? ==> FindByTrack(r, t) == FindByTrack(s, t))
            && (forall a: byte :: FindByAlias(s, a).Some? ==> FindByAlias(r, a) == FindByAlias(s, a))
  {
    var r := Add(s, kind, flags, name, alias);
    if !Aliases.Full(s) {
      Aliases.AddFresh(s, kind, flags, name, alias);
      forall a: byte | FindByAlias(s, a).Some?
        ensures FindByAlias(r, a) == FindByAlias(s, a)
      {
        if a >= FIRST_NAMED_ALIAS {
          Aliases.AliasIs(r, a, IndexOfAlias(s, a));
        }
      }
    }
  }

  /** An entry refreshed under the alias it has. */
  lemma Refreshed(s: seq<Entry>, kind: byte, flags: byte, name: Block, alias: byte)
    requires Aliases.Packed(s) && Aliases.In(s, kind, name) && s[IndexOf(s, kind, name)].alias == alias
    ensures var r := Add(s, kind, flags, name, alias);
            && (forall t: TrackId :: FindByTrack(s, t).Some? ==> FindByTrack(r, t) == FindByTrack(s, t))
            && (forall a: byte :: FindByAlias(s, a).Some? ==> StillMeans(s, r, a))
  {
    var r := Add(s, kind, flags, name, alias);
    Aliases.AddKnown(s, kind, flags, name, alias);
    forall a: byte | FindByAlias(s, a).Some?
      ensures StillMeans(s, r, a)
    {
      if a >= FIRST_NAMED_ALIAS {
        Aliases.AliasIs(r, a, IndexOfAlias(s, a));
      }
    }
  }

  lemma SubscribeGrows(code: Code, k: Aliases.Link, track: TrackId)
    requires Aliases.Inv(k)
    ensures Grows(Tables(code, k), Tables(code, Aliases.Step(k, Aliases.Subscribe(track))))
  {
    if FindByTrack(k.near, track).None? {
      AddedBehind(k.near, track.kind, track.flags, track.name, U8(Session.NextAlias(k.near)));
    }
  }

  lemma DeliverGrows(code: Code, k: Aliases.Link)
    requires Aliases.Inv(k) && k.flight != []
    ensures Grows(Tables(code, k), Tables(code, Aliases.Step(k, Aliases.Deliver)))
  {
    var r := k.flight[0];
    if Aliases.In(k.far, r.kind, r.name) {
      Aliases.DeliveredMeans(k);
      var i := IndexOf(k.far, r.kind, r.name);
      assert Aliases.Means(k.near, k.far[i].alias, r.kind, r.name);
      Refreshed(k.far, r.kind, r.flags, r.name, r.alias);
    } else {
      AddedBehind(k.far, r.kind, r.flags, r.name, r.alias);
    }
  }

  // ----- A step under the old tables is one under the new -----

  /** The publisher knows the alias of a NACK. */
  predicate KnowsAlias(cfg: Config, a: Action) { a.Answer? ==> FindByAlias(cfg.senderSubs, a.alias).Some? }

  lemma SameSearch(ring: seq<Option<Cached>>, a: TrackId, b: TrackId, groupId: nat, objectId: nat)
    requires SameTrack(a, b)
    ensures IndexOfCached(ring, a, groupId, objectId) == IndexOfCached(ring, b, groupId, objectId)
  {}

  lemma AnswerCarriesOver(cfg: Config, cfg': Config, s: System, a: Action)
    requires a.Answer? && Enabled(cfg, s, a) && Safe(cfg, s, a) && KnowsAlias(cfg, a) && Grows(cfg, cfg')
    ensures Enabled(cfg', s, a) && Safe(cfg', s, a) && Step(cfg', s, a) == Step(cfg, s, a)
  {
    assert StillMeans(cfg.senderSubs, cfg'.senderSubs, a.alias);
    SameSearch(s.ring.slots, FindByAlias(cfg.senderSubs, a.alias).value, FindByAlias(cfg'.senderSubs, a.alias).value,
               a.groupId, a.objectId);
  }

  lemma PublishCarriesOver(cfg: Config, cfg': Config, s: System, a: Action)
    requires (a.Publish? || a.Stash?) && Enabled(cfg, s, a) && Safe(cfg, s, a) && Grows(cfg, cfg')
    ensures Enabled(cfg', s, a) && Safe(cfg', s, a) && Step(cfg', s, a) == Step(cfg, s, a)
  {}

  /** The receiver knows the alias of everything it is sent. */
  lemma SentIsKnown(cfg: Config, sent: seq<Sent>, n: nat)
    requires Sane(cfg) && SentOk(cfg, sent) && n < |sent|
    ensures FindByAlias(cfg.receiverSubs, sent[n].alias).Some?
  {}

  lemma AdmitCarriesOver(cfg: Config, cfg': Config, s: System, raw: Block)
    requires Sane(cfg) && SentOk(cfg, s.sent) && Honest(cfg.code, s.sent, raw) && Grows(cfg, cfg')
    ensures Admit(cfg'.receiverSubs, raw) == Admit(cfg.receiverSubs, raw)
  {
    var n, i, path, time :| 0 <= n < |s.sent| && IsSymbol(cfg.code, s.sent[n], i, path, time, raw);
    HonestHeader(cfg.code, s.sent[n], i, path, time, raw);
    SentIsKnown(cfg, s.sent, n);
    SameAdmit(cfg.receiverSubs, cfg'.receiverSubs, raw);
  }

  lemma SameAdmit(subs: seq<Entry>, subs': seq<Entry>, raw: Block)
    requires |raw| >= HEADER_SIZE
    requires FindByAlias(subs', ParseHeader(raw).alias) == FindByAlias(subs, ParseHeader(raw).alias)
    ensures Admit(subs', raw) == Admit(subs, raw)
  {}

  lemma EvictedCarriesOver(cfg: Config, cfg': Config, s: System, i: nat)
    requires Sane(cfg) && Inv(cfg, s) && i < ASSEMBLER_CACHE_SIZE && Grows(cfg, cfg')
    ensures Evicted(cfg'.receiverSubs, s.receiver.slots[i]) == Evicted(cfg.receiverSubs, s.receiver.slots[i])
  {
    if Used(s.receiver.slots[i]) {
      assert Holding(cfg.code, s.sent[s.owners[i]], s.receiver.slots[i]);
      SentIsKnown(cfg, s.sent, s.owners[i]);
    }
  }

  lemma ArriveCarriesOver(cfg: Config, cfg': Config, s: System, raw: Block)
    requires Sane(cfg) && Inv(cfg, s) && raw in s.net && Safe(cfg, s, Arrive(raw)) && Grows(cfg, cfg')
    ensures Safe(cfg', s, Arrive(raw)) && Arrived(cfg', s, raw) == Arrived(cfg, s, raw)
  {
    AdmitCarriesOver(cfg, cfg', s, raw);
    if Admit(cfg.receiverSubs, raw).Some? {
      EvictedCarriesOver(cfg, cfg', s, Locate(s.receiver, Admit(cfg.receiverSubs, raw).value.0));
    }
  }

  lemma ArriveStepCarriesOver(cfg: Config, cfg': Config, s: System, a: Action, s': System)
    requires a.Arrive? && Sane(cfg) && Inv(cfg, s) && StepsTo(cfg, s, a, s') && Grows(cfg, cfg')
    ensures StepsTo(cfg', s, a, s')
  {
    ArriveStepIs(cfg, s, a.raw, s');
    ArriveCarriesOver(cfg, cfg', s, a.raw);
    ArriveStepIs(cfg', s, a.raw, s');
  }

  lemma ArriveStepIs(cfg: Config, s: System, raw: Block, s': System)
    ensures StepsTo(cfg, s, Arrive(raw), s') <==>
            raw in s.net && Safe(cfg, s, Arrive(raw)) && s' == Arrived(cfg, s, raw)
  {}

  lemma StepCarriesOver(cfg: Config, cfg': Config, s: System, a: Action, s': System)
    requires Sane(cfg) && Inv(cfg, s) && StepsTo(cfg, s, a, s') && KnowsAlias(cfg, a) && Grows(cfg, cfg')
    ensures StepsTo(cfg', s, a, s') && KnowsAlias(cfg', a)
  {
    if a.Arrive? {
      ArriveStepCarriesOver(cfg, cfg', s, a, s');
    } else if a.Answer? {
      AnswerCarriesOver(cfg, cfg', s, a);
    } else {
      PublishCarriesOver(cfg, cfg', s, a);
    }
  }

  // ----- Every moment of a live run is the end of a run under the tables of that moment -----

  /** A run whose NACKs are all for aliases the publisher knows. */
  ghost predicate KnowingRun(cfg: Config, run: Run) {
    IsRun(cfg, run) && forall k :: 0 <= k < |run.actions| ==> KnowsAlias(cfg, run.actions[k])
  }

  lemma RunCarriesOver(cfg: Config, cfg': Config, run: Run)
    requires Sane(cfg) && KnowingRun(cfg, run) && Grows(cfg, cfg')
    ensures KnowingRun(cfg', run)
  {
    forall k: nat | k < |run.actions|
      ensures StepAt(cfg', run, k) && KnowsAlias(cfg', run.actions[k])
    {
      assert StepAt(cfg, run, k);
      RunKeeps(cfg, run, k);
      StepCarriesOver(cfg, cfg', run.states[k], run.actions[k], run.states[k + 1]);
    }
  }

  /** A NACK for an alias the publisher does not know changes nothing. */
  lemma UnknownAliasIsIdle(cfg: Config, s: System, a: Action, s': System)
    requires StepsTo(cfg, s, a, s') && !KnowsAlias(cfg, a)
    ensures s' == s
  {
    assert s.net + (set raw: Block | raw in []) == s.net;
  }

  lemma RunGoesOn(cfg: Config, run: Run, a: Action, next: System) returns (longer: Run)
    requires KnowingRun(cfg, run) && StepsTo(cfg, Last(run), a, next)
    ensures KnowingRun(cfg, longer) && Last(longer) == next
  {
    if KnowsAlias(cfg, a) {
      Appended(cfg, run, a, next);
      longer := Run(run.states + [next], run.actions + [a]);
    } else {
      UnknownAliasIsIdle(cfg, Last(run), a, next);
      longer := run;
    }
  }

  lemma SaneLink(code: Code, k: Aliases.Link)
    requires Lawful(code) && Aliases.Inv(k)
    ensures Sane(Tables(code, k))
  {
    Aliases.InvAgrees(k);
  }

  lemma TablesMove(code: Code, w: World, e: Event, w': World)
    requires Goes(code, w, e, w') && Aliases.Inv(w.link)
    ensures Aliases.Inv(w'.link) && (e.Table? ==> Grows(Tables(code, w.link), Tables(code, w'.link)))
  {
    if e.Table? {
      match e.move
      case Subscribe(track) =>
        Aliases.SubscribeKeeps(w.link, track);
        SubscribeGrows(code, w.link, track);
      case Deliver =>
        Aliases.DeliverKeeps(w.link);
        DeliverGrows(code, w.link);
    }
  }

  /** The run brings the objects where they are in this world, under its tables. */
  ghost predicate Reaches(code: Code, w: World, run: Run) {
    && Aliases.Inv(w.link) && Sane(Tables(code, w.link)) && KnowingRun(Tables(code, w.link), run)
    && run.states != [] && Last(run) == w.system
  }

  lemma {:induction false} LiveKnowing(code: Code, worlds: seq<World>, events: seq<Event>, t: nat) returns (run: Run)
    requires Lawful(code) && IsLive(code, worlds, events) && t < |worlds|
    ensures Reaches(code, worlds[t], run)
  {
    if t == 0 {
      run := LiveStarts(code, worlds, events);
    } else {
      run := LiveKnowing(code, worlds, events, t - 1);
      run := LiveNext(code, worlds, events, t - 1, t, run);
    }
  }

  lemma LiveNext(code: Code, worlds: seq<World>, events: seq<Event>, t: nat, t': nat, run: Run) returns (longer: Run)
    requires IsLive(code, worlds, events) && t < |events| && t' == t + 1 && Reaches(code, worlds[t], run)
    ensures Reaches(code, worlds[t'], longer)
  {
    LiveStep(code, worlds, events, t);
    longer := KnowingNext(code, worlds[t], events[t], worlds[t'], run);
  }

  lemma LiveStep(code: Code, worlds: seq<World>, events: seq<Event>, t: nat)
    requires IsLive(code, worlds, events) && t < |events|
    ensures Goes(code, worlds[t], events[t], worlds[t + 1])
  {
    assert GoesAt(code, worlds, events, t);
  }

  lemma LiveStarts(code: Code, worlds: seq<World>, events: seq<Event>) returns (run: Run)
    requires Lawful(code) && IsLive(code, worlds, events)
    ensures Reaches(code, worlds[0], run)
  {
    Aliases.InitInv();
    run := Run([Init()], []);
    SaneLink(code, worlds[0].link);
  }

  lemma KnowingNext(code: Code, w: World, e: Event, w': World, run: Run) returns (longer: Run)
    requires Goes(code, w, e, w') && Reaches(code, w, run)
    ensures Reaches(code, w', longer)
  {
    TablesMove(code, w, e, w');
    if e.Table? {
      RunCarriesOver(Tables(code, w.link), Tables(code, w'.link), run);
      longer := run;
    } else {
      longer := RunGoesOn(Tables(code, w.link), run, e.action, w'.system);
    }
    SaneLink(code, w'.link);
  }

  /** Whatever subscriptions are made and handled in between, the objects are where a run under the present tables could
      have brought them; and these tables meet the assumptions of the object protocol. So what holds at the end of every
      such run holds at every moment here. */
  lemma LiveIsRun(code: Code, worlds: seq<World>, events: seq<Event>, t: nat) returns (run: Run)
    requires Lawful(code) && IsLive(code, worlds, events) && t < |worlds|
    ensures var cfg := Tables(code, worlds[t].link);
            Sane(cfg) && IsRun(cfg, run) && run.states != [] && Last(run) == worlds[t].system
  {
    run := LiveKnowing(code, worlds, events, t);
  }

  /** Over every such run a delivered object was published, and carries exactly what was published under its track,
      group and object id. */
  lemma DeliveredIsPublishedLive(code: Code, worlds: seq<World>, events: seq<Event>, t: nat, k: nat)
    requires Lawful(code) && IsLive(code, worlds, events) && t < |worlds|
    requires k < |worlds[t].system.log| && worlds[t].system.log[k].output.Delivered?
    ensures var s := worlds[t].system;
            var o := s.log[k].output;
            && (exists n :: 0 <= n < |s.sent| && Names(o.track, o.groupId, o.objectId, s.sent[n].item))
            && (forall n :: 0 <= n < |s.sent| && Names(o.track, o.groupId, o.objectId, s.sent[n].item) ==>
                  && s.sent[n].item.data == o.data
                  && s.sent[n].item.keyframe == o.keyframe && s.sent[n].item.priority == o.priority)
  {
    var run := LiveIsRun(code, worlds, events, t);
    DeliveredIsPublished(Tables(code, worlds[t].link), run, |run.actions|, k);
  }

  /** Claims of slots are balanced by OBJECT events, LOST events and pending slots, and no step can leave the buffers.
      */
  lemma ConservationLive(code: Code, worlds: seq<World>, events: seq<Event>, t: nat, a: Action)
    requires Lawful(code) && IsLive(code, worlds, events) && t < |worlds|
    ensures Balanced(worlds[t].system)
    ensures var cfg := Tables(code, worlds[t].link);
            Possible(cfg, worlds[t].system, a) ==> Safe(cfg, worlds[t].system, a)
  {
    var run := LiveIsRun(code, worlds, events, t);
    var cfg := Tables(code, worlds[t].link);
    Conservation(cfg, run, |run.actions|);
    if Possible(cfg, worlds[t].system, a) {
      EveryPossibleStepIsSafe(cfg, run, |run.actions|, a);
    }
  }
}
