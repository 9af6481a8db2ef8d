/** The FEC object protocol as a two-endpoint step system. One endpoint publishes objects and answers NACKs;
    the other assembles them; between them is a network that may drop, duplicate and reorder datagrams. */
module Protocol {
  import opened Bytes
  import opened ErasureCode
  import opened Tracks
  import opened Wire
  import opened Sender
  import opened Assembler
  import opened Residency
  import Codec

  datatype Config = Config(code: Code, senderSubs: seq<Entry>, receiverSubs: seq<Entry>)

  /** Unnamed tracks are known by their type alone, which the alias space reserves below 8. */
  predicate ValidTrack(t: TrackId) { t.name == [] ==> t.kind < FIRST_NAMED_ALIAS }

  /** Aliases and tracks of a table determine each other. */
  ghost predicate Bijective(subs: seq<Entry>) {
    && (forall a: byte :: FindByAlias(subs, a).Some? ==> FindByTrack(subs, FindByAlias(subs, a).value) == Some(a))
    && Agreed(subs, subs)
  }

  /** Every alias the sender uses means the same track at the receiver. */
  ghost predicate Agreed(senderSubs: seq<Entry>, receiverSubs: seq<Entry>) {
    forall t: TrackId :: ValidTrack(t) && FindByTrack(senderSubs, t).Some? ==>
      var there := FindByAlias(receiverSubs, FindByTrack(senderSubs, t).value);
      there.Some? && SameTrack(there.value, t)
  }

  ghost predicate Sane(cfg: Config) {
    Lawful(cfg.code) && Bijective(cfg.senderSubs) && Agreed(cfg.senderSubs, cfg.receiverSubs)
  }

  /** One output of the receiver, with history: the residency and the published object it belongs to,
      and which symbols the slot had at that moment. */
  datatype Record = Record(rid: nat, sentIndex: nat, output: Output, mask: seq<bool>)

  /** A DATA object as the publisher remembers it; sentAs is its number among the objects sent, or None for a stray, an
      object that was published when no peer could get it. */
  datatype Kept = Kept(item: Item, l: Layout, sentAs: Option<nat>)

  /** `sent` are the objects sent to the peer and `kept` the DATA objects remembered, strays included, oldest first.
      `net` holds every datagram ever handed to the network. A residency is one claim of a slot; residencies are
      numbered by `claims`, and `rids` and `owners` give each slot's residency and published object. */
  datatype System = System(
    ring: Ring, receiver: Receiver, sent: seq<Sent>, kept: seq<Kept>, net: set<Block>,
    claims: nat, rids: seq<nat>, owners: seq<nat>, log: seq<Record>)

  function Init(): (s: System)
  {
    System(EmptyRing(), NewReceiver(), [], [], {}, 0,
           seq(ASSEMBLER_CACHE_SIZE, _ => 0), seq(ASSEMBLER_CACHE_SIZE, _ => 0), [])
  }

  /** Publishes to the subscribed peer; publishes a DATA object when there is no peer, or none that has subscribed to
      it; handles a NACK as the control parser hands it over; takes a datagram from the network. */
  datatype Action =
    | Publish(item: Item, l: Layout, paths: seq<byte>, times: seq<u64>)
    | Stash(item: Item, l: Layout)
    | Answer(alias: byte, groupId: nat, objectId: nat, missing: seq<nat>, repairTimes: seq<u64>)
    | Arrive(raw: Block)

  predicate SameKey(a: Sent, b: Sent) {
    a.alias == b.alias && a.item.groupId == b.item.groupId && a.item.objectId == b.item.objectId
  }

  /** What the code lets happen: an object within the limits is published, with or without a peer for it; any NACK is
      handled; a datagram arrives if it was ever sent, any number of times, in any order. */
  ghost predicate Possible(cfg: Config, s: System, a: Action) {
    match a
    case Publish(item, l, paths, times) =>
      && InLimits(item, l) && |paths| == |times| == l.k + l.p
      && ValidTrack(item.track) && FindByTrack(cfg.senderSubs, item.track).Some?
    case Stash(item, l) => InLimits(item, l) && item.track.kind == TRACK_DATA
    case Answer(_, _, _, missing, repairTimes) => |missing| == |repairTimes| && |missing| <= Codec.MAX_NACK
    case Arrive(raw) => raw in s.net
  }

  /** Object m is one of the last 32 remembered. */
  predicate Remembered(s: System, m: nat) { m < |s.kept| <= m + 32 }

  /** The place of the ring where a search for this alias, group and object ends holds a stray. */
  ghost predicate FindsStray(cfg: Config, s: System, alias: byte, groupId: nat, objectId: nat) {
    var track := FindByAlias(cfg.senderSubs, alias);
    track.Some? &&
    exists m: nat :: Remembered(s, m) && s.kept[m].sentAs.None?
                && IndexOfCached(s.ring.slots, track.value, groupId, objectId) == m % SENT_CACHE_SIZE
  }

  /** Objects are told apart: no key is used for two objects sent, and no NACK is answered from a stray. */
  ghost predicate Regular(cfg: Config, s: System, a: Action)
    requires Possible(cfg, s, a)
  {
    match a
    case Publish(item, l, _, _) =>
      forall i :: 0 <= i < |s.sent| ==>
        !SameKey(s.sent[i], Sent(item, FindByTrack(cfg.senderSubs, item.track).value, l))
    case Answer(alias, groupId, objectId, _, _) => !FindsStray(cfg, s, alias, groupId, objectId)
    case _ => true
  }

  ghost predicate Enabled(cfg: Config, s: System, a: Action) { Possible(cfg, s, a) && Regular(cfg, s, a) }

  /** The memory assumptions under which the C code of a step is defined. */
  ghost predicate Safe(cfg: Config, s: System, a: Action) {
    && Lawful(cfg.code)
    && match a
       case Publish(item, l, _, _) => |Symbols(cfg.code, item, l)| == l.k + l.p && s.ring.next < |s.ring.slots|
       case Stash(_, _) => s.ring.next < |s.ring.slots|
       case Answer(_, _, _, _, _) => RingShape(cfg.code, s.ring.slots)
       case Arrive(raw) =>
         && ReceiverShape(s.receiver) && |s.rids| == |s.owners| == ASSEMBLER_CACHE_SIZE
         && var admitted := Admit(cfg.receiverSubs, raw);
            admitted.Some? ==> InBounds(Target(s.receiver, admitted.value.0), admitted.value.0)
  }

  /** The publisher's memory after one more object. */
  function Remembering(s: System, item: Item, l: Layout, sentAs: Option<nat>): (s': System)
    requires s.ring.next < |s.ring.slots|
  {
    if item.track.kind == TRACK_DATA then
      s.(ring := Remember(s.ring, Cache(item, l)), kept := s.kept + [Kept(item, l, sentAs)])
    else s
  }

  ghost function Published(cfg: Config, s: System, item: Item, l: Layout, paths: seq<byte>, times: seq<u64>)
    : (s': System)
    requires Possible(cfg, s, Publish(item, l, paths, times)) && Safe(cfg, s, Publish(item, l, paths, times))
  {
    var alias := FindByTrack(cfg.senderSubs, item.track).value;
    var out := PublishDatagrams(cfg.code, item, alias, l, paths, times);
    Remembering(s, item, l, Some(|s.sent|)).(sent := s.sent + [Sent(item, alias, l)],
                                             net := s.net + (set raw | raw in out))
  }

  ghost function Answered(cfg: Config, s: System, alias: byte, groupId: nat, objectId: nat,
                          missing: seq<nat>, times: seq<u64>): (s': System)
    requires RingShape(cfg.code, s.ring.slots) && |missing| == |times|
  {
    var out := HandleNack(cfg.code, s.ring.slots, cfg.senderSubs, alias, groupId, objectId, missing, times);
    s.(net := s.net + (set raw | raw in out))
  }

  predicate KeyOf(x: Sent, h: Header) {
    x.alias == h.alias && x.item.groupId == h.groupId && x.item.objectId == h.objectId
  }

  /** The published object with the header's key, or |sent|. */
  ghost function SentFor(sent: seq<Sent>, h: Header): (n: nat)
    ensures n <= |sent| && (n < |sent| ==> KeyOf(sent[n], h))
    ensures n == |sent| ==> forall i :: 0 <= i < |sent| ==> !KeyOf(sent[i], h)
  {
    if n :| 0 <= n < |sent| && KeyOf(sent[n], h) then n else |sent|
  }

  ghost function Arrived(cfg: Config, s: System, raw: Block): (s': System)
    requires Safe(cfg, s, Arrive(raw))
  {
    var reaction := Receive(cfg.code, cfg.receiverSubs, s.receiver, raw);
    var admitted := Admit(cfg.receiverSubs, raw);
    if admitted.None? then s.(receiver := reaction.receiver)
    else
      var h := admitted.value.0;
      var i, resident := Locate(s.receiver, h), Resident(s.receiver, h);
      Noted(s, reaction, i, resident, if resident then s.owners[i] else SentFor(s.sent, h))
  }

  /** The receiver's reaction with the history it makes: slot i, resident or newly claimed, works on object n. */
  ghost function Noted(s: System, reaction: Reaction, i: nat, resident: bool, n: nat): (s': System)
    requires ReceiverShape(s.receiver) && ReceiverShape(reaction.receiver)
    requires |s.rids| == |s.owners| == ASSEMBLER_CACHE_SIZE && i < ASSEMBLER_CACHE_SIZE
  {
    var rid := if resident then s.rids[i] else s.claims;
    var ended := Stamp(s.rids[i], s.owners[i], s.receiver.slots[i].mask);
    var now := Stamp(rid, n, reaction.receiver.slots[i].mask);
    s.(receiver := reaction.receiver,
       claims := if resident then s.claims else s.claims + 1,
       rids := s.rids[i := rid], owners := s.owners[i := n],
       log := s.log + Tagged(reaction.outputs, ended, now))
  }

  datatype Stamp = Stamp(rid: nat, sentIndex: nat, mask: seq<bool>)

  /** A LOST event belongs to the residency that ends, everything else to the one that goes on. */
  function Tag(o: Output, ended: Stamp, now: Stamp): (e: Record)
  {
    var stamp := if o.Lost? then ended else now;
    Record(stamp.rid, stamp.sentIndex, o, stamp.mask)
  }

  function Tagged(outputs: seq<Output>, ended: Stamp, now: Stamp): (r: seq<Record>)
    ensures |r| == |outputs|
    ensures forall k :: 0 <= k < |r| ==> r[k] == Tag(outputs[k], ended, now)
  {
    seq(|outputs|, k requires 0 <= k < |outputs| => Tag(outputs[k], ended, now))
  }

  ghost function Step(cfg: Config, s: System, a: Action): (s': System)
    requires Possible(cfg, s, a) && Safe(cfg, s, a)
  {
    match a
    case Publish(item, l, paths, times) => Published(cfg, s, item, l, paths, times)
    case Stash(item, l) => Remembering(s, item, l, None)
    case Answer(alias, groupId, objectId, missing, times) =>
      Answered(cfg, s, alias, groupId, objectId, missing, times)
    case Arrive(raw) => Arrived(cfg, s, raw)
  }

  ghost predicate StepsTo(cfg: Config, s: System, a: Action, s': System) {
    Enabled(cfg, s, a) && Safe(cfg, s, a) && s' == Step(cfg, s, a)
  }

  /** A run: the actions taken, and the states before, between and after them. Every step of it is regular. */
  datatype Run = Run(states: seq<System>, actions: seq<Action>)

  ghost predicate IsRun(cfg: Config, run: Run) {
    && |run.states| == |run.actions| + 1
    && run.states[0] == Init()
    && forall k: nat :: k < |run.actions| ==> StepAt(cfg, run, k)
  }

  ghost predicate StepAt(cfg: Config, run: Run, k: nat) {
    k < |run.actions| && k + 1 < |run.states| && StepsTo(cfg, run.states[k], run.actions[k], run.states[k + 1])
  }

  /** Whatever the code lets happen, one step after the other, inside the memory it has. */
  ghost predicate IsTrace(cfg: Config, run: Run) {
    && |run.states| == |run.actions| + 1
    && run.states[0] == Init()
    && forall k: nat :: k < |run.actions| ==> GoesAt(cfg, run, k)
  }

  ghost predicate GoesAt(cfg: Config, run: Run, k: nat) {
    k < |run.actions| && k + 1 < |run.states| && GoesTo(cfg, run.states[k], run.actions[k], run.states[k + 1])
  }

  ghost predicate GoesTo(cfg: Config, s: System, a: Action, s': System) {
    Possible(cfg, s, a) && Safe(cfg, s, a) && s' == Step(cfg, s, a)
  }
}
