/** From a residency's NACK through the bytes of the control stream to the publisher's answer and the delivery. */
module NackPath {
  import opened Bytes
  import opened ErasureCode
  import opened Tracks
  import opened Sender
  import opened Assembler
  import opened Residency
  import opened Protocol
  import opened Delivery
  import opened Guarantees
  import opened Repair
  import opened Lifetime
  import Codec
  import Session
  import Meaning
  import SP = StreamParser

  /** What the control parser of a connection makes of the bytes of a NACK. */
  function Parsed<A(!new)>(react: Session.Reactor<A>, conn: Session.Conn<A>, o: Output)
    : (p: SP.Parsed<Session.Conn<A>, Session.Effect>)
    requires o.Nack? && Codec.Encodable(Message(o))
  {
    SP.Parse(Session.ControlLoop(react), conn, Codec.Encode(Message(o)))
  }

  /** The step the publisher takes when the parser hands it a NACK. */
  function Handled(e: Session.Effect, times: seq<u64>): (a: Action)
    requires e.NackTaken?
  {
    Answer(e.alias, e.groupId, e.objectId, e.missing, times)
  }

  lemma SentResolves(cfg: Config, sent: seq<Sent>, n: nat)
    requires Sane(cfg) && SentOk(cfg, sent) && n < |sent|
    ensures FindByAlias(cfg.senderSubs, sent[n].alias).Some?
  {}

  /** A NACK that any residency of any run sends, listing at most 256 symbols, reaches the publisher as it was sent: its
      bytes have this one effect, none stays unread, and the connection is left as it was. */
  lemma NackHandedOver<A(!new)>(cfg: Config, run: Run, t: nat, k: nat, react: Session.Reactor<A>, conn: Session.Conn<A>)
    requires Sane(cfg) && IsRun(cfg, run) && t < |run.states|
    requires k < |run.states[t].log| && run.states[t].log[k].output.Nack?
    requires |run.states[t].log[k].output.missing| <= 256
    requires Session.GateOpen(conn) && conn.subs == cfg.senderSubs
    ensures var o := run.states[t].log[k].output;
            && Codec.Encodable(Message(o))
            && Parsed(react, conn, o)
               == SP.Parsed(conn, [Session.NackTaken(o.alias, o.groupId, o.objectId, o.missing)], [])
  {
    var o := run.states[t].log[k].output;
    NackEncodable(cfg, run, t, k);
    NackOfSent(cfg, run, t, k);
    HandedOver(react, conn, o);
  }

  lemma NackOfSent(cfg: Config, run: Run, t: nat, k: nat)
    requires Sane(cfg) && IsRun(cfg, run) && t < |run.states|
    requires k < |run.states[t].log| && run.states[t].log[k].output.Nack?
    ensures FindByAlias(cfg.senderSubs, run.states[t].log[k].output.alias).Some?
  {
    RunKeeps(cfg, run, t);
    SentResolves(cfg, run.states[t].sent, run.states[t].log[k].sentIndex);
  }

  lemma HandedOver<A(!new)>(react: Session.Reactor<A>, conn: Session.Conn<A>, o: Output)
    requires o.Nack? && Codec.Encodable(Message(o)) && |o.missing| <= 256
    requires Session.GateOpen(conn) && FindByAlias(conn.subs, o.alias).Some?
    ensures Parsed(react, conn, o)
            == SP.Parsed(conn, [Session.NackTaken(o.alias, o.groupId, o.objectId, o.missing)], [])
  {
    Meaning.NackDoes(react, conn, Message(o), []);
    assert Codec.Encode(Message(o)) + [] == Codec.Encode(Message(o));
  }

  /** A NACK is repaired, from byte to byte. Residency r of slot i sent it in step t; the publisher's parser read its
      bytes, and the publisher took the step these bytes stand for in step c, when the object was still among the last
      32 remembered; every datagram sent in answer arrived before state u; at most 16 slots have been claimed since r;
      and the object has at most 256 symbols beyond ceil(k/2). Then the slot still belongs to r and is decoded, and r
      has delivered its object once. */
  lemma NackBytesRepair<A(!new)>(cfg: Config, run: Run, t: nat, k: nat, i: nat, react: Session.Reactor<A>,
                                 conn: Session.Conn<A>, c: nat, times: seq<u64>, u: nat)
    requires Sane(cfg) && IsRun(cfg, run) && NackSentAt(run, t, k, i) && t < c < u < |run.states|
    requires Session.GateOpen(conn) && conn.subs == cfg.senderSubs
    requires var o := run.states[t + 1].log[k].output;
             && Codec.Encodable(Message(o)) && |Parsed(react, conn, o).effects| == 1
             && var e := Parsed(react, conn, o).effects[0];
                e.NackTaken? && |times| == |e.missing| && run.actions[c] == Handled(e, times)
    requires var n := run.states[t + 1].log[k].sentIndex;
             && n < |run.states[t + 1].sent| && n < |run.states[c].sent| && Recent(run.states[c], n)
             && var x := run.states[t + 1].sent[n]; SentTotal(x) - NackThreshold(x.l.k) <= 256
    requires forall raw :: raw in AnswerOf(cfg, run.states[c], run.actions[c]) ==>
               exists j :: c < j < u && run.actions[j] == Arrive(raw)
    requires run.states[u].claims <= run.states[t + 1].rids[i] + 16
    ensures Sized(run.states[u]) && run.states[u].rids[i] == run.states[t + 1].rids[i]
    ensures run.states[u].receiver.slots[i].decoded
    ensures Tally(run.states[u].log, run.states[u].rids[i], Object) == 1
  {
    BytesAreAnswer(cfg, run, t + 1, k, react, conn, run.actions[c], times);
    NackRepair(cfg, run, t, k, i, c, times, u);
  }

  lemma BytesAreAnswer<A(!new)>(cfg: Config, run: Run, t: nat, k: nat, react: Session.Reactor<A>,
                                conn: Session.Conn<A>, a: Action, times: seq<u64>)
    requires Sane(cfg) && IsRun(cfg, run) && t < |run.states|
    requires k < |run.states[t].log| && run.states[t].log[k].output.Nack?
    requires var n := run.states[t].log[k].sentIndex;
             n < |run.states[t].sent| &&
             var x := run.states[t].sent[n]; SentTotal(x) - NackThreshold(x.l.k) <= 256
    requires Session.GateOpen(conn) && conn.subs == cfg.senderSubs
    requires var o := run.states[t].log[k].output;
             && Codec.Encodable(Message(o)) && |Parsed(react, conn, o).effects| == 1
             && var e := Parsed(react, conn, o).effects[0]; e.NackTaken? && a == Handled(e, times)
    ensures var o := run.states[t].log[k].output;
            a == Answer(o.alias, o.groupId, o.objectId, o.missing, times)
            && Parsed(react, conn, o).effects[0].missing == o.missing
  {
    NackSize(cfg, run, t, k);
    NackHandedOver(cfg, run, t, k, react, conn);
  }
}
