/** Which request an answer ends. */
module Correlation {
  import opened Types
  import opened Messages
  import opened Model
  import opened Changes
  import opened Agreement
  import opened Conservation
  import opened Refinement

  /** The packet a request of this step is sent as. */
  function PacketOf(x: Transition): Packet
    requires x.event.arm.ClientRequest?
  {
    RequestPacket(x.event.arm.request, TokenTaken(x), Opened(x.before, x.event.arm.seeds).nextMid)
  }

  /** The step took the request of caller c and sent it for the first time. */
  predicate Originates(x: Transition, peer: SocketAddr, c: Caller) {
    && TakenAt(x, peer, c)
    && x.event.arm.encodes
    && Sent(PacketOf(x), Copy(c, 0)) in x.effects
  }

  /** The step is where exchange w under token t began. */
  predicate Began(x: Transition, peer: SocketAddr, t: Token, w: Waiting) {
    && Originates(x, peer, w.caller)
    && PacketOf(x).token == t
    && (w.mid.Some? ==> w.mid.value == PacketOf(x).messageId && PacketOf(x).messageType == Confirmable)
    && (w.backoff.Some? ==> w.backoff.value.bytes == PacketOf(x))
  }

  ghost predicate BeganIn(h: History, peer: SocketAddr, t: Token, w: Waiting) {
    exists i :: 0 <= i < |h| && Began(h[i], peer, t, w)
  }

  lemma OpeningBegins(x: Transition, peer: SocketAddr, c: Change)
    requires IsStep(x, peer) && Summarises(c, LiveOf(x.before), LiveOf(x.after), x.effects) && Caused(x, peer, c)
        && c.Open?
    ensures Began(x, peer, c.token, c.waiting)
  {
    hide IsStep, TokenBytes;
    assert Tells(LiveOf(x.before), c, Sent(c.bytes, Copy(c.waiting.caller, 0)));
  }

  lemma BeginningsCarryOver(h: History, peer: SocketAddr, t: Token)
    requires h != [] && IsStep(h[|h| - 1], peer) && t in LiveOf(Last(h))
    requires t in LiveOf(h[|h| - 1].before) ==> BeganIn(Prefix(h), peer, t, LiveOf(h[|h| - 1].before)[t])
    ensures BeganIn(h, peer, t, LiveOf(Last(h))[t])
  {
    var x := h[|h| - 1];
    var w' := LiveOf(x.after)[t];
    var c := StepIsChange(x, peer);
    if c.Open? { OpeningBegins(x, peer, c); }
    hide IsStep, TokenBytes, Originates;
    if c.Open? && t == c.token {
      assert Began(h[|h| - 1], peer, t, w');
    } else {
      var w := LiveOf(x.before)[t];
      assert w'.caller == w.caller && w'.mid == w.mid
          && (w'.backoff.Some? ==> w.backoff.Some? && w'.backoff.value.bytes == w.backoff.value.bytes);
      var i :| 0 <= i < |Prefix(h)| && Began(Prefix(h)[i], peer, t, w);
      assert Began(h[i], peer, t, w');
    }
  }

  lemma {:induction false} EveryExchangeBegan(h: History, peer: SocketAddr)
    requires IsRun(h, peer)
    ensures forall t :: t in LiveOf(Last(h)) ==> BeganIn(h, peer, t, LiveOf(Last(h))[t])
    decreases |h|
  {
    if h != [] {
      PrefixIsRun(h, peer);
      EveryExchangeBegan(Prefix(h), peer);
      hide IsRun, IsStep, BeganIn;
      forall t | t in LiveOf(Last(h))
        ensures BeganIn(h, peer, t, LiveOf(Last(h))[t])
      {
        BeginningsCarryOver(h, peer, t);
      }
    }
  }

  /** Packet q is the answer that ends request packet p with outcome o: an ACK or RST answers by MID,
      a separate response by token. */
  predicate Answers(q: Packet, p: Packet, o: Outcome) {
    match q.messageType
    case Acknowledgement =>
      q.code.Response? && p.messageType == Confirmable && q.messageId == p.messageId
          && o == Completed(ResponseFromPacket(q).value)
    case Reset => p.messageType == Confirmable && q.messageId == p.messageId && o == WasReset
    case _ => q.code.Response? && q.token == p.token && o == Completed(ResponseFromPacket(q).value)
  }

  /** The live exchange a response or reset ends, and how the packet matches it. */
  ghost predicate EndsBy(live: map<Token, Waiting>, q: Packet, c: Caller, o: Outcome, t: Token) {
    && t in live && live[t].caller == c
    && match q.messageType
       case Acknowledgement => q.code.Response? && Holds(live[t], q.messageId)
           && o == Completed(ResponseFromPacket(q).value)
       case Reset => Holds(live[t], q.messageId) && o == WasReset
       case _ => q.code.Response? && q.token == t && o == Completed(ResponseFromPacket(q).value)
  }

  lemma IdealReceiveEnds(a: Ideal, q: Packet, now: Millis, encodes: bool, b: Ideal, effects: set<Effect>, c: Caller,
          o: Outcome)
    requires IdealReceive(a, q, now, encodes, b, effects) && Settled(c, o) in effects
    ensures exists t :: EndsBy(a.live, q, c, o, t)
  {
    hide TokenBytes;
    if q.messageType.Acknowledgement? || q.messageType.Reset? {
      var t :| AwaitsAck(a.live, q.messageId, t) && a.live[t].caller == c;
      assert EndsBy(a.live, q, c, o, t);
    } else {
      assert EndsBy(a.live, q, c, o, q.token);
    }
  }

  lemma StepEnds(x: Transition, peer: SocketAddr, c: Caller, o: Outcome)
    requires IsStep(x, peer) && IdealStep(Abstract(x.before), peer, x.event, Abstract(x.after), x.effects)
    requires SettledAt(x, c, o) && (o.Completed? || o.WasReset?)
    ensures x.event.arm.PacketIn? && x.event.arm.peer == peer
    ensures exists t :: EndsBy(LiveOf(x.before), x.event.arm.packet, c, o, t)
  {
    var change := StepIsChange(x, peer);
    hide IsStep, IdealReceive, EndsBy, TokenBytes;
    assert Tells(LiveOf(x.before), change, Settled(c, o));
    IdealReceiveEnds(Abstract(x.before), x.event.arm.packet, x.event.now, x.event.arm.encodes, Abstract(x.after),
        x.effects, c, o);
  }

  /** In a run within the window, whatever ends a request with a response or a reset is a packet that
      answers the very packet this caller's request was first sent as, earlier in the run. */
  lemma AnswersMatchTheirRequest(h: History, peer: SocketAddr, j: nat, c: Caller, o: Outcome)
    requires IsRun(h, peer) && Window(h, peer) && j < |h|
    requires SettledAt(h[j], c, o) && (o.Completed? || o.WasReset?)
    ensures h[j].event.arm.PacketIn? && h[j].event.arm.peer == peer
    ensures exists i :: 0 <= i < j && Originates(h[i], peer, c) && Answers(h[j].event.arm.packet, PacketOf(h[i]), o)
  {
    SessionsRefineIdealPeer(h, peer);
    PrefixIsBefore(h, peer, j);
    EveryExchangeBegan(h[..j], peer);
    hide IsRun, IsStep, IdealStep, Window, Originates, SettledAt, PacketOf, Answers, BeganIn;
    StepEnds(h[j], peer, c, o);
    var t :| EndsBy(LiveOf(h[j].before), h[j].event.arm.packet, c, o, t);
    var i := AnswersBeginning(h[..j], peer, LiveOf(h[j].before), h[j].event.arm.packet, c, o, t);
    assert h[..j][i] == h[i];
  }

  lemma AnswersBeginning(h: History, peer: SocketAddr, live: map<Token, Waiting>, q: Packet, c: Caller, o: Outcome,
          t: Token)
    returns (i: nat)
    requires EndsBy(live, q, c, o, t) && BeganIn(h, peer, t, live[t])
    ensures i < |h| && Originates(h[i], peer, c) && Answers(q, PacketOf(h[i]), o)
  {
    hide Originates, PacketOf;
    i :| 0 <= i < |h| && Began(h[i], peer, t, live[t]);
  }

  lemma PrefixIsBefore(h: History, peer: SocketAddr, j: nat)
    requires IsRun(h, peer) && j < |h|
    ensures IsRun(h[..j], peer) && Last(h[..j]) == h[j].before && IsStep(h[j], peer)
  {
    hide IsStep;
    assert j > 0 ==> h[j].before == h[j - 1].after;
    forall i | 0 < i < j
      ensures h[..j][i].before == h[..j][i - 1].after
    {
      assert h[i].before == h[i - 1].after;
    }
  }

  /** The MID index leads from m to the exchange under t. */
  predicate LeadsTo(s: Session, m: Mid, t: Token) { m in s.midToToken && s.midToToken[m] == t }

  /** The packets that end the live request under token t: an ACK with a response or an RST, whose MID is indexed to it;
      a response with its token, as a CON or NON message whose MID is not remembered. */
  predicate Ends(o: Option<Session>, t: Token, q: Packet)
    requires t in LiveOf(o)
  {
    match q.messageType
    case Acknowledgement => q.code.Response? && LeadsTo(o.value, q.messageId, t)
    case Reset => LeadsTo(o.value, q.messageId, t)
    case _ => q.code.Response? && q.token == t && q.messageId !in Abstract(o).seen
  }

  /** The answer a packet that ends a request stands for. */
  function AnswerIn(q: Packet): Outcome
    requires q.messageType.Reset? || q.code.Response?
  {
    if q.messageType.Reset? then WasReset else Completed(ResponseFromPacket(q).value)
  }

  /** The packet ends the exchange under t, that one alone, and tells its caller the answer and nobody anything else. */
  ghost predicate EndsOnly(s: Session, t: Token, q: Packet, a: After)
    requires t in s.exchanges
  {
    && (q.messageType.Reset? || q.code.Response?)
    && a.state.exchanges == s.exchanges - {t}
    && forall c, o :: Settled(c, o) in a.effects <==> c == s.exchanges[t].caller && o == AnswerIn(q)
  }

  lemma ReplyEndsIff(s: Session, q: Packet, t: Token, now: Millis, encodes: bool)
    requires t in s.exchanges && (q.messageType.Acknowledgement? || q.messageType.Reset?)
    ensures var a := Receive(s, q, now, encodes);
      && (t !in a.state.exchanges <==> Ends(Some(s), t, q))
      && (Ends(Some(s), t, q) ==> EndsOnly(s, t, q, a))
  {
    hide Accept;
  }

  lemma MessageEndsIff(s: Session, q: Packet, t: Token, now: Millis, encodes: bool)
    requires t in s.exchanges && (q.messageType.Confirmable? || q.messageType.NonConfirmable?)
    ensures var a := Receive(s, q, now, encodes);
      && (t !in a.state.exchanges <==> Ends(Some(s), t, q))
      && (Ends(Some(s), t, q) ==> EndsOnly(s, t, q, a))
  {
    hide ReceiveAck, HandleRst;
  }

  /** A packet ends a live request if and only if it is one of these. It then ends that one alone, with its answer;
      otherwise the request lives on. */
  lemma RequestEndsIff(x: Transition, peer: SocketAddr, t: Token)
    requires IsStep(x, peer) && t in LiveOf(x.before)
    requires x.event.arm.PacketIn? && x.event.arm.peer == peer
    ensures t !in LiveOf(x.after) <==> Ends(x.before, t, x.event.arm.packet)
    ensures Ends(x.before, t, x.event.arm.packet) ==>
              EndsOnly(x.before.value, t, x.event.arm.packet, After(x.after.value, x.effects))
  {
    hide Receive, Ends, EndsOnly;
    var q := x.event.arm.packet;
    if q.messageType.Acknowledgement? || q.messageType.Reset? {
      ReplyEndsIff(x.before.value, q, t, x.event.now, x.event.arm.encodes);
    } else {
      MessageEndsIff(x.before.value, q, t, x.event.now, x.event.arm.encodes);
    }
  }

  /** While the index is exact, it leads to the request of an ACK or RST until the request's empty ACK has come. */
  lemma LeadsToHolder(s: Session, m: Mid, t: Token)
    requires Indexed(s) && t in s.exchanges
    ensures LeadsTo(s, m, t) <==> Holds(s.exchanges[t], m)
  {
  }

  /** Within the window, then, an ACK response or RST ends a live request exactly if it carries the MID of the request
      and no empty ACK for it has come. */
  lemma RepliesEndByMidIff(h: History, peer: SocketAddr, j: nat, t: Token)
    requires IsRun(h, peer) && Window(h, peer) && j < |h| && t in LiveOf(h[j].before)
    requires h[j].event.arm.PacketIn? && h[j].event.arm.peer == peer
    requires h[j].event.arm.packet.messageType.Reset?
      || (h[j].event.arm.packet.messageType.Acknowledgement? && h[j].event.arm.packet.code.Response?)
    ensures t !in LiveOf(h[j].after) <==> Holds(LiveOf(h[j].before)[t], h[j].event.arm.packet.messageId)
  {
    IndexAgreement(h, peer);
    PrefixIsBefore(h, peer, j);
    hide IsRun, IsStep, Window, Indexed, MidsApart;
    RequestEndsIff(h[j], peer, t);
    LeadsToHolder(h[j].before.value, h[j].event.arm.packet.messageId, t);
  }
}
