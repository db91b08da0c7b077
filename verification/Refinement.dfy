/** Sessions refine an idealised peer that is never evicted, keeps no MID index and no allocators:
    it looks replies up among the live exchanges and may name a request with anything not in use. */
module Refinement {
  import opened Types
  import opened Messages
  import opened Model
  import opened Agreement

  datatype Ideal = Ideal(live: map<Token, Waiting>, seen: map<Mid, DedupEntry>, owed: map<Token, Mid>)

  function Abstract(o: Option<Session>): Ideal {
    if o.Some? then Ideal(o.value.exchanges, o.value.dedup, o.value.conMids) else Ideal(map[], map[], map[])
  }

  /** Some live un-acknowledged CON exchange, under token t, was sent with MID m. */
  predicate AwaitsAck(live: map<Token, Waiting>, m: Mid, t: Token) { t in live && Holds(live[t], m) }

  /** An ACK or RST with MID m acts on the exchange that awaits it, and on nothing when there is none. */
  ghost predicate IdealReply(a: Ideal, p: Packet, b: Ideal, effects: set<Effect>) {
    if t :| AwaitsAck(a.live, p.messageId, t) then
      var w := a.live[t];
      if p.messageType.Reset? then
        b == a.(live := a.live - {t}) && effects == {Settled(w.caller, WasReset)}
      else if p.code.Empty? then
        b == a.(live := a.live[t := w.(backoff := None)]) && effects == {}
      else if p.code.Response? then
        b == a.(live := a.live - {t}) && effects == {Settled(w.caller, Completed(ResponseFromPacket(p).value))}
      else b == a && effects == {}
    else b == a && effects == {}
  }

  /** A first CON or NON: noted, acknowledged if it asks for it, and handed up. A response ends the live
      request with its token and no other. */
  ghost predicate IdealAccept(a: Ideal, p: Packet, now: Millis, encodes: bool, b: Ideal, effects: set<Effect>) {
    var ack := EmptyAckPacket(p.messageId);
    var acks := p.messageType.Confirmable? && !p.code.Request? && encodes;
    && b.seen == a.seen[p.messageId := DedupEntry(if acks then Some(ack) else None, now)]
    && b.owed == (if p.messageType.Confirmable? && p.code.Request? then a.owed[p.token := p.messageId] else a.owed)
    && b.live == (if p.code.Response? then a.live - {p.token} else a.live)
    && forall f :: f in effects <==>
         || (acks && f == Sent(ack, Immediate))
         || (p.code.Request? && f == Dispatched(p))
         || (p.code.Response? && p.token in a.live
             && f == Settled(a.live[p.token].caller, Completed(ResponseFromPacket(p).value)))
  }

  ghost predicate IdealReceive(a: Ideal, p: Packet, now: Millis, encodes: bool, b: Ideal, effects: set<Effect>) {
    if p.messageType.Acknowledgement? || p.messageType.Reset? then IdealReply(a, p, b, effects)
    else if p.messageId in a.seen then
      && b == a
      && forall f :: f in effects <==>
           p.messageType.Confirmable? && a.seen[p.messageId].cached.Some?
           && f == Sent(a.seen[p.messageId].cached.value, Replayed)
    else IdealAccept(a, p, now, encodes, b, effects)
  }

  ghost predicate Unused(live: map<Token, Waiting>, token: Token, mid: Mid) {
    token !in live && forall t :: t in live ==> live[t].mid != Some(mid)
  }

  ghost predicate IdealRequest(a: Ideal, e: Event, token: Token, mid: Mid, b: Ideal, effects: set<Effect>)
    requires e.arm.ClientRequest?
  {
    var bytes := RequestPacket(e.arm.request, token, mid);
    if e.arm.encodes then
      && Unused(a.live, token, mid)
      && b == a.(live := a.live[token := if e.arm.request.confirmable
                                         then NewCon(e.arm.caller, mid, bytes, e.arm.t0, e.now)
                                         else NewNon(e.arm.caller, e.now)])
      && effects == {Sent(bytes, Copy(e.arm.caller, 0))}
    else b == a && effects == {Settled(e.arm.caller, Unencodable)}
  }

  ghost predicate IdealResponse(a: Ideal, token: Token, r: CoapResponse, encodes: bool, mid: Mid, b: Ideal,
          effects: set<Effect>) {
    if token in a.owed then
      var m := a.owed[token];
      var bytes := ResponsePacket(r, token, m, Acknowledgement);
      && b.live == a.live
      && b.owed == a.owed - {token}
      && b.seen == (if encodes && m in a.seen then a.seen[m := DedupEntry(Some(bytes), a.seen[m].created)] else a.seen)
      && effects == if encodes then {Sent(bytes, Piggybacked)} else {}
    else
      && b == a
      && effects == if encodes then {Sent(ResponsePacket(r, token, mid, NonConfirmable), Separate)} else {}
  }

  ghost predicate IdealStep(a: Ideal, peer: SocketAddr, e: Event, b: Ideal, effects: set<Effect>) {
    if !Concerns(e, peer) then b == a && effects == {}
    else match e.arm
      case Malformed(_) => b == a && effects == {}
      case PacketIn(_, p, encodes, _) => IdealReceive(a, p, e.now, encodes, b, effects)
      case ClientRequest(_, _, _, _, _, _) => exists token, mid :: IdealRequest(a, e, token, mid, b, effects)
      case ServerResponse(_, token, r, encodes, _) => exists mid :: IdealResponse(a, token, r, encodes, mid, b, effects)
      case RetransmissionTimer =>
        && b == Ideal(SweptExchanges(a.live, e.now), FreshDedup(a.seen, e.now), a.owed)
        && effects == SweepEffects(a.live, e.now)
      case CleanupTimer => b == a && effects == {}
  }

  lemma ReplyRefines(s: Session, p: Packet, now: Millis, encodes: bool)
    requires Indexed(s) && MidsApart(s) && (p.messageType.Acknowledgement? || p.messageType.Reset?)
    requires p.messageType.Acknowledgement? ==> p.code.Empty? || p.code.Response?
    ensures var r := Receive(s, p, now, encodes);
      IdealReply(Abstract(Some(s)), p, Abstract(Some(r.state)), r.effects)
  {
    var m := p.messageId;
    assert forall t :: AwaitsAck(s.exchanges, m, t) <==> m in s.midToToken && t == s.midToToken[m];
    if m in s.midToToken {
      assert AwaitsAck(s.exchanges, m, s.midToToken[m]);
    }
  }

  lemma AcceptRefines(s: Session, p: Packet, now: Millis, encodes: bool)
    ensures var r := Accept(s, p, now, encodes);
      IdealAccept(Abstract(Some(s)), p, now, encodes, Abstract(Some(r.state)), r.effects)
  {
  }

  lemma ReceiveRefines(s: Session, p: Packet, now: Millis, encodes: bool)
    requires Indexed(s) && MidsApart(s)
    ensures var r := Receive(s, p, now, encodes);
      IdealReceive(Abstract(Some(s)), p, now, encodes, Abstract(Some(r.state)), r.effects)
  {
    hide Accept, IdealAccept, Indexed, MidsApart;
    if p.messageType.Reset? || (p.messageType.Acknowledgement? && (p.code.Empty? || p.code.Response?)) {
      ReplyRefines(s, p, now, encodes);
    } else if p.messageType.Confirmable? || p.messageType.NonConfirmable? {
      AcceptRefines(s, p, now, encodes);
    }
  }

  lemma RequestRefines(s: Session, e: Event)
    requires e.arm.ClientRequest? && FreshNames(s)
    ensures var r := SendRequest(s, e.arm.caller, e.arm.request, e.arm.encodes, e.arm.t0, e.now);
      IdealRequest(Abstract(Some(s)), e, TokenBytes(s.nextToken), s.nextMid, Abstract(Some(r.state)), r.effects)
  {
    hide TokenBytes, RequestPacket;
  }

  lemma ResponseRefines(s: Session, token: Token, r: CoapResponse, encodes: bool)
    ensures var a := SendResponse(s, token, r, encodes);
      IdealResponse(Abstract(Some(s)), token, r, encodes, s.nextMid, Abstract(Some(a.state)), a.effects)
  {
  }

  /** One step of a session within the window is a step of the ideal peer with the same effects. */
  lemma StepRefines(x: Transition, peer: SocketAddr)
    requires IsStep(x, peer) && Agrees(x.before)
    requires x.event.arm.ClientRequest? && x.before.Some? ==> FreshNames(x.before.value)
    ensures IdealStep(Abstract(x.before), peer, x.event, Abstract(x.after), x.effects)
  {
    hide Receive, SendRequest, SendResponse, IdealReceive, IdealRequest, IdealResponse, TokenBytes;
    if Concerns(x.event, peer) {
      match x.event.arm
      case PacketIn(_, p, encodes, seeds) => ReceiveRefines(Opened(x.before, seeds), p, x.event.now, encodes);
      case ClientRequest(_, _, _, _, _, seeds) => RequestRefines(Opened(x.before, seeds), x.event);
      case ServerResponse(_, token, r, encodes, seeds) => ResponseRefines(Opened(x.before, seeds), token, r, encodes);
      case _ =>
    }
  }

  /** Every run within the window is a run of the ideal peer: lazy creation, eviction, the MID index and
      the wrapping allocators cannot be told apart from it. */
  lemma SessionsRefineIdealPeer(h: History, peer: SocketAddr)
    requires IsRun(h, peer) && Window(h, peer)
    ensures forall i :: 0 <= i < |h| ==>
        IdealStep(Abstract(h[i].before), peer, h[i].event, Abstract(h[i].after), h[i].effects)
  {
    hide IdealStep, IsStep, Agrees, FreshNames, TokenAge, MidAge;
    IndexAgreement(h, peer);
    forall i | 0 <= i < |h|
      ensures IdealStep(Abstract(h[i].before), peer, h[i].event, Abstract(h[i].after), h[i].effects)
    {
      var g := h[..i + 1];
      assert IsRun(g, peer);
      assert Window(g, peer) by {
        assert forall k :: 0 <= k <= i ==> g[..k] == h[..k];
      }
      assert g[i] == h[i];
      if h[i].before.Some? { WindowGivesFreshNames(g, peer); }
      StepRefines(h[i], peer);
    }
  }

  /** The same for every peer of the whole stack. */
  lemma StackRefinesIdealPeers(h: seq<StackTransition>, peer: SocketAddr)
    requires IsStackRun(h) && Window(Project(h, peer), peer)
    ensures forall i :: 0 <= i < |h| ==>
      IdealStep(Abstract(View(h[i].before, peer)), peer, h[i].event, Abstract(View(h[i].after, peer)),
          Project(h, peer)[i].effects)
    ensures forall i, f :: 0 <= i < |h| ==> (f in Project(h, peer)[i].effects <==> PeerEffect(peer, f) in h[i].effects)
  {
    ProjectionIsRun(h, peer);
    hide IsStackRun, IsRun, IdealStep, PeerStep;
    SessionsRefineIdealPeer(Project(h, peer), peer);
  }

  /** All four tables are empty. */
  predicate IsEmpty(s: Session) {
    |s.exchanges| == 0 && |s.midToToken| == 0 && |s.dedup| == 0 && |s.conMids| == 0
  }

  /** Cleanup is invisible: it drops no exchange, dedup record, cached reply or pending CON MID,
      and sends nothing. */
  lemma CleanupIsInvisible(x: Transition, peer: SocketAddr)
    requires IsStep(x, peer) && x.event.arm.CleanupTimer?
    ensures Abstract(x.after) == Abstract(x.before) && x.effects == {}
    ensures x.after.None? <==> x.before.None? || IsEmpty(x.before.value)
  {
  }
}
