/** The event loop: one method per arm, acting on the session of the peer concerned. */
module CoapStacks {
  import opened Types
  import opened Messages
  import opened Model
  import opened Exchanges
  import opened Sessions

  // ---- What one arm does with the session of its peer ----

  /** A CON or NON message: replay, or note, acknowledge and deliver. */
  method HandleMessage(session: PeerSession, p: Packet, now: Millis, encodes: bool) returns (out: seq<Effect>)
    requires session.Valid() && (p.messageType.Confirmable? || p.messageType.NonConfirmable?)
    modifies session.Repr
    ensures session.Valid() && session.Repr == old(session.Repr)
    ensures session.Abs() == Receive(old(session.Abs()), p, now, encodes).state
    ensures Distinct(out) && forall f :: f in out <==> f in Receive(old(session.Abs()), p, now, encodes).effects
  {
    var mid := p.messageId;
    if session.IsDuplicate(mid) {
      var cached := session.GetCachedResponse(mid);
      if p.messageType.Confirmable? && cached.Some? {
        return [Sent(cached.value, Replayed)];
      }
      return [];
    }
    out := AcceptMessage(session, p, now, encodes);
  }

  method AcceptMessage(session: PeerSession, p: Packet, now: Millis, encodes: bool) returns (out: seq<Effect>)
    requires session.Valid()
    modifies session.Repr
    ensures session.Valid() && session.Repr == old(session.Repr)
    ensures session.Abs() == Accept(old(session.Abs()), p, now, encodes).state
    ensures Distinct(out) && forall f :: f in out <==> f in Accept(old(session.Abs()), p, now, encodes).effects
  {
    var mid := p.messageId;
    session.RecordInboundMid(mid, now);
    out := [];
    if p.messageType.Confirmable? {
      if p.code.Request? {
        session.RecordInboundCon(p.token, mid);
      } else if encodes {
        var ack := NEW_PACKET;
        ack := ack.(messageType := Acknowledgement);
        ack := ack.(code := Empty);
        ack := ack.(messageId := mid);
        out := [Sent(ack, Immediate)];
        session.CacheResponseForMid(mid, ack);
      }
    }
    match p.code {
      case Request(_) =>
        out := out + [Dispatched(p)];
      case Response(_) =>
        var matched, done := session.CompleteExchange(p.token, ResponseFromPacket(p).value);
        out := out + done;
      case _ =>
    }
  }

  /** An Acknowledgement: cancel, complete, or ignore. */
  method HandleAcknowledgement(session: PeerSession, p: Packet) returns (out: seq<Effect>)
    requires session.Valid()
    modifies session.Repr
    ensures session.Valid() && session.Repr == old(session.Repr)
    ensures session.Abs() == ReceiveAck(old(session.Abs()), p).state
    ensures Distinct(out) && forall f :: f in out <==> f in ReceiveAck(old(session.Abs()), p).effects
  {
    out := [];
    match p.code {
      case Empty =>
        var _ := session.HandleAck(p.messageId, p);
      case Response(_) =>
        var result := session.HandleAck(p.messageId, p);
        if result.PiggybackedResponse? {
          var _, done := session.CompleteExchange(result.token, ResponseFromPacket(p).value);
          out := done;
        }
      case _ =>
    }
  }

  method HandlePacket(session: PeerSession, p: Packet, now: Millis, encodes: bool) returns (out: seq<Effect>)
    requires session.Valid()
    modifies session.Repr
    ensures session.Valid() && session.Repr == old(session.Repr)
    ensures session.Abs() == Receive(old(session.Abs()), p, now, encodes).state
    ensures Distinct(out) && forall f :: f in out <==> f in Receive(old(session.Abs()), p, now, encodes).effects
  {
    match p.messageType {
      case Confirmable => out := HandleMessage(session, p, now, encodes);
      case NonConfirmable => out := HandleMessage(session, p, now, encodes);
      case Acknowledgement => out := HandleAcknowledgement(session, p);
      case Reset =>
        var _, failed := session.HandleRst(p.messageId);
        out := failed;
    }
  }

  /** A client request: allocate token and MID, build the packet, register the exchange, send. */
  method HandleRequest(session: PeerSession, caller: Caller, r: CoapRequest, encodes: bool, t0: InitialTimeout,
          now: Millis)
    returns (out: seq<Effect>)
    requires session.Valid()
    modifies session.Repr
    ensures session.Valid() && fresh(session.Repr - old(session.Repr)) && old(session.Repr) <= session.Repr
    ensures session.Abs() == SendRequest(old(session.Abs()), caller, r, encodes, t0, now).state
    ensures Distinct(out)
    ensures forall f :: f in out <==> f in SendRequest(old(session.Abs()), caller, r, encodes, t0, now).effects
  {
    hide TokenBytes, RequestPacket;
    var token := session.AllocateToken();
    var mid := session.AllocateMid();
    var pkt := RequestToPacket(r, token, mid);
    if !encodes {
      return [Settled(caller, Unencodable)];
    }
    var displaced := Register(session, caller, r.confirmable, token, mid, pkt, t0, now);
    out := [Sent(pkt, Copy(caller, 0))] + displaced;
    JoinedIsDistinct([Sent(pkt, Copy(caller, 0))], displaced);
  }

  /** Set up the exchange of an encoded request. */
  method Register(session: PeerSession, caller: Caller, confirmable: bool, token: Token, mid: Mid, pkt: Packet,
          t0: InitialTimeout, now: Millis)
    returns (displaced: seq<Effect>)
    requires session.Valid()
    modifies session
    ensures session.Valid() && fresh(session.Repr - old(session.Repr)) && old(session.Repr) <= session.Repr
    ensures session.Abs() ==
            if confirmable
            then
              var con := NewCon(caller, mid, pkt, t0, now);
              old(session.Abs()).(midToToken := old(session.midToToken)[mid := token],
                                  exchanges := old(session.Abs()).exchanges[token := con])
            else old(session.Abs()).(exchanges := old(session.Abs()).exchanges[token := NewNon(caller, now)])
    ensures Distinct(displaced) && forall f :: f in displaced <==> f in DisplacedBy(old(session.Abs()), token)
  {
    hide PeerSession.Valid, PeerSession.Waiters;
    if confirmable {
      var exchange := new Exchange.NewCon(caller, mid, pkt, t0, now);
      displaced := session.InsertConExchange(token, mid, exchange);
    } else {
      var exchange := new Exchange.NewNon(caller, now);
      displaced := session.InsertExchange(token, exchange);
    }
  }

  /** A server response: piggybacked if its request was CON, else a separate NON response. */
  method HandleResponse(session: PeerSession, token: Token, r: CoapResponse, encodes: bool) returns (out: seq<Effect>)
    requires session.Valid()
    modifies session.Repr
    ensures session.Valid() && session.Repr == old(session.Repr)
    ensures session.Abs() == SendResponse(old(session.Abs()), token, r, encodes).state
    ensures Distinct(out) && forall f :: f in out <==> f in SendResponse(old(session.Abs()), token, r, encodes).effects
  {
    out := [];
    var conMid := session.TakeInboundConMid(token);
    if conMid.Some? {
      var bytes := ResponseToPacket(r, token, conMid.value, Acknowledgement);
      if encodes {
        session.CacheResponseForMid(conMid.value, bytes);
        out := [Sent(bytes, Piggybacked)];
      }
    } else {
      var mid := session.AllocateMid();
      var bytes := ResponseToPacket(r, token, mid, NonConfirmable);
      if encodes {
        out := [Sent(bytes, Separate)];
      }
    }
  }

  /** Housekeeping of one session when the retransmission timer fires. */
  method HandleTimer(session: PeerSession, now: Millis) returns (out: seq<Effect>)
    requires session.Valid()
    modifies session.Repr
    ensures session.Valid() && session.Repr == old(session.Repr)
    ensures session.Abs() == Sweep(old(session.Abs()), now).state
    ensures forall f :: f in out <==> f in Sweep(old(session.Abs()), now).effects
    ensures CallersApart(old(session.Abs()).exchanges) ==> Distinct(out)
  {
    hide SweepEffects, SweptExchanges, GivenUpMids, FreshDedup;
    var sent, failed, _ := session.CollectRetransmissions(now);
    session.EvictStaleDedup(now);
    out := sent + failed;
  }

  // ---- The stack ----

  function Tagged(peer: SocketAddr, out: seq<Effect>): (r: seq<PeerEffect>)
    ensures |r| == |out| && forall i :: 0 <= i < |r| ==> r[i] == PeerEffect(peer, out[i])
    ensures forall f :: f in r <==> f.peer == peer && f.effect in out
  {
    if out == [] then [] else [PeerEffect(peer, out[0])] + Tagged(peer, out[1..])
  }

  lemma TaggedIsDistinct(peer: SocketAddr, out: seq<Effect>)
    requires Distinct(out)
    ensures Distinct(Tagged(peer, out))
  {
  }

  lemma JoinedIsDistinct<T(!new)>(a: seq<T>, b: seq<T>)
    requires Distinct(a) && Distinct(b) && forall x :: x in a ==> x !in b
    ensures Distinct(a + b)
  {
    assert forall i :: 0 <= i < |a| ==> a[i] in a;
  }

  /** In no session do two live exchanges answer to the same caller. */
  ghost predicate AllApart(st: Stack) {
    forall p :: p in st.sessions ==> CallersApart(st.sessions[p].exchanges)
  }

  class CoapStack {
    var sessions: map<SocketAddr, PeerSession>
    var nextCleanup: Millis
    ghost var Repr: set<object>

    /** The stack owns its sessions, and they share nothing. */
    ghost predicate Valid()
      reads this, Repr
    {
      && this in Repr
      && (forall p :: p in sessions ==>
            && sessions[p] in Repr && sessions[p] in sessions[p].Repr && sessions[p].Repr <= Repr
                && this !in sessions[p].Repr
            && sessions[p].Valid() && sessions[p].peer == p)
      && (forall p, q :: p in sessions && q in sessions && p != q ==> sessions[p].Repr !! sessions[q].Repr)
    }

    ghost function Abs(): Stack
      requires Valid()
      reads this, Repr
    {
      Stack(map p | p in sessions :: sessions[p].Abs(), nextCleanup)
    }

    constructor (now: Millis)
      ensures Valid() && fresh(Repr) && Abs() == Stack(map[], now + IDLE_SESSION_CLEANUP_INTERVAL)
    {
      sessions := map[];
      nextCleanup := now + IDLE_SESSION_CLEANUP_INTERVAL;
      Repr := {this};
    }

    /** The session of a peer, created on first use. */
    method SessionFor(peer: SocketAddr, seeds: Seeds) returns (session: PeerSession)
      requires Valid()
      modifies this
      ensures Valid() && fresh(Repr - old(Repr)) && old(Repr) <= Repr
      ensures peer in sessions && session == sessions[peer]
      ensures session.Valid() && session.Abs() == Opened(Model.View(old(Abs()), peer), seeds)
      ensures Abs() == old(Abs()).(sessions := old(Abs()).sessions[peer := Opened(Model.View(old(Abs()), peer), seeds)])
    {
      hide PeerSession.Valid, PeerSession.Abs;
      if peer !in sessions {
        session := new PeerSession(peer, seeds);
        assert forall p :: p in sessions ==> session.Repr !! sessions[p].Repr;
        sessions := sessions[peer := session];
        Repr := Repr + session.Repr;
      }
      session := sessions[peer];
      assert Abs().sessions == old(Abs()).sessions[peer := Opened(Model.View(old(Abs()), peer), seeds)];
    }

    /** Inbound: packet from the network. `None` stands for bytes that do not parse. */
    method OnPacket(now: Millis, peer: SocketAddr, packet: Option<Packet>, encodes: bool, seeds: Seeds)
      returns (out: seq<PeerEffect>)
      requires Valid()
      modifies Repr
      ensures Valid() && fresh(Repr - old(Repr))
      ensures var e := Event(now, if packet.Some? then PacketIn(peer, packet.value, encodes, seeds)
          else Malformed(peer));
        && Abs() == StackStep(old(Abs()), e).state
        && Distinct(out)
        && forall f :: f in out <==> f in StackStep(old(Abs()), e).effects
    {
      if packet.None? {
        return [];
      }
      ghost var st := Abs();
      assert this in Repr;
      hide StackStep, Receive, Valid, Abs, Tagged;
      var _ := SessionFor(peer, seeds);
      ghost var mid := Abs();
      var effects := PacketAt(peer, packet.value, now, encodes);
      out := Tagged(peer, effects);
      TaggedIsDistinct(peer, effects);
      UpdatedTwice(st, mid, Abs(), peer);
      PacketStep(st, now, peer, packet.value, encodes, seeds, Abs().sessions[peer], effects);
    }

    method PacketAt(peer: SocketAddr, p: Packet, now: Millis, encodes: bool) returns (effects: seq<Effect>)
      requires Valid() && peer in sessions
      modifies Repr
      ensures Valid() && fresh(Repr - old(Repr))
      ensures peer in old(Abs()).sessions
      ensures var a := Receive(old(Abs()).sessions[peer], p, now, encodes);
        && Abs() == old(Abs()).(sessions := old(Abs()).sessions[peer := a.state])
        && Distinct(effects)
        && forall f :: f in effects <==> f in a.effects
    {
      hide Receive, PeerSession.Valid, PeerSession.Abs;
      ghost var st := Abs();
      var session := sessions[peer];
      effects := HandlePacket(session, p, now, encodes);
      assert Abs().sessions == st.sessions[peer := session.Abs()];
    }

    /** The outbound request arm. */
    method OnClientRequest(now: Millis, peer: SocketAddr, caller: Caller, r: CoapRequest, encodes: bool,
            t0: InitialTimeout, seeds: Seeds)
      returns (out: seq<PeerEffect>)
      requires Valid()
      modifies Repr
      ensures Valid() && fresh(Repr - old(Repr))
      ensures var e := Event(now, ClientRequest(peer, caller, r, encodes, t0, seeds));
        && Abs() == StackStep(old(Abs()), e).state
        && Distinct(out)
        && forall f :: f in out <==> f in StackStep(old(Abs()), e).effects
    {
      ghost var st := Abs();
      assert this in Repr;
      hide StackStep, SendRequest, Valid, Abs, Tagged;
      var _ := SessionFor(peer, seeds);
      ghost var mid := Abs();
      var effects := RequestAt(peer, caller, r, encodes, t0, now);
      out := Tagged(peer, effects);
      TaggedIsDistinct(peer, effects);
      UpdatedTwice(st, mid, Abs(), peer);
      RequestStep(st, now, peer, caller, r, encodes, t0, seeds, Abs().sessions[peer], effects);
    }

    method RequestAt(peer: SocketAddr, caller: Caller, r: CoapRequest, encodes: bool, t0: InitialTimeout,
            now: Millis)
      returns (effects: seq<Effect>)
      requires Valid() && peer in sessions
      modifies Repr
      ensures Valid() && fresh(Repr - old(Repr))
      ensures peer in old(Abs()).sessions
      ensures var a := SendRequest(old(Abs()).sessions[peer], caller, r, encodes, t0, now);
        && Abs() == old(Abs()).(sessions := old(Abs()).sessions[peer := a.state])
        && Distinct(effects)
        && forall f :: f in effects <==> f in a.effects
    {
      hide SendRequest, PeerSession.Valid, PeerSession.Abs;
      ghost var st := Abs();
      var session := sessions[peer];
      effects := HandleRequest(session, caller, r, encodes, t0, now);
      forall p | p in sessions && p != peer
        ensures sessions[p].Valid() && sessions[p].Repr == old(sessions[p].Repr) && session.Repr !! sessions[p].Repr
        ensures sessions[p].Abs() == st.sessions[p]
      {
      }
      Repr := Repr + session.Repr;
      assert Abs().sessions == st.sessions[peer := session.Abs()];
    }

    /** The outbound response arm. */
    method OnServerResponse(now: Millis, peer: SocketAddr, token: Token, r: CoapResponse, encodes: bool,
            seeds: Seeds)
      returns (out: seq<PeerEffect>)
      requires Valid()
      modifies Repr
      ensures Valid() && fresh(Repr - old(Repr))
      ensures var e := Event(now, ServerResponse(peer, token, r, encodes, seeds));
        && Abs() == StackStep(old(Abs()), e).state
        && Distinct(out)
        && forall f :: f in out <==> f in StackStep(old(Abs()), e).effects
    {
      ghost var st := Abs();
      assert this in Repr;
      hide StackStep, SendResponse, Valid, Abs, Tagged;
      var _ := SessionFor(peer, seeds);
      ghost var mid := Abs();
      var effects := ResponseAt(peer, token, r, encodes);
      out := Tagged(peer, effects);
      TaggedIsDistinct(peer, effects);
      UpdatedTwice(st, mid, Abs(), peer);
      ResponseStep(st, now, peer, token, r, encodes, seeds, Abs().sessions[peer], effects);
    }

    method ResponseAt(peer: SocketAddr, token: Token, r: CoapResponse, encodes: bool) returns (effects: seq<Effect>)
      requires Valid() && peer in sessions
      modifies Repr
      ensures Valid() && fresh(Repr - old(Repr))
      ensures peer in old(Abs()).sessions
      ensures var a := SendResponse(old(Abs()).sessions[peer], token, r, encodes);
        && Abs() == old(Abs()).(sessions := old(Abs()).sessions[peer := a.state])
        && Distinct(effects)
        && forall f :: f in effects <==> f in a.effects
    {
      hide SendResponse, PeerSession.Valid, PeerSession.Abs;
      ghost var st := Abs();
      var session := sessions[peer];
      effects := HandleResponse(session, token, r, encodes);
      assert Abs().sessions == st.sessions[peer := session.Abs()];
    }

    lemma SameKeys()
      requires Valid()
      ensures Abs().sessions.Keys == sessions.Keys && Abs().nextCleanup == nextCleanup
    {
    }

    /** Retransmission timer: sweep every session, then send what they collected. */
    method OnRetransmissionTimer(now: Millis) returns (out: seq<PeerEffect>)
      requires Valid()
      modifies Repr
      ensures Valid() && Repr == old(Repr)
      ensures var e := Event(now, RetransmissionTimer);
        && Abs() == StackStep(old(Abs()), e).state
        && (AllApart(old(Abs())) ==> Distinct(out))
        && forall f :: f in out <==> f in StackStep(old(Abs()), e).effects
    {
      hide StackStep, Valid, Abs, Collected;
      ghost var st := Abs();
      SameKeys();
      out := [];
      var todo := sessions.Keys;
      NoneCollected(st, now);
      while todo != {}
        invariant Valid() && Repr == old(Repr) && sessions == old(sessions)
        invariant todo <= sessions.Keys == st.sessions.Keys == Abs().sessions.Keys
        invariant Collected(st, Abs(), todo, now, out)
        decreases |todo|
      {
        var p :| p in todo;
        ghost var cur := Abs();
        var effects := SweepOne(p, now);
        CollectedNext(st, cur, todo, now, out, p, effects);
        todo := todo - {p};
        out := out + Tagged(p, effects);
      }
      TimerStep(st, now, Abs(), out);
    }

    method SweepOne(p: SocketAddr, now: Millis) returns (effects: seq<Effect>)
      requires Valid() && p in sessions
      modifies Repr
      ensures Valid() && Repr == old(Repr) && sessions == old(sessions)
      ensures p in old(Abs()).sessions
      ensures Abs() == old(Abs()).(sessions := old(Abs()).sessions[p := Sweep(old(Abs()).sessions[p], now).state])
      ensures forall f :: f in effects <==> f in Sweep(old(Abs()).sessions[p], now).effects
      ensures CallersApart(old(Abs()).sessions[p].exchanges) ==> Distinct(effects)
    {
      hide Sweep, PeerSession.Valid, PeerSession.Abs;
      effects := HandleTimer(sessions[p], now);
      assert Abs().sessions == old(Abs()).sessions[p := sessions[p].Abs()];
    }

    /** Session idle timeout: keep the sessions that are not idle. */
    method OnCleanupTimer(now: Millis)
      requires Valid()
      modifies this
      ensures Valid() && Repr == old(Repr)
      ensures Abs() == StackStep(old(Abs()), Event(now, CleanupTimer)).state
    {
      hide StackStep, Idle, Valid, Abs;
      ghost var st := Abs();
      var kept := Busy();
      Retain(kept, now + IDLE_SESSION_CLEANUP_INTERVAL);
      CleanupStep(st, now, Abs());
    }

    method Retain(kept: map<SocketAddr, PeerSession>, cleanup: Millis)
      requires Valid() && forall p :: p in kept ==> p in sessions && kept[p] == sessions[p]
      modifies this
      ensures Valid() && Repr == old(Repr)
      ensures Abs().nextCleanup == cleanup && Abs().sessions.Keys == kept.Keys <= old(Abs()).sessions.Keys
      ensures forall p :: p in kept ==> Abs().sessions[p] == old(Abs()).sessions[p]
    {
      hide PeerSession.Valid, PeerSession.Abs;
      sessions := kept;
      nextCleanup := cleanup;
    }

    /** The sessions that are not idle. */
    method Busy() returns (kept: map<SocketAddr, PeerSession>)
      requires Valid()
      ensures forall p :: p in kept <==> p in Abs().sessions && !Idle(Abs().sessions[p])
      ensures forall p :: p in kept ==> p in sessions && kept[p] == sessions[p]
    {
      hide Valid, Abs, Idle;
      SameKeys();
      kept := map[];
      var todo := sessions.Keys;
      while todo != {}
        invariant todo <= sessions.Keys
        invariant forall p :: p in kept <==> p in Abs().sessions && p !in todo && !Idle(Abs().sessions[p])
        invariant forall p :: p in kept ==> p in sessions && kept[p] == sessions[p]
        decreases |todo|
      {
        var p :| p in todo;
        todo := todo - {p};
        var idle := IdleAt(p);
        if !idle {
          kept := kept[p := sessions[p]];
        }
      }
    }

    method IdleAt(p: SocketAddr) returns (idle: bool)
      requires Valid() && p in sessions
      ensures p in Abs().sessions && idle == Idle(Abs().sessions[p])
    {
      hide PeerSession.Valid, PeerSession.Abs;
      idle := sessions[p].IsIdle();
    }

    /** What the loop sleeps until: the least of the sessions' own deadlines. */
    method NextDeadline() returns (next: Option<Millis>)
      requires Valid()
      ensures IsNextDeadline(Live(Abs()), next)
    {
      hide IsNextAmong, Live, PeerSession.Valid, PeerSession.Abs;
      ghost var st := Abs();
      next := None;
      var todo := sessions.Keys;
      NoneLooked(st, todo);
      while todo != {}
        invariant todo <= sessions.Keys == st.sessions.Keys
        invariant IsNextAmong(Live(st), Within(st, sessions.Keys - todo), next)
        decreases |todo|
      {
        var p :| p in todo;
        var deadline := sessions[p].NextRetransmitDeadline();
        OneMore(st, sessions.Keys - todo, p, next, deadline);
        assert sessions.Keys - (todo - {p}) == sessions.Keys - todo + {p};
        todo := todo - {p};
        if deadline.Some? && (next.None? || deadline.value < next.value) {
          next := deadline;
        }
      }
      assert sessions.Keys - todo == st.sessions.Keys;
      AllLooked(st);
    }
  }

  // ---- The arms as steps of the model ----

  lemma UpdatedTwice(st: Stack, mid: Stack, end: Stack, peer: SocketAddr)
    requires peer in mid.sessions && mid == st.(sessions := st.sessions[peer := mid.sessions[peer]])
    requires peer in end.sessions && end == mid.(sessions := mid.sessions[peer := end.sessions[peer]])
    ensures end == Stack(st.sessions[peer := end.sessions[peer]], st.nextCleanup)
  {
    assert end.sessions == st.sessions[peer := end.sessions[peer]];
  }

  lemma PacketStep(st: Stack, now: Millis, peer: SocketAddr, p: Packet, encodes: bool, seeds: Seeds,
          session: Session, out: seq<Effect>)
    requires var a := Receive(Opened(Model.View(st, peer), seeds), p, now, encodes);
      session == a.state && forall f :: f in out <==> f in a.effects
    ensures var a := StackStep(st, Event(now, PacketIn(peer, p, encodes, seeds)));
      a.state == Stack(st.sessions[peer := session], st.nextCleanup) && forall f :: f in Tagged(peer, out) <==>
          f in a.effects
  {
    hide Receive;
  }

  lemma RequestStep(st: Stack, now: Millis, peer: SocketAddr, caller: Caller, r: CoapRequest, encodes: bool,
          t0: InitialTimeout, seeds: Seeds, session: Session, out: seq<Effect>)
    requires var a := SendRequest(Opened(Model.View(st, peer), seeds), caller, r, encodes, t0, now);
      session == a.state && forall f :: f in out <==> f in a.effects
    ensures var a := StackStep(st, Event(now, ClientRequest(peer, caller, r, encodes, t0, seeds)));
      a.state == Stack(st.sessions[peer := session], st.nextCleanup) && forall f :: f in Tagged(peer, out) <==>
          f in a.effects
  {
    hide SendRequest;
  }

  lemma ResponseStep(st: Stack, now: Millis, peer: SocketAddr, token: Token, r: CoapResponse, encodes: bool,
          seeds: Seeds, session: Session, out: seq<Effect>)
    requires var a := SendResponse(Opened(Model.View(st, peer), seeds), token, r, encodes);
      session == a.state && forall f :: f in out <==> f in a.effects
    ensures var a := StackStep(st, Event(now, ServerResponse(peer, token, r, encodes, seeds)));
      a.state == Stack(st.sessions[peer := session], st.nextCleanup) && forall f :: f in Tagged(peer, out) <==>
          f in a.effects
  {
    hide SendResponse;
  }

  /** All sessions but those in `todo` have been swept, and `out` holds what they gave, each once. */
  ghost predicate Collected(st: Stack, cur: Stack, todo: set<SocketAddr>, now: Millis, out: seq<PeerEffect>) {
    && cur.sessions.Keys == st.sessions.Keys && cur.nextCleanup == st.nextCleanup
    && (forall p :: p in st.sessions ==>
          cur.sessions[p] == if p in todo then st.sessions[p] else Sweep(st.sessions[p], now).state)
    && (forall f :: f in out <==>
          f.peer in st.sessions && f.peer !in todo && f.effect in Sweep(st.sessions[f.peer], now).effects)
    && (AllApart(st) ==> Distinct(out))
  }

  lemma NoneCollected(st: Stack, now: Millis)
    ensures Collected(st, st, st.sessions.Keys, now, [])
  {
    hide Sweep;
  }

  lemma CollectedNext(st: Stack, cur: Stack, todo: set<SocketAddr>, now: Millis, out: seq<PeerEffect>, p: SocketAddr,
          effects: seq<Effect>)
    requires Collected(st, cur, todo, now, out) && p in todo && p in st.sessions
    requires forall f :: f in effects <==> f in Sweep(cur.sessions[p], now).effects
    requires CallersApart(cur.sessions[p].exchanges) ==> Distinct(effects)
    ensures Collected(st, cur.(sessions := cur.sessions[p := Sweep(cur.sessions[p], now).state]), todo - {p}, now,
                      out + Tagged(p, effects))
  {
    hide Sweep, CallersApart, Distinct, Tagged;
    if AllApart(st) {
      TaggedIsDistinct(p, effects);
      JoinedIsDistinct(out, Tagged(p, effects));
    }
  }

  lemma TimerStep(st: Stack, now: Millis, swept: Stack, out: seq<PeerEffect>)
    requires Collected(st, swept, {}, now, out)
    ensures var a := StackStep(st, Event(now, RetransmissionTimer));
      a.state == swept && (AllApart(st) ==> Distinct(out)) && forall f :: f in out <==> f in a.effects
  {
    hide Sweep;
    assert forall f: PeerEffect :: f == PeerEffect(f.peer, f.effect);
  }

  lemma CleanupStep(st: Stack, now: Millis, kept: Stack)
    requires kept.nextCleanup == now + IDLE_SESSION_CLEANUP_INTERVAL
    requires forall p :: p in kept.sessions <==> p in st.sessions && !Idle(st.sessions[p])
    requires forall p :: p in kept.sessions ==> kept.sessions[p] == st.sessions[p]
    ensures StackStep(st, Event(now, CleanupTimer)).state == kept
  {
    hide Idle;
  }

  // ---- The least deadline, session by session ----

  function Within(st: Stack, peers: set<SocketAddr>): set<(SocketAddr, Token)> { set k | k in Live(st) && k.0 in peers }

  lemma NoneLooked(st: Stack, todo: set<SocketAddr>)
    ensures IsNextAmong(Live(st), Within(st, todo - todo), None)
  {
  }

  lemma AllLooked(st: Stack)
    ensures Within(st, st.sessions.Keys) == Live(st).Keys
  {
    assert forall k :: k in Live(st) ==> k.0 in st.sessions;
  }

  lemma OneMore(st: Stack, peers: set<SocketAddr>, p: SocketAddr, next: Option<Millis>, deadline: Option<Millis>)
    requires p in st.sessions && IsNextAmong(Live(st), Within(st, peers), next)
    requires IsNextDeadline(st.sessions[p].exchanges, deadline)
    ensures IsNextAmong(Live(st), Within(st, peers + {p}),
                        if deadline.Some? && (next.None? || deadline.value < next.value) then deadline else next)
  {
    var m := st.sessions[p].exchanges;
    assert forall t :: t in m ==> (p, t) in Live(st) && Live(st)[(p, t)] == m[t];
    assert forall k :: k in Live(st) && k.0 == p ==> k.1 in m && Live(st)[k] == m[k.1];
    if deadline.Some? {
      var t :| t in m && Deadline(m[t]) == deadline;
      assert (p, t) in Within(st, peers + {p});
    }
  }
}
