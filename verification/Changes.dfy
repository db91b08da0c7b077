/** What one step can do to a peer's live exchanges, and what it tells their callers. */
module Changes {
  import opened Types
  import opened Messages
  import opened Model

  function LiveOf(o: Option<Session>): map<Token, Waiting> {
    if o.Some? then o.value.exchanges else map[]
  }

  datatype Change =
    | Nothing
    | Quiet(token: Token)
    | Close(token: Token, outcome: Outcome)
    | Refuse(caller: Caller)
    | Open(token: Token, waiting: Waiting, bytes: Packet)
    | SweepAll(now: Millis)

  ghost predicate Applicable(live: map<Token, Waiting>, c: Change) {
    && (c.Quiet? ==> c.token in live && live[c.token].backoff.Some?)
    && (c.Close? ==> c.token in live && (c.outcome.Completed? || c.outcome.WasReset?))
  }

  function Apply(live: map<Token, Waiting>, c: Change): map<Token, Waiting> {
    match c
    case Quiet(t) => if t in live then live[t := live[t].(backoff := None)] else live
    case Close(t, _) => live - {t}
    case Open(t, w, _) => live[t := w]
    case SweepAll(now) => SweptExchanges(live, now)
    case _ => live
  }

  /** Copies of requests and settlements: the effects that concern a caller. */
  predicate Tracked(f: Effect) { f.Settled? || (f.Sent? && f.reason.Copy?) }

  /** The tracked effects of a change. */
  ghost predicate Tells(live: map<Token, Waiting>, c: Change, f: Effect) {
    match c
    case Close(t, outcome) => t in live && f == Settled(live[t].caller, outcome)
    case Refuse(caller) => f == Settled(caller, Unencodable)
    case Open(t, w, bytes) =>
      || f == Sent(bytes, Copy(w.caller, 0))
      || (t in live && f == Settled(live[t].caller, Displaced))
    case SweepAll(now) =>
      exists t :: t in live && (if Resends(live[t], now) then f == ResentCopy(live[t])
                                else GivenUp(live[t], now) && f == Expiry(live[t]))
    case _ => false
  }

  /** Which events cause which change. */
  ghost predicate Caused(x: Transition, peer: SocketAddr, c: Change) {
    && Concerns(x.event, peer)
    && match c
       case Nothing => true
       case Quiet(t) => x.event.arm.PacketIn?
       case Close(t, outcome) => x.event.arm.PacketIn?
       case Refuse(caller) => x.event.arm.ClientRequest? && x.event.arm.caller == caller && !x.event.arm.encodes
       case Open(t, w, bytes) =>
         && x.event.arm.ClientRequest?
         && x.event.arm.encodes
         && var s := Opened(x.before, x.event.arm.seeds);
            && t == TokenBytes(s.nextToken)
            && bytes == RequestPacket(x.event.arm.request, t, s.nextMid)
            && w == if x.event.arm.request.confirmable
                    then NewCon(x.event.arm.caller, s.nextMid, bytes, x.event.arm.t0, x.event.now)
                    else NewNon(x.event.arm.caller, x.event.now)
       case SweepAll(now) => x.event.arm.RetransmissionTimer? && now == x.event.now
  }

  ghost predicate Summarises(c: Change, live: map<Token, Waiting>, after: map<Token, Waiting>, effects: set<Effect>) {
    && Applicable(live, c)
    && after == Apply(live, c)
    && forall f :: Tracked(f) ==> (f in effects <==> Tells(live, c, f))
  }

  lemma AckChange(s: Session, p: Packet) returns (c: Change)
    ensures Summarises(c, s.exchanges, ReceiveAck(s, p).state.exchanges, ReceiveAck(s, p).effects)
    ensures c.Nothing? || c.Quiet? || c.Close?
  {
    var m := p.messageId;
    c := Nothing;
    if m in s.midToToken && s.midToToken[m] in s.exchanges {
      var t := s.midToToken[m];
      if p.code.Empty? {
        c := if s.exchanges[t].backoff.Some? then Quiet(t) else Nothing;
        assert s.exchanges[t].backoff.None? ==> s.exchanges[t := s.exchanges[t].(backoff := None)] == s.exchanges;
      } else if p.code.Response? {
        c := Close(t, Completed(ResponseFromPacket(p).value));
      }
    }
  }

  lemma AcceptChange(s: Session, p: Packet, now: Millis, encodes: bool) returns (c: Change)
    ensures Summarises(c, s.exchanges, Accept(s, p, now, encodes).state.exchanges, Accept(s, p, now, encodes).effects)
    ensures c.Nothing? || c.Close?
  {
    c := Nothing;
    if p.code.Response? && p.token in s.exchanges {
      c := Close(p.token, Completed(ResponseFromPacket(p).value));
    }
  }

  lemma ReceiveChange(s: Session, p: Packet, now: Millis, encodes: bool) returns (c: Change)
    ensures Summarises(c, s.exchanges, Receive(s, p, now, encodes).state.exchanges, Receive(s, p, now, encodes).effects)
    ensures c.Nothing? || c.Quiet? || c.Close?
  {
    hide Accept, ReceiveAck, Replay;
    match p.messageType
    case Acknowledgement => c := AckChange(s, p);
    case Reset =>
      c := if p.messageId in s.midToToken && s.midToToken[p.messageId] in s.exchanges
        then Close(s.midToToken[p.messageId], WasReset) else Nothing;
    case _ =>
      if p.messageId in s.dedup {
        ReplayIsUntracked(s, p);
        c := Nothing;
      } else {
        c := AcceptChange(s, p, now, encodes);
      }
  }

  lemma ReplayIsUntracked(s: Session, p: Packet)
    requires p.messageId in s.dedup
    ensures forall f :: f in Replay(s, p) ==> !Tracked(f)
  {
  }

  lemma SweepChange(s: Session, now: Millis)
    ensures Summarises(SweepAll(now), s.exchanges, Sweep(s, now).state.exchanges, Sweep(s, now).effects)
  {
  }

  lemma SendRequestChange(s: Session, caller: Caller, r: CoapRequest, encodes: bool, t0: Millis, now: Millis)
    returns (c: Change)
    ensures var a := SendRequest(s, caller, r, encodes, t0, now);
      && Summarises(c, s.exchanges, a.state.exchanges, a.effects)
      && (if encodes then
            c.Open? && c.token == TokenBytes(s.nextToken)
            && c.bytes == RequestPacket(r, c.token, s.nextMid)
            && c.waiting == (if r.confirmable then NewCon(caller, s.nextMid, c.bytes, t0, now) else NewNon(caller, now))
          else c == Refuse(caller))
  {
    hide TokenBytes, RequestPacket;
    var t := TokenBytes(s.nextToken);
    var bytes := RequestPacket(r, t, s.nextMid);
    c := if encodes
      then Open(t, if r.confirmable then NewCon(caller, s.nextMid, bytes, t0, now) else NewNon(caller, now), bytes)
      else Refuse(caller);
  }

  /** Every step is one of the changes, and tells callers exactly what the change says. */
  lemma StepIsChange(x: Transition, peer: SocketAddr) returns (c: Change)
    requires IsStep(x, peer)
    ensures Summarises(c, LiveOf(x.before), LiveOf(x.after), x.effects)
    ensures c != Nothing ==> Caused(x, peer, c)
    ensures x.event.arm.ClientRequest? && x.event.arm.peer == peer ==> c.Open? || c.Refuse?
    ensures x.event.arm.RetransmissionTimer? && x.before.Some? ==> c == SweepAll(x.event.now)
  {
    hide Receive, SendRequest, Sweep, TokenBytes, RequestPacket, Summarises;
    c := Nothing;
    assert Summarises(Nothing, LiveOf(x.before), LiveOf(x.before), {}) by { NothingChange(LiveOf(x.before), {}); }
    if Concerns(x.event, peer) {
      match x.event.arm
      case PacketIn(_, p, encodes, seeds) =>
        c := ReceiveChange(Opened(x.before, seeds), p, x.event.now, encodes);
      case ClientRequest(_, caller, r, encodes, t0, seeds) =>
        c := SendRequestChange(Opened(x.before, seeds), caller, r, encodes, t0, x.event.now);
      case ServerResponse(_, token, r, encodes, seeds) =>
        NothingChange(LiveOf(x.before), x.effects);
      case RetransmissionTimer =>
        if x.before.Some? {
          SweepChange(x.before.value, x.event.now);
          c := SweepAll(x.event.now);
        }
      case _ =>
    }
  }

  lemma NothingChange(live: map<Token, Waiting>, effects: set<Effect>)
    requires forall f :: f in effects ==> !Tracked(f)
    ensures Summarises(Nothing, live, live, effects)
  {
  }
}
