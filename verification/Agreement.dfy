/** The MID index of a session, and the allocation window under which it is exact. */
module Agreement {
  import opened Types
  import opened Messages
  import opened Model
  import opened Changes

  // ---- What every exchange looks like ----

  /** A CON exchange has a MID and no expiry; a NON exchange has an expiry, no MID and no retransmission. */
  predicate Formed(w: Waiting) {
    && (w.mid.Some? <==> w.expiresAt.None?)
    && (w.backoff.Some? ==>
          w.mid.Some? && w.backoff.value.count <= 4 && w.backoff.value.timeout > 0)
  }

  /** The packet kept for retransmission carries the exchange's own token and MID. */
  predicate Shaped(t: Token, w: Waiting) {
    && Formed(w)
    && (w.backoff.Some? ==> w.backoff.value.bytes.token == t && w.backoff.value.bytes.messageId == w.mid.value)
  }

  ghost predicate AllShaped(live: map<Token, Waiting>) {
    forall t :: t in live ==> Shaped(t, live[t])
  }

  lemma StepKeepsShapes(x: Transition, peer: SocketAddr)
    requires IsStep(x, peer) && AllShaped(LiveOf(x.before))
    ensures AllShaped(LiveOf(x.after))
  {
    var c := StepIsChange(x, peer);
    hide IsStep, TokenBytes;
  }

  // ---- Index agreement ----

  /** `midToToken` is exactly the inverse of the MIDs of the un-acknowledged CON exchanges. */
  ghost predicate Indexed(s: Session) {
    && (forall m :: m in s.midToToken ==>
          s.midToToken[m] in s.exchanges && Holds(s.exchanges[s.midToToken[m]], m))
    && (forall t :: t in s.exchanges && s.exchanges[t].backoff.Some? ==>
          && s.exchanges[t].mid.Some?
          && s.exchanges[t].mid.value in s.midToToken
          && s.midToToken[s.exchanges[t].mid.value] == t)
  }

  /** An un-acknowledged CON exchange sent with MID m. */
  predicate Holds(w: Waiting, m: Mid) { w.backoff.Some? && w.mid == Some(m) }

  /** No two live exchanges were sent with the same MID, acknowledged or not. */
  ghost predicate MidsApart(s: Session) {
    forall t, u ::
      t in s.exchanges && u in s.exchanges && s.exchanges[t].mid.Some? && s.exchanges[t].mid == s.exchanges[u].mid
      ==> t == u
  }

  ghost predicate Agrees(o: Option<Session>) {
    o.Some? ==> Indexed(o.value) && MidsApart(o.value)
  }

  /** The token and MID the next request takes are used by no live exchange. */
  ghost predicate FreshNames(s: Session) {
    && TokenBytes(s.nextToken) !in s.exchanges
    && forall t :: t in s.exchanges ==> s.exchanges[t].mid != Some(s.nextMid)
  }

  lemma CompletionKeepsAgreement(s: Session, token: Token, r: CoapResponse)
    requires Indexed(s) && MidsApart(s) && AllShaped(s.exchanges)
    ensures Indexed(CompleteExchange(s, token, r).state) && MidsApart(CompleteExchange(s, token, r).state)
  {
  }

  lemma AcceptKeepsAgreement(s: Session, p: Packet, now: Millis, encodes: bool)
    requires Indexed(s) && MidsApart(s) && AllShaped(s.exchanges)
    ensures Indexed(Accept(s, p, now, encodes).state) && MidsApart(Accept(s, p, now, encodes).state)
  {
    hide CompleteExchange;
    if p.code.Response? {
      var acked := AcknowledgeNow(RecordInboundMid(s, p.messageId, now), p, encodes).state;
      CompletionKeepsAgreement(acked, p.token, ResponseFromPacket(p).value);
    }
  }

  lemma AckKeepsAgreement(s: Session, p: Packet)
    requires Indexed(s) && MidsApart(s)
    ensures Indexed(ReceiveAck(s, p).state) && MidsApart(ReceiveAck(s, p).state)
  {
  }

  lemma RstKeepsAgreement(s: Session, mid: Mid)
    requires Indexed(s) && MidsApart(s)
    ensures Indexed(HandleRst(s, mid).state) && MidsApart(HandleRst(s, mid).state)
  {
  }

  lemma SweepKeepsAgreement(s: Session, now: Millis)
    requires Indexed(s) && MidsApart(s) && AllShaped(s.exchanges)
    ensures Indexed(Sweep(s, now).state) && MidsApart(Sweep(s, now).state)
  {
    var s' := Sweep(s, now).state;
    forall m | m in s'.midToToken
      ensures s'.midToToken[m] in s'.exchanges && Holds(s'.exchanges[s'.midToToken[m]], m)
    {
      var t := s.midToToken[m];
      assert GivenUp(s.exchanges[t], now) ==> m in GivenUpMids(s.exchanges, now);
    }
  }

  lemma RequestKeepsAgreement(s: Session, caller: Caller, r: CoapRequest, encodes: bool, t0: Millis, now: Millis)
    requires Indexed(s) && MidsApart(s) && FreshNames(s)
    ensures var s' := SendRequest(s, caller, r, encodes, t0, now).state; Indexed(s') && MidsApart(s')
  {
    hide TokenBytes, RequestPacket;
  }

  lemma StepKeepsAgreement(x: Transition, peer: SocketAddr)
    requires IsStep(x, peer) && AllShaped(LiveOf(x.before)) && Agrees(x.before)
    requires x.event.arm.ClientRequest? && x.before.Some? ==> FreshNames(x.before.value)
    ensures Agrees(x.after)
  {
    hide Accept, ReceiveAck, HandleRst, SendRequest, Sweep, TokenBytes, AllShaped;
    if Concerns(x.event, peer) {
      match x.event.arm
      case PacketIn(_, p, encodes, seeds) =>
        var s := Opened(x.before, seeds);
        AcceptKeepsAgreement(s, p, x.event.now, encodes);
        AckKeepsAgreement(s, p);
        RstKeepsAgreement(s, p.messageId);
      case ClientRequest(_, caller, r, encodes, t0, seeds) =>
        RequestKeepsAgreement(Opened(x.before, seeds), caller, r, encodes, t0, x.event.now);
      case RetransmissionTimer =>
        if x.before.Some? { SweepKeepsAgreement(x.before.value, x.event.now); }
      case _ =>
    }
  }

  /** Registering a request keeps the index exact if and only if the new token and the new MID
      hit the same un-acknowledged CON exchanges. */
  lemma RequestKeepsIndexIff(s: Session, caller: Caller, r: CoapRequest, t0: Millis, now: Millis)
    requires Indexed(s)
    ensures Indexed(SendRequest(s, caller, r, true, t0, now).state) <==>
            forall t :: t in s.exchanges && s.exchanges[t].backoff.Some? ==>
              if r.confirmable
              then (t == TokenBytes(s.nextToken) <==> s.exchanges[t].mid == Some(s.nextMid))
              else t != TokenBytes(s.nextToken)
  {
    var s' := SendRequest(s, caller, r, true, t0, now).state;
    var token := TokenBytes(s.nextToken);
    forall t | t in s.exchanges && s.exchanges[t].backoff.Some?
      ensures s.exchanges[t].mid.Some? && s.midToToken[s.exchanges[t].mid.value] == t
      ensures t != token ==> t in s'.exchanges && s'.exchanges[t] == s.exchanges[t]
    {
    }
    if Indexed(s') && token in s.exchanges && s.exchanges[token].backoff.Some? {
      var m := s.exchanges[token].mid.value;
      assert m in s'.midToToken && s'.midToToken[m] == token;
    }
  }

  /** Completing an exchange by its token keeps the index exact if and only if the exchange is
      un-acknowledged or its old MID has not been indexed again for a later request. */
  lemma CompletionKeepsIndexIff(s: Session, token: Token, response: CoapResponse)
    requires Indexed(s) && AllShaped(s.exchanges) && token in s.exchanges
    ensures Indexed(CompleteExchange(s, token, response).state) <==>
            var w := s.exchanges[token];
            w.backoff.Some? || w.mid.None? || w.mid.value !in s.midToToken
  {
    var w := s.exchanges[token];
    var s' := CompleteExchange(s, token, response).state;
    if w.backoff.None? && w.mid.Some? && w.mid.value in s.midToToken {
      var u := s.midToToken[w.mid.value];
      assert u in s'.exchanges && s'.exchanges[u] == s.exchanges[u];
    }
  }

  // ---- The allocation window ----

  lemma TokenBytesInjective(a: TokenNumber, b: TokenNumber)
    requires TokenBytes(a) == TokenBytes(b)
    ensures a == b
  {
    assert TokenBytes(a)[0] == TokenBytes(b)[0] && TokenBytes(a)[1] == TokenBytes(b)[1];
    assert TokenBytes(a)[2] == TokenBytes(b)[2] && TokenBytes(a)[3] == TokenBytes(b)[3];
    assert a / 0x1_0000 / 256 == a / 0x100_0000 && b / 0x1_0000 / 256 == b / 0x100_0000;
    assert a / 256 / 256 == a / 0x1_0000 && b / 256 / 256 == b / 0x1_0000;
  }

  /** The allocator value `age` allocations ago. */
  function TokenBack(n: TokenNumber, age: nat): TokenNumber { (n - age) % TOKEN_SPACE }

  function MidBack(m: Mid, age: nat): Mid { (m - age) % MID_SPACE }

  lemma TokenBackSteps(n: TokenNumber, age: nat)
    ensures TokenBack(NextToken(n), 1) == n
    ensures TokenBack(NextToken(n), age + 1) == TokenBack(n, age)
    ensures TokenBack(n, age) == n <==> age % TOKEN_SPACE == 0
  {
  }

  lemma MidBackSteps(m: Mid, age: nat)
    ensures MidBack(NextMid(m), 1) == m
    ensures MidBack(NextMid(m), age + 1) == MidBack(m, age)
    ensures MidBack(m, age) == m <==> age % MID_SPACE == 0
  {
  }

  predicate SpendsToken(x: Transition, peer: SocketAddr) {
    x.event.arm.ClientRequest? && x.event.arm.peer == peer
  }

  /** Requests take a MID, and so do responses that are not piggybacked. */
  predicate SpendsMid(x: Transition, peer: SocketAddr) {
    || SpendsToken(x, peer)
    || (x.event.arm.ServerResponse? && x.event.arm.peer == peer
        && x.event.arm.token !in Opened(x.before, x.event.arm.seeds).conMids)
  }

  /** The step registers an exchange under token `t`. */
  predicate Registers(x: Transition, peer: SocketAddr, t: Token) {
    SpendsToken(x, peer) && x.event.arm.encodes && TokenBytes(Opened(x.before, x.event.arm.seeds).nextToken) == t
  }

  /** Tokens allocated since the latest exchange under `t` was registered, its own included. */
  function TokenAge(h: History, peer: SocketAddr, t: Token): nat {
    if h == [] then 0
    else if Registers(h[|h| - 1], peer, t) then 1
    else TokenAge(Prefix(h), peer, t) + if SpendsToken(h[|h| - 1], peer) then 1 else 0
  }

  /** MIDs allocated since then, likewise. */
  function MidAge(h: History, peer: SocketAddr, t: Token): nat {
    if h == [] then 0
    else if Registers(h[|h| - 1], peer, t) then 1
    else MidAge(Prefix(h), peer, t) + if SpendsMid(h[|h| - 1], peer) then 1 else 0
  }

  /** Fewer than 2^32 tokens are allocated for the peer while an exchange is live, and fewer than 2^16 MIDs
      while one that took a MID is. */
  ghost predicate Window(h: History, peer: SocketAddr) {
    forall i, t :: 0 <= i < |h| && h[i].before.Some? && t in h[i].before.value.exchanges ==>
      && TokenAge(h[..i], peer, t) < TOKEN_SPACE
      && (h[i].before.value.exchanges[t].mid.Some? ==> MidAge(h[..i], peer, t) < MID_SPACE)
  }

  /** Every live exchange's token and MID are the allocator values of its age. */
  ghost predicate Aged(h: History, peer: SocketAddr) {
    Last(h).Some? ==> forall t :: t in Last(h).value.exchanges ==>
      && TokenAge(h, peer, t) > 0 && MidAge(h, peer, t) > 0
      && t == TokenBytes(TokenBack(Last(h).value.nextToken, TokenAge(h, peer, t)))
      && (Last(h).value.exchanges[t].mid.Some? ==>
            Last(h).value.exchanges[t].mid.value == MidBack(Last(h).value.nextMid, MidAge(h, peer, t)))
  }

  lemma PrefixKeepsWindow(h: History, peer: SocketAddr)
    requires h != [] && Window(h, peer)
    ensures Window(Prefix(h), peer)
  {
    hide TokenAge, MidAge;
    assert forall i :: 0 <= i < |h| ==> Prefix(h)[..i] == h[..i];
  }

  lemma {:induction false} RunIsShaped(h: History, peer: SocketAddr)
    requires IsRun(h, peer)
    ensures AllShaped(LiveOf(Last(h)))
    decreases |h|
  {
    if h != [] {
      PrefixIsRun(h, peer);
      RunIsShaped(Prefix(h), peer);
      StepKeepsShapes(h[|h| - 1], peer);
    }
  }

  lemma {:induction false} RunIsAged(h: History, peer: SocketAddr)
    requires IsRun(h, peer)
    ensures Aged(h, peer)
    decreases |h|
  {
    if h != [] {
      PrefixIsRun(h, peer);
      RunIsAged(Prefix(h), peer);
      AgingStep(h, peer);
    }
  }

  lemma ReceivingKeepsAllocators(s: Session, p: Packet, now: Millis, encodes: bool)
    ensures Receive(s, p, now, encodes).state.nextToken == s.nextToken
    ensures Receive(s, p, now, encodes).state.nextMid == s.nextMid
  {
  }

  lemma AllocatorsAdvance(x: Transition, peer: SocketAddr)
    requires IsStep(x, peer) && x.before.Some? && x.after.Some?
    ensures x.after.value.nextToken ==
            if SpendsToken(x, peer) then NextToken(x.before.value.nextToken) else x.before.value.nextToken
    ensures x.after.value.nextMid ==
            if SpendsMid(x, peer) then NextMid(x.before.value.nextMid) else x.before.value.nextMid
  {
    hide Receive, TokenBytes, RequestPacket, ResponsePacket, SweptExchanges, GivenUpMids, FreshDedup, SweepEffects;
    if x.event.arm.PacketIn? {
      ReceivingKeepsAllocators(x.before.value, x.event.arm.packet, x.event.now, x.event.arm.encodes);
    }
  }

  /** A step that registers nothing under `t` keeps the MID of a live exchange there. */
  lemma KeepsMid(x: Transition, peer: SocketAddr, t: Token)
    requires IsStep(x, peer) && t in LiveOf(x.after)
    ensures if Registers(x, peer, t)
            then
              LiveOf(x.after)[t].mid.Some? ==>
                LiveOf(x.after)[t].mid.value == Opened(x.before, x.event.arm.seeds).nextMid
            else t in LiveOf(x.before) && LiveOf(x.after)[t].mid == LiveOf(x.before)[t].mid
  {
    var c := StepIsChange(x, peer);
    hide IsStep, TokenBytes, RequestPacket;
  }

  lemma StartsAllocators(x: Transition, peer: SocketAddr)
    requires IsStep(x, peer) && SpendsToken(x, peer)
    ensures x.after.Some?
    ensures x.after.value.nextToken == NextToken(Opened(x.before, x.event.arm.seeds).nextToken)
    ensures x.after.value.nextMid == NextMid(Opened(x.before, x.event.arm.seeds).nextMid)
  {
    hide TokenBytes, RequestPacket;
  }

  lemma AgingStep(h: History, peer: SocketAddr)
    requires h != [] && IsStep(h[|h| - 1], peer) && Aged(Prefix(h), peer) && h[|h| - 1].before == Last(Prefix(h))
    ensures Aged(h, peer)
  {
    var x := h[|h| - 1];
    if x.after.Some? {
      forall t | t in x.after.value.exchanges
        ensures TokenAge(h, peer, t) > 0 && MidAge(h, peer, t) > 0
        ensures t == TokenBytes(TokenBack(x.after.value.nextToken, TokenAge(h, peer, t)))
        ensures x.after.value.exchanges[t].mid.Some? ==>
          x.after.value.exchanges[t].mid.value == MidBack(x.after.value.nextMid, MidAge(h, peer, t))
      {
        KeepsMid(x, peer, t);
        if Registers(x, peer, t) {
          StartsAllocators(x, peer);
          hide IsStep, TokenBytes, TokenBack, MidBack, NextToken, NextMid;
          TokenBackSteps(Opened(x.before, x.event.arm.seeds).nextToken, 0);
          MidBackSteps(Opened(x.before, x.event.arm.seeds).nextMid, 0);
        } else {
          AllocatorsAdvance(x, peer);
          hide IsStep, TokenBytes, TokenBack, MidBack, NextToken, NextMid;
          TokenBackSteps(x.before.value.nextToken, TokenAge(Prefix(h), peer, t));
          MidBackSteps(x.before.value.nextMid, MidAge(Prefix(h), peer, t));
        }
      }
    }
  }

  /** The next token collides with a live exchange exactly when a whole multiple of 2^32 tokens
      has been allocated since that exchange; likewise its MID and 2^16. */
  lemma CollisionIff(h: History, peer: SocketAddr, t: Token)
    requires IsRun(h, peer) && Last(h).Some? && t in Last(h).value.exchanges
    ensures TokenAge(h, peer, t) > 0 && MidAge(h, peer, t) > 0
    ensures TokenBytes(Last(h).value.nextToken) == t <==> TokenAge(h, peer, t) % TOKEN_SPACE == 0
    ensures Last(h).value.exchanges[t].mid.Some? ==>
      (Last(h).value.exchanges[t].mid.value == Last(h).value.nextMid <==> MidAge(h, peer, t) % MID_SPACE == 0)
  {
    RunIsAged(h, peer);
    hide IsRun, TokenBytes, TokenBack, MidBack, TokenAge, MidAge;
    var s := Last(h).value;
    TokenBackSteps(s.nextToken, TokenAge(h, peer, t));
    MidBackSteps(s.nextMid, MidAge(h, peer, t));
    var n := TokenBack(s.nextToken, TokenAge(h, peer, t));
    if TokenBytes(s.nextToken) == t {
      TokenBytesInjective(s.nextToken, n);
    }
  }

  lemma NoCollision(h: History, peer: SocketAddr)
    requires IsRun(h, peer) && Last(h).Some?
    requires forall t :: t in Last(h).value.exchanges ==>
      && TokenAge(h, peer, t) < TOKEN_SPACE
      && (Last(h).value.exchanges[t].mid.Some? ==> MidAge(h, peer, t) < MID_SPACE)
    ensures FreshNames(Last(h).value)
  {
    hide IsRun, TokenBytes, TokenAge, MidAge;
    var s := Last(h).value;
    forall t | t in s.exchanges
      ensures TokenBytes(s.nextToken) != t && s.exchanges[t].mid != Some(s.nextMid)
    {
      CollisionIff(h, peer, t);
    }
  }

  /** Within the window the allocators never hand out a name in use. */
  lemma WindowGivesFreshNames(h: History, peer: SocketAddr)
    requires IsRun(h, peer) && h != [] && Window(h, peer) && h[|h| - 1].before.Some?
    ensures FreshNames(h[|h| - 1].before.value)
  {
    PrefixIsRun(h, peer);
    hide IsRun, FreshNames, TokenAge, MidAge;
    assert h[..|h| - 1] == Prefix(h);
    NoCollision(Prefix(h), peer);
  }

  /** In every run within the window the MID index is exact after every step. */
  lemma {:induction false} IndexAgreement(h: History, peer: SocketAddr)
    requires IsRun(h, peer) && Window(h, peer)
    ensures Agrees(Last(h))
    ensures forall i :: 0 <= i < |h| ==> Agrees(h[i].before) && Agrees(h[i].after)
    decreases |h|
  {
    hide IsRun, IsStep, Window, Indexed, MidsApart;
    if h != [] {
      PrefixIsRun(h, peer);
      PrefixKeepsWindow(h, peer);
      IndexAgreement(Prefix(h), peer);
      RunIsShaped(Prefix(h), peer);
      if h[|h| - 1].before.Some? { WindowGivesFreshNames(h, peer); }
      StepKeepsAgreement(h[|h| - 1], peer);
      assert forall i :: 0 <= i < |h| - 1 ==> h[i] == Prefix(h)[i];
    }
  }
}
