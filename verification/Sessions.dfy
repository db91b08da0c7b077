/** One peer's session: four cross-linked tables and two allocators, updated in place. */
module Sessions {
  import opened Types
  import opened Messages
  import opened Model
  import opened Reliability
  import opened Exchanges

  /** The objects an exchange is made of. */
  ghost function Parts(e: Exchange): set<object>
    reads e
  {
    if e.retransmit == null then {e} else {e, e.retransmit}
  }

  class PeerSession {
    const peer: SocketAddr
    var exchanges: map<Token, Exchange>
    var midToToken: map<Mid, Token>
    const midAllocator: MessageIdAllocator
    const tokenAllocator: TokenAllocator
    var inboundDedup: map<Mid, DedupEntry>
    var inboundConMids: map<Token, Mid>
    ghost var Repr: set<object>

    /** The session owns its allocators and its exchanges, and no two exchanges share anything. */
    ghost predicate Valid()
      reads this, Repr
    {
      && this in Repr && midAllocator in Repr && tokenAllocator in Repr
      && (forall t :: t in exchanges ==> exchanges[t] in Repr && Owns(exchanges[t].retransmit))
      && (forall t, u :: t in exchanges && u in exchanges && t != u ==>
            exchanges[t] != exchanges[u]
            && (exchanges[t].retransmit == null || exchanges[t].retransmit != exchanges[u].retransmit))
    }

    ghost predicate Owns(state: RetransmitState?)
      reads `Repr
    {
      state != null ==> state in Repr
    }

    ghost function Waiters(): map<Token, Waiting>
      requires Valid()
      reads this, Repr
    {
      map t | t in exchanges :: exchanges[t].Abs()
    }

    ghost function Abs(): Session
      requires Valid()
      reads this, Repr
    {
      Session(Waiters(), midToToken, midAllocator.next, tokenAllocator.next, inboundDedup, inboundConMids)
    }

    constructor (peer: SocketAddr, seeds: Seeds)
      ensures Valid() && fresh(Repr) && Abs() == NewSession(seeds) && this.peer == peer
    {
      this.peer := peer;
      exchanges := map[];
      midToToken := map[];
      var mids := new MessageIdAllocator(seeds.mid);
      var tokens := new TokenAllocator(seeds.token);
      midAllocator := mids;
      tokenAllocator := tokens;
      inboundDedup := map[];
      inboundConMids := map[];
      Repr := {this, mids, tokens};
    }

    /** Nothing would be lost by evicting the session. */
    method IsIdle() returns (idle: bool)
      requires Valid()
      ensures idle == Idle(Abs())
      ensures idle <==> |exchanges| == 0 && |midToToken| == 0 && |inboundDedup| == 0 && |inboundConMids| == 0
    {
      idle := exchanges == map[] && midToToken == map[] && inboundDedup == map[] && inboundConMids == map[];
      assert exchanges.Keys == Waiters().Keys;
    }

    method AllocateMid() returns (mid: Mid)
      requires Valid()
      modifies midAllocator
      ensures Valid() && mid == old(Abs()).nextMid && Abs() == old(Abs()).(nextMid := NextMid(mid))
    {
      mid := midAllocator.Allocate();
      assert Waiters() == old(Waiters());
    }

    method AllocateToken() returns (token: Token)
      requires Valid()
      modifies tokenAllocator
      ensures Valid() && token == TokenBytes(old(Abs()).nextToken)
      ensures Abs() == old(Abs()).(nextToken := NextToken(old(Abs()).nextToken))
    {
      hide TokenBytes;
      token := tokenAllocator.Allocate();
      assert Waiters() == old(Waiters());
    }

    /** Register an exchange under its token; an exchange already there is dropped with its sender. */
    method InsertExchange(token: Token, exchange: Exchange) returns (out: seq<Effect>)
      requires Valid() && exchange !in Repr && exchange.retransmit !in Repr
      modifies this
      ensures Valid() && Repr == old(Repr) + Parts(exchange)
      ensures Abs() == old(Abs()).(exchanges := old(Waiters())[token := exchange.Abs()])
      ensures Distinct(out) && forall f :: f in out <==> f in DisplacedBy(old(Abs()), token)
    {
      out := if token in exchanges then [Settled(exchanges[token].responseTx, Displaced)] else [];
      exchanges := exchanges[token := exchange];
      Repr := Repr + Parts(exchange);
      forall t, u | t in exchanges && u in exchanges && t != u
        ensures exchanges[t] != exchanges[u]
        ensures exchanges[t].retransmit == null || exchanges[t].retransmit != exchanges[u].retransmit
      {
        if t != token { assert exchanges[t] in old(Repr) && old(Owns(exchanges[t].retransmit)); }
        if u != token { assert exchanges[u] in old(Repr) && old(Owns(exchanges[u].retransmit)); }
      }
      assert Waiters() == old(Waiters())[token := exchange.Abs()];
    }

    /** Register an exchange under both its token and its MID. */
    method InsertConExchange(token: Token, mid: Mid, exchange: Exchange) returns (out: seq<Effect>)
      requires Valid() && exchange !in Repr && exchange.retransmit !in Repr
      modifies this
      ensures Valid() && Repr == old(Repr) + Parts(exchange)
      ensures Abs() == old(Abs()).(exchanges := old(Waiters())[token := exchange.Abs()],
          midToToken := old(midToToken)[mid := token])
      ensures Distinct(out) && forall f :: f in out <==> f in DisplacedBy(old(Abs()), token)
    {
      midToToken := midToToken[mid := token];
      assert Waiters() == old(Waiters());
      out := InsertExchange(token, exchange);
    }

    /** Take the exchange under `token` out of the table. */
    method Remove(token: Token) returns (exchange: Exchange)
      requires Valid() && token in exchanges
      modifies this`exchanges
      ensures Valid() && exchange == old(exchanges[token]) && exchange.Abs() == old(Waiters())[token]
      ensures Abs() == old(Abs()).(exchanges := old(Waiters()) - {token})
      ensures exchanges == old(exchanges) - {token}
    {
      exchange := exchanges[token];
      exchanges := exchanges - {token};
      assert Waiters() == old(Waiters()) - {token};
    }

    /** Drop the index entry of an exchange that has ended, if it had a MID. */
    method ForgetMid(mid: Option<Mid>)
      requires Valid()
      modifies this`midToToken
      ensures Valid() && Abs() == old(Abs()).(midToToken := WithoutMid(old(midToToken), mid))
    {
      if mid.Some? {
        midToToken := midToToken - {mid.value};
      }
      assert Waiters() == old(Waiters());
    }

    /** End the exchange under the token of a response. */
    method CompleteExchange(token: Token, response: CoapResponse) returns (matched: bool, out: seq<Effect>)
      requires Valid()
      modifies this
      ensures Valid() && Repr == old(Repr)
      ensures Abs() == Model.CompleteExchange(old(Abs()), token, response).state
      ensures Distinct(out)
      ensures forall f :: f in out <==> f in Model.CompleteExchange(old(Abs()), token, response).effects
      ensures matched <==> token in old(exchanges)
    {
      if token !in exchanges {
        return false, [];
      }
      assert token in Waiters();
      hide Valid;
      var exchange := Remove(token);
      ForgetMid(exchange.messageId);
      return true, [Settled(exchange.responseTx, Completed(response))];
    }

    /** Stop the retransmission of one exchange. */
    method Quiet(token: Token)
      requires Valid() && token in exchanges
      modifies exchanges[token]
      ensures Valid()
          && Abs() == old(Abs()).(exchanges := old(Waiters())[token := old(Waiters())[token].(backoff := None)])
    {
      exchanges[token].CancelRetransmission();
      assert Waiters() == old(Waiters())[token := old(Waiters())[token].(backoff := None)];
    }

    /** What an ACK with this MID means: it consumes the index entry whatever its code. */
    method HandleAck(mid: Mid, packet: Packet) returns (result: AckResult)
      requires Valid()
      modifies this, exchanges.Values
      ensures Valid() && Repr == old(Repr)
      ensures Abs() == Model.HandleAck(old(Abs()), mid, packet.code)
      ensures result == HandleAckResult(old(Abs()), mid, packet.code)
      ensures midToToken == old(midToToken) - {mid}
      ensures result.EmptyAck? <==> mid in old(midToToken) && packet.code.Empty?
      ensures result.PiggybackedResponse? <==> mid in old(midToToken) && packet.code.Response?
      ensures result.PiggybackedResponse? ==> result.token == old(midToToken)[mid]
    {
      if mid !in midToToken {
        return Unknown;
      }
      var token := midToToken[mid];
      midToToken := midToToken - {mid};
      assert Waiters() == old(Waiters());
      match packet.code {
        case Empty =>
          if token in exchanges {
            assert token in Waiters();
            Quiet(token);
          }
          return EmptyAck;
        case Response(_) =>
          return PiggybackedResponse(token);
        case _ =>
          return Unknown;
      }
    }

    /** A reset ends the exchange its MID stands for. */
    method HandleRst(mid: Mid) returns (failed: bool, out: seq<Effect>)
      requires Valid()
      modifies this
      ensures Valid() && Repr == old(Repr)
      ensures Abs() == Model.HandleRst(old(Abs()), mid).state
      ensures Distinct(out) && forall f :: f in out <==> f in Model.HandleRst(old(Abs()), mid).effects
      ensures failed <==> out != []
    {
      if mid !in midToToken {
        return false, [];
      }
      var token := midToToken[mid];
      midToToken := midToToken - {mid};
      assert Waiters() == old(Waiters());
      if token in exchanges {
        var exchange := Remove(token);
        return true, [Settled(exchange.responseTx, WasReset)];
      }
      return false, [];
    }

    predicate IsDuplicate(mid: Mid)
      reads this
    {
      mid in inboundDedup
    }

    /** Note the first copy of a message. */
    method RecordInboundMid(mid: Mid, now: Millis)
      requires Valid()
      modifies this`inboundDedup
      ensures Valid() && Abs() == Model.RecordInboundMid(old(Abs()), mid, now)
    {
      inboundDedup := inboundDedup[mid := DedupEntry(None, now)];
      assert Waiters() == old(Waiters());
    }

    /** Cache the reply to an inbound MID, if its entry is still there. */
    method CacheResponseForMid(mid: Mid, bytes: Packet)
      requires Valid()
      modifies this`inboundDedup
      ensures Valid() && Abs() == CacheResponse(old(Abs()), mid, bytes)
    {
      if mid in inboundDedup {
        inboundDedup := inboundDedup[mid := inboundDedup[mid].(cached := Some(bytes))];
      }
      assert Waiters() == old(Waiters());
    }

    function GetCachedResponse(mid: Mid): Option<Packet>
      reads this
    {
      if mid in inboundDedup then inboundDedup[mid].cached else None
    }

    /** Remember which MID the reply to this token is to acknowledge. */
    method RecordInboundCon(token: Token, mid: Mid)
      requires Valid()
      modifies this`inboundConMids
      ensures Valid() && Abs() == old(Abs()).(conMids := old(inboundConMids)[token := mid])
    {
      inboundConMids := inboundConMids[token := mid];
      assert Waiters() == old(Waiters());
    }

    /** Take the MID to piggyback a reply on; None if the request was NON. */
    method TakeInboundConMid(token: Token) returns (mid: Option<Mid>)
      requires Valid()
      modifies this`inboundConMids
      ensures Valid() && Abs() == old(Abs()).(conMids := old(inboundConMids) - {token})
      ensures mid == if token in old(inboundConMids) then Some(old(inboundConMids)[token]) else None
    {
      mid := if token in inboundConMids then Some(inboundConMids[token]) else None;
      inboundConMids := inboundConMids - {token};
      assert Waiters() == old(Waiters());
    }

    /** Retransmit what is due and fail what has run out. Every due exchange is sent again exactly once,
        in whatever order the table yields them. */
    method CollectRetransmissions(now: Millis) returns (sent: seq<Effect>, failed: seq<Effect>, ghost order: seq<Token>)
      requires Valid()
      modifies Repr
      ensures Valid() && Repr == old(Repr)
      ensures Abs() == Sweep(old(Abs()), now).state.(dedup := old(Abs()).dedup)
      ensures forall f :: f in sent || f in failed <==> f in SweepEffects(old(Waiters()), now)
      ensures Enumerates(order, ResendTokens(old(Waiters()), now))
      ensures SentInOrder(sent, order, old(Waiters()), now)
      ensures CallersApart(old(Waiters())) ==> Distinct(sent + failed)
    {
      ghost var s := Abs();
      hide Valid, Failing, Enumerates, SentInOrder;
      var expired: seq<Token>;
      sent, expired, order := AdvanceAll(now);
      ghost var advanced := Abs();
      ExpiredAreThere(s.exchanges, now, expired);
      failed := FailAll(expired);
      PassesAreSweep(s, advanced, expired, now);
      if CallersApart(s.exchanges) { SweepTellsOnce(s.exchanges, now, order, sent, expired, failed); }
      forall f
        ensures f in sent || f in failed <==> f in SweepEffects(s.exchanges, now)
      {
        SentIsResent(s.exchanges, now, order, sent, f);
        TellsSweep(s.exchanges, now, f);
      }
    }

    /** First pass over the table: advance what is due, note what has run out. */
    method AdvanceAll(now: Millis) returns (sent: seq<Effect>, expired: seq<Token>, ghost order: seq<Token>)
      requires Valid()
      modifies Repr
      ensures Valid() && Repr == old(Repr) && Abs() == old(Abs()).(exchanges := AdvancedExchanges(old(Waiters()), now))
      ensures Enumerates(expired, GivenUpTokens(old(Waiters()), now))
      ensures Enumerates(order, ResendTokens(old(Waiters()), now))
      ensures SentInOrder(sent, order, old(Waiters()), now)
    {
      hide Valid, Progress, Swept, Resends, GivenUp;
      ghost var m := Waiters();
      sent, expired, order := [], [], [];
      var todo := exchanges.Keys;
      NothingYet(m, now);
      assert m.Keys == todo;
      while todo != {}
        invariant Valid() && Repr == old(Repr) && exchanges == old(exchanges)
        invariant Abs() == old(Abs()).(exchanges := Waiters())
        invariant todo <= m.Keys == Waiters().Keys
        invariant forall t :: t in m ==> Waiters()[t] == if t in todo then m[t] else Swept(m[t], now)
        invariant Progress(m, now, todo, sent, expired, order)
        decreases |todo|
      {
        var t :| t in todo;
        OneFurther(m, now, todo, sent, expired, order, t);
        todo := todo - {t};
        var again, gaveUp := AdvanceOne(t, now);
        if again.Some? {
          sent, order := sent + [again.value], order + [t];
        } else if gaveUp {
          expired := expired + [t];
        }
      }
      assert Waiters() == AdvancedExchanges(m, now);
      AllSeen(m, now, sent, expired, order);
    }

    method AdvanceOne(t: Token, now: Millis) returns (again: Option<Effect>, gaveUp: bool)
      requires Valid() && t in exchanges
      modifies Repr
      ensures Valid() && Repr == old(Repr) && exchanges == old(exchanges)
      ensures Waiters() == old(Waiters())[t := Swept(old(Waiters())[t], now)]
      ensures Abs() == old(Abs()).(exchanges := Waiters())
      ensures again == if Resends(old(Waiters())[t], now) then Some(ResentCopy(old(Waiters())[t])) else None
      ensures gaveUp <==> GivenUp(old(Waiters())[t], now)
    {
      hide Swept, Resends, GivenUp, ResentCopy;
      var bytes: Option<Packet>;
      bytes, gaveUp := exchanges[t].Poll(now);
      again := if bytes.Some? then Some(Sent(bytes.value, Copy(exchanges[t].responseTx, exchanges[t].Count())))
          else None;
    }

    /** Second pass: remove what has run out, with its MID, and tell its caller. */
    method FailAll(expired: seq<Token>) returns (failed: seq<Effect>)
      requires Valid() && Distinct(expired) && forall t :: t in expired ==> t in Waiters()
      modifies this
      ensures Valid() && Repr == old(Repr)
      ensures Abs() == Failing(old(Abs()), expired).state
      ensures forall f :: f in failed <==> f in Failing(old(Abs()), expired).effects
      ensures FailedInOrder(failed, expired, old(Waiters()))
    {
      hide Valid, FailedInOrder, FailedOne;
      failed := [];
      NoneFailed(Waiters());
      for i := 0 to |expired|
        invariant Valid() && Repr == old(Repr)
        invariant Abs() == Failing(old(Abs()), expired[..i]).state
        invariant forall f :: f in failed <==> f in Failing(old(Abs()), expired[..i]).effects
        invariant FailedInOrder(failed, expired[..i], old(Waiters()))
        invariant forall k :: i <= k < |expired| ==>
                    expired[k] in Waiters() && Waiters()[expired[k]] == old(Waiters())[expired[k]]
      {
        assert expired[..i + 1][..i] == expired[..i];
        FailedNext(failed, expired[..i], old(Waiters()), expired[i]);
        FailedOneRemoves(Abs(), expired[i]);
        var out := FailOne(expired[i]);
        assert expired[..i] + [expired[i]] == expired[..i + 1];
        failed := failed + out;
      }
      assert expired[..|expired|] == expired;
    }

    method FailOne(token: Token) returns (out: seq<Effect>)
      requires Valid()
      modifies this
      ensures Valid() && Repr == old(Repr)
      ensures Abs() == FailedOne(old(Abs()), token).state
      ensures forall f :: f in out <==> f in FailedOne(old(Abs()), token).effects
      ensures token in old(Waiters()) ==> out == [Expiry(old(Waiters())[token])]
    {
      if token !in exchanges {
        return [];
      }
      assert token in Waiters();
      hide Valid;
      var exchange := Remove(token);
      ForgetMid(exchange.messageId);
      return [Settled(exchange.responseTx, TimedOut(exchange.Count()))];
    }

    /** Drop dedup entries EXCHANGE_LIFETIME old. */
    method EvictStaleDedup(now: Millis)
      requires Valid()
      modifies this`inboundDedup
      ensures Valid() && Abs() == old(Abs()).(dedup := FreshDedup(old(inboundDedup), now))
    {
      inboundDedup := map k | k in inboundDedup && now < inboundDedup[k].created + EXCHANGE_LIFETIME :: inboundDedup[k];
      assert Waiters() == old(Waiters());
    }

    /** The soonest deadline of all exchanges, retransmission or NON expiry, whatever the iteration order. */
    method NextRetransmitDeadline() returns (next: Option<Millis>)
      requires Valid()
      ensures IsNextDeadline(Abs().exchanges, next)
    {
      next := None;
      var todo := exchanges.Keys;
      while todo != {}
        invariant todo <= exchanges.Keys
        invariant IsNextAmong(Waiters(), exchanges.Keys - todo, next)
        decreases |todo|
      {
        var t :| t in todo;
        todo := todo - {t};
        var deadline := exchanges[t].SoonestDeadline();
        assert Deadline(Waiters()[t]) == deadline;
        if deadline.Some? && (next.None? || deadline.value < next.value) {
          next := deadline;
        }
      }
      assert exchanges.Keys - todo == Waiters().Keys;
    }
  }

  // ---- The sweep, pass by pass ----

  ghost predicate Enumerates(order: seq<Token>, tokens: set<Token>) {
    && (forall t :: t in order <==> t in tokens)
    && Distinct(order)
  }

  lemma EnumerateNext(order: seq<Token>, all: set<Token>, todo: set<Token>, t: Token)
    requires Enumerates(order, all - todo) && t in todo
    ensures Enumerates(if t in all then order + [t] else order, all - (todo - {t}))
  {
  }

  function ResendTokens(m: map<Token, Waiting>, now: Millis): set<Token> { set t | t in m && Resends(m[t], now) }

  function GivenUpTokens(m: map<Token, Waiting>, now: Millis): set<Token> { set t | t in m && GivenUp(m[t], now) }

  function AdvancedExchanges(m: map<Token, Waiting>, now: Millis): map<Token, Waiting> {
    map t | t in m :: Swept(m[t], now)
  }

  ghost predicate SentInOrder(sent: seq<Effect>, order: seq<Token>, m: map<Token, Waiting>, now: Millis) {
    && |sent| == |order|
    && forall i :: 0 <= i < |order| ==> order[i] in ResendTokens(m, now) && sent[i] == ResentCopy(m[order[i]])
  }

  /** Each listed exchange is told once that it has run out. */
  ghost predicate FailedInOrder(failed: seq<Effect>, expired: seq<Token>, m: map<Token, Waiting>) {
    && |failed| == |expired|
    && forall i :: 0 <= i < |expired| ==> expired[i] in m && failed[i] == Expiry(m[expired[i]])
  }

  lemma NoneFailed(m: map<Token, Waiting>)
    ensures FailedInOrder([], [], m)
  {
  }

  lemma FailedNext(failed: seq<Effect>, expired: seq<Token>, m: map<Token, Waiting>, t: Token)
    requires FailedInOrder(failed, expired, m) && t in m
    ensures FailedInOrder(failed + [Expiry(m[t])], expired + [t], m)
  {
  }

  lemma ExpiredAreThere(m: map<Token, Waiting>, now: Millis, expired: seq<Token>)
    requires Enumerates(expired, GivenUpTokens(m, now))
    ensures Distinct(expired)
    ensures forall t :: t in expired ==> t in m && AdvancedExchanges(m, now)[t] == m[t]
  {
  }

  /** A sweep tells no caller anything twice and sends nothing twice. */
  lemma SweepTellsOnce(m: map<Token, Waiting>, now: Millis, order: seq<Token>, sent: seq<Effect>, expired: seq<Token>,
          failed: seq<Effect>)
    requires CallersApart(m)
    requires Enumerates(order, ResendTokens(m, now)) && SentInOrder(sent, order, m, now)
    requires Enumerates(expired, GivenUpTokens(m, now)) && FailedInOrder(failed, expired, AdvancedExchanges(m, now))
    ensures Distinct(sent + failed)
  {
    hide CallersApart, Enumerates;
    ExpiredAreThere(m, now, expired);
    var all := sent + failed;
    forall i, j | 0 <= i < j < |all|
      ensures all[i] != all[j]
    {
      if j < |sent| {
        DifferentCallers(m, order, i, j, ResendTokens(m, now));
      } else if i >= |sent| {
        DifferentCallers(m, expired, i - |sent|, j - |sent|, GivenUpTokens(m, now));
      }
    }
  }

  lemma DifferentCallers(m: map<Token, Waiting>, order: seq<Token>, i: nat, j: nat, tokens: set<Token>)
    requires CallersApart(m) && Enumerates(order, tokens) && i < j < |order| && order[i] in m && order[j] in m
    ensures m[order[i]].caller != m[order[j]].caller
  {
  }

  lemma SweepTokens(m: map<Token, Waiting>, now: Millis, t: Token)
    requires t in m
    ensures t in ResendTokens(m, now) <==> Resends(m[t], now)
    ensures t in GivenUpTokens(m, now) <==> GivenUp(m[t], now)
    ensures Resends(m[t], now) ==> m[t].backoff.Some? && !GivenUp(m[t], now)
  {
  }

  /** The first pass has dealt with every exchange but those in `todo`. */
  ghost predicate Progress(m: map<Token, Waiting>, now: Millis, todo: set<Token>, sent: seq<Effect>,
          expired: seq<Token>, order: seq<Token>) {
    && Enumerates(expired, GivenUpTokens(m, now) - todo)
    && Enumerates(order, ResendTokens(m, now) - todo)
    && SentInOrder(sent, order, m, now)
  }

  lemma NothingYet(m: map<Token, Waiting>, now: Millis)
    ensures Progress(m, now, m.Keys, [], [], [])
  {
  }

  lemma AllSeen(m: map<Token, Waiting>, now: Millis, sent: seq<Effect>, expired: seq<Token>, order: seq<Token>)
    requires Progress(m, now, {}, sent, expired, order)
    ensures Enumerates(expired, GivenUpTokens(m, now)) && Enumerates(order, ResendTokens(m, now))
        && SentInOrder(sent, order, m, now)
  {
    assert ResendTokens(m, now) - {} == ResendTokens(m, now) && GivenUpTokens(m, now) - {} == GivenUpTokens(m, now);
  }

  lemma OneFurther(m: map<Token, Waiting>, now: Millis, todo: set<Token>, sent: seq<Effect>, expired: seq<Token>,
          order: seq<Token>, t: Token)
    requires Progress(m, now, todo, sent, expired, order) && t in todo && t in m
    ensures Resends(m[t], now) ==> !GivenUp(m[t], now)
    ensures if Resends(m[t], now) then Progress(m, now, todo - {t}, sent + [ResentCopy(m[t])], expired, order + [t])
            else Progress(m, now, todo - {t}, sent, if GivenUp(m[t], now) then expired + [t] else expired, order)
  {
    EnumerateNext(order, ResendTokens(m, now), todo, t);
    EnumerateNext(expired, GivenUpTokens(m, now), todo, t);
    SweepTokens(m, now, t);
    hide Enumerates, ResendTokens, GivenUpTokens, SentInOrder, Resends, GivenUp;
    if t in ResendTokens(m, now) { SentNext(sent, order, m, now, t, ResentCopy(m[t])); }
  }

  lemma SentNext(sent: seq<Effect>, order: seq<Token>, m: map<Token, Waiting>, now: Millis, t: Token, f: Effect)
    requires SentInOrder(sent, order, m, now) && t in ResendTokens(m, now) && f == ResentCopy(m[t])
    ensures SentInOrder(sent + [f], order + [t], m, now)
  {
  }

  function FailedOne(s: Session, token: Token): After {
    if token in s.exchanges
    then After(s.(exchanges := s.exchanges - {token}, midToToken := WithoutMid(s.midToToken, s.exchanges[token].mid)),
               {Expiry(s.exchanges[token])})
    else After(s, {})
  }

  lemma FailedOneRemoves(s: Session, token: Token)
    ensures FailedOne(s, token).state.exchanges == s.exchanges - {token}
  {
  }

  function Failing(s: Session, tokens: seq<Token>): After {
    if tokens == [] then After(s, {})
    else
      var earlier := Failing(s, tokens[..|tokens| - 1]);
      var last := FailedOne(earlier.state, tokens[|tokens| - 1]);
      After(last.state, earlier.effects + last.effects)
  }

  /** Failing a list of distinct exchanges removes them and their MIDs and nothing else. */
  lemma {:induction false} FailingRemoves(s: Session, tokens: seq<Token>, t: Token, m: Mid, f: Effect)
    requires forall i, j :: 0 <= i < j < |tokens| ==> tokens[i] != tokens[j]
    requires forall u :: u in tokens ==> u in s.exchanges
    ensures var s' := Failing(s, tokens).state;
      && s'.(exchanges := s.exchanges, midToToken := s.midToToken) == s
      && (t in s'.exchanges <==> t in s.exchanges && t !in tokens)
      && (t in s'.exchanges ==> s'.exchanges[t] == s.exchanges[t])
      && (m in s'.midToToken <==> m in s.midToToken && !exists u :: u in tokens && s.exchanges[u].mid == Some(m))
      && (m in s'.midToToken ==> s'.midToToken[m] == s.midToToken[m])
    ensures f in Failing(s, tokens).effects <==> exists u :: u in tokens && f == Expiry(s.exchanges[u])
    decreases |tokens|
  {
    if tokens != [] {
      var n := |tokens| - 1;
      var init, last := tokens[..n], tokens[n];
      assert tokens == init + [last];
      FailingRemoves(s, init, t, m, f);
      FailingRemoves(s, init, last, m, f);
    }
  }

  /** The two passes together are the sweep. */
  lemma PassesAreSweep(s: Session, advanced: Session, expired: seq<Token>, now: Millis)
    requires advanced == s.(exchanges := AdvancedExchanges(s.exchanges, now))
    requires Enumerates(expired, GivenUpTokens(s.exchanges, now))
    ensures Failing(advanced, expired).state == Sweep(s, now).state.(dedup := s.dedup)
    ensures forall f :: f in Failing(advanced, expired).effects <==> exists t ::
        t in GivenUpTokens(s.exchanges, now) && f == Expiry(s.exchanges[t])
  {
    hide Failing;
    var s', goal := Failing(advanced, expired).state, Sweep(s, now).state;
    var gone := GivenUpTokens(s.exchanges, now);
    var none := Expiry(Waiting(0, None, None, None));
    FailingRemoves(advanced, expired, [], 0, none);
    forall t
      ensures t in s'.exchanges <==> t in goal.exchanges
      ensures t in s'.exchanges ==> s'.exchanges[t] == goal.exchanges[t]
    {
      FailingRemoves(advanced, expired, t, 0, none);
    }
    forall m
      ensures m in s'.midToToken <==> m in goal.midToToken
      ensures m in s'.midToToken ==> s'.midToToken[m] == goal.midToToken[m]
    {
      FailingRemoves(advanced, expired, [], m, none);
      assert m in GivenUpMids(s.exchanges, now) <==> exists u :: u in gone && s.exchanges[u].mid == Some(m);
    }
    forall f
      ensures f in Failing(advanced, expired).effects <==> exists u :: u in gone && f == Expiry(s.exchanges[u])
    {
      FailingRemoves(advanced, expired, [], 0, f);
      assert forall u :: u in gone ==> advanced.exchanges[u] == s.exchanges[u];
    }
    assert s'.exchanges == goal.exchanges && s'.midToToken == goal.midToToken;
  }

  lemma TellsSweep(m: map<Token, Waiting>, now: Millis, f: Effect)
    ensures f in SweepEffects(m, now) <==>
            || (exists t :: t in ResendTokens(m, now) && f == ResentCopy(m[t]))
            || (exists t :: t in GivenUpTokens(m, now) && f == Expiry(m[t]))
  {
  }

  lemma SentIsResent(m: map<Token, Waiting>, now: Millis, order: seq<Token>, sent: seq<Effect>, f: Effect)
    requires Enumerates(order, ResendTokens(m, now)) && SentInOrder(sent, order, m, now)
    ensures f in sent <==> exists t :: t in ResendTokens(m, now) && f == ResentCopy(m[t])
  {
    if t :| t in ResendTokens(m, now) && f == ResentCopy(m[t]) {
      assert t in order;
      var i :| 0 <= i < |order| && order[i] == t;
      assert sent[i] == f;
    }
  }
}
