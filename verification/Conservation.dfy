/** Every request taken from the client channel is pending or has ended exactly once. */
module Conservation {
  import opened Types
  import opened Messages
  import opened Model
  import opened Changes
  import opened Agreement

  ghost predicate Pending(live: map<Token, Waiting>, c: Caller) {
    exists t :: t in live && live[t].caller == c
  }

  predicate TakenAt(x: Transition, peer: SocketAddr, c: Caller) {
    x.event.arm.ClientRequest? && x.event.arm.peer == peer && x.event.arm.caller == c
  }

  ghost predicate Taken(h: History, peer: SocketAddr, c: Caller) {
    exists i :: 0 <= i < |h| && TakenAt(h[i], peer, c)
  }

  predicate SettledAt(x: Transition, c: Caller, outcome: Outcome) {
    Settled(c, outcome) in x.effects
  }

  ghost predicate EndsAt(x: Transition, c: Caller) {
    exists outcome :: SettledAt(x, c, outcome)
  }

  ghost predicate Ended(h: History, c: Caller) {
    exists i, outcome :: 0 <= i < |h| && SettledAt(h[i], c, outcome)
  }

  lemma StepKeepsApart(x: Transition, peer: SocketAddr)
    requires IsStep(x, peer) && CallersApart(LiveOf(x.before))
    requires x.event.arm.ClientRequest? ==> !Pending(LiveOf(x.before), x.event.arm.caller)
    ensures CallersApart(LiveOf(x.after))
  {
    var change := StepIsChange(x, peer);
    hide IsStep, TokenBytes, RequestPacket;
  }

  /** In one step a request that was pending or is taken now stays pending or ends with one outcome,
      and nothing else becomes pending or ends. */
  lemma StepConserves(x: Transition, peer: SocketAddr, c: Caller)
    requires IsStep(x, peer) && CallersApart(LiveOf(x.before))
    requires x.event.arm.ClientRequest? ==> !Pending(LiveOf(x.before), x.event.arm.caller)
    ensures CallersApart(LiveOf(x.after))
    ensures if Pending(LiveOf(x.before), c) || TakenAt(x, peer, c)
            then Pending(LiveOf(x.after), c) <==> !EndsAt(x, c)
            else !Pending(LiveOf(x.after), c) && !EndsAt(x, c)
    ensures forall o, o' :: SettledAt(x, c, o) && SettledAt(x, c, o') ==> o == o'
  {
    var change := StepIsChange(x, peer);
    StepKeepsApart(x, peer);
    hide IsStep, TokenBytes, RequestPacket;
    var live, after := LiveOf(x.before), LiveOf(x.after);
    assert forall o :: SettledAt(x, c, o) <==> Tells(live, change, Settled(c, o));
    if t :| t in live && live[t].caller == c {
      hide Summarises, Applicable, CallersApart;
      match change
      case Close(u, o) => assert t == u ==> SettledAt(x, c, o); assert t != u ==> t in after;
      case Open(u, w, _) => assert t == u ==> SettledAt(x, c, Displaced); assert t != u ==> t in after;
      case SweepAll(now) =>
        assert GivenUp(live[t], now) ==>
            Tells(live, change, Expiry(live[t])) && SettledAt(x, c, TimedOut(RetransmitCount(live[t])));
        assert !GivenUp(live[t], now) ==> t in after;
      case _ => assert t in after;
    } else if TakenAt(x, peer, c) {
      hide Summarises, Applicable, CallersApart;
      if change.Open? {
        assert after[change.token].caller == c;
      } else {
        assert SettledAt(x, c, Unencodable);
      }
    }
  }

  /** The ledger of a history: pending and ended split the requests taken, and each end is unique. */
  ghost predicate Balanced(h: History, peer: SocketAddr) {
    && CallersApart(LiveOf(Last(h)))
    && (forall c :: Pending(LiveOf(Last(h)), c) ==> Taken(h, peer, c))
    && (forall c :: Ended(h, c) ==> Taken(h, peer, c))
    && (forall c :: Taken(h, peer, c) ==> (Pending(LiveOf(Last(h)), c) <==> !Ended(h, c)))
    && (forall c, i, j, o, o' :: 0 <= i < |h| && 0 <= j < |h| && SettledAt(h[i], c, o) && SettledAt(h[j], c, o')
          ==> i == j && o == o')
  }

  lemma ExtendTaken(h: History, peer: SocketAddr, c: Caller)
    requires h != []
    ensures Taken(h, peer, c) <==> Taken(Prefix(h), peer, c) || TakenAt(h[|h| - 1], peer, c)
    ensures Ended(h, c) <==> Ended(Prefix(h), c) || EndsAt(h[|h| - 1], c)
  {
    var n := |h| - 1;
    if Taken(Prefix(h), peer, c) {
      var i :| 0 <= i < n && TakenAt(Prefix(h)[i], peer, c);
      assert TakenAt(h[i], peer, c);
    }
    if Taken(h, peer, c) {
      var i :| 0 <= i < |h| && TakenAt(h[i], peer, c);
      assert i < n ==> TakenAt(Prefix(h)[i], peer, c);
    }
    if Ended(Prefix(h), c) {
      var i, o :| 0 <= i < n && SettledAt(Prefix(h)[i], c, o);
      assert SettledAt(h[i], c, o);
    }
    if Ended(h, c) {
      var i, o :| 0 <= i < |h| && SettledAt(h[i], c, o);
      assert i < n ==> SettledAt(Prefix(h)[i], c, o);
    }
  }

  lemma {:induction false} RequestsAreConserved(h: History, peer: SocketAddr)
    requires IsRun(h, peer) && CallersDistinct(h)
    ensures Balanced(h, peer)
    decreases |h|
  {
    if h != [] {
      PrefixIsRun(h, peer);
      RequestsAreConserved(Prefix(h), peer);
      BalanceStep(h, peer);
    }
  }

  lemma BalanceStep(h: History, peer: SocketAddr)
    requires h != [] && IsStep(h[|h| - 1], peer) && CallersDistinct(h)
    requires h[|h| - 1].before == Last(Prefix(h)) && Balanced(Prefix(h), peer)
    ensures Balanced(h, peer)
  {
    hide IsStep, CallersApart, Pending, Taken, Ended;
    StepConserves(h[|h| - 1], peer, 0) by {
      if h[|h| - 1].event.arm.ClientRequest? { NewCallerIsNew(h, peer); }
    }
    var n := |h| - 1;
    var x := h[n];
    if x.event.arm.ClientRequest? {
      NewCallerIsNew(h, peer);
    }
    forall c
      ensures CallersApart(LiveOf(Last(h)))
      ensures Pending(LiveOf(Last(h)), c) || Ended(h, c) ==> Taken(h, peer, c)
      ensures Taken(h, peer, c) ==> (Pending(LiveOf(Last(h)), c) <==> !Ended(h, c))
    {
      StepConserves(x, peer, c);
      ExtendTaken(h, peer, c);
    }
    forall c, i, j, o, o' | 0 <= i < |h| && 0 <= j < |h| && SettledAt(h[i], c, o) && SettledAt(h[j], c, o')
      ensures i == j && o == o'
    {
      StepConserves(x, peer, c);
      if i < n { EndsNoMore(h, peer, i, c, o); }
      if j < n { EndsNoMore(h, peer, j, c, o'); }
    }
  }

  lemma EndsNoMore(h: History, peer: SocketAddr, i: nat, c: Caller, o: Outcome)
    requires h != [] && IsStep(h[|h| - 1], peer) && CallersDistinct(h)
    requires h[|h| - 1].before == Last(Prefix(h)) && Balanced(Prefix(h), peer)
    requires i < |h| - 1 && SettledAt(h[i], c, o)
    ensures Prefix(h)[i] == h[i]
    ensures !EndsAt(h[|h| - 1], c)
  {
    hide IsStep, CallersApart, Pending, Taken;
    if h[|h| - 1].event.arm.ClientRequest? {
      NewCallerIsNew(h, peer);
    }
    EndedBy(Prefix(h), i, c, o);
    StepConserves(h[|h| - 1], peer, c);
  }

  lemma EndedBy(h: History, i: nat, c: Caller, o: Outcome)
    requires i < |h| && SettledAt(h[i], c, o)
    ensures Ended(h, c)
  {
  }

  lemma NewCallerIsNew(h: History, peer: SocketAddr)
    requires h != [] && CallersDistinct(h) && Balanced(Prefix(h), peer) && h[|h| - 1].event.arm.ClientRequest?
    ensures var c := h[|h| - 1].event.arm.caller;
      !Taken(Prefix(h), peer, c) && !Pending(LiveOf(Last(Prefix(h))), c) && !Ended(Prefix(h), c)
  {
    var c := h[|h| - 1].event.arm.caller;
    assert forall i :: 0 <= i < |Prefix(h)| ==> Prefix(h)[i] == h[i];
  }

  /** The token a request of this step takes. */
  function TokenTaken(x: Transition): Token
    requires x.event.arm.ClientRequest?
  {
    TokenBytes(Opened(x.before, x.event.arm.seeds).nextToken)
  }

  lemma StepDisplacesIff(x: Transition, peer: SocketAddr, c: Caller)
    requires IsStep(x, peer)
    ensures SettledAt(x, c, Displaced) <==>
      && SpendsToken(x, peer)
      && x.event.arm.encodes
      && TokenTaken(x) in LiveOf(x.before)
      && LiveOf(x.before)[TokenTaken(x)].caller == c
  {
    var change := StepIsChange(x, peer);
    hide IsStep, TokenBytes, RequestPacket;
    assert SettledAt(x, c, Displaced) <==> Tells(LiveOf(x.before), change, Settled(c, Displaced));
  }

  lemma NothingIsDisplacedLast(h: History, peer: SocketAddr, c: Caller)
    requires IsRun(h, peer) && Window(h, peer) && h != []
    ensures !SettledAt(h[|h| - 1], c, Displaced)
  {
    PrefixIsRun(h, peer);
    if h[|h| - 1].before.Some? { WindowGivesFreshNames(h, peer); }
    hide IsRun, IsStep, Window, TokenBytes, SettledAt;
    StepDisplacesIff(h[|h| - 1], peer, c);
  }

  /** Within the allocation window no request is lost to a registration under its token. */
  lemma {:induction false} NothingIsDisplaced(h: History, peer: SocketAddr)
    requires IsRun(h, peer) && Window(h, peer)
    ensures forall i, c :: 0 <= i < |h| ==> !SettledAt(h[i], c, Displaced)
    decreases |h|
  {
    if h != [] {
      PrefixIsRun(h, peer);
      PrefixKeepsWindow(h, peer);
      NothingIsDisplaced(Prefix(h), peer);
      hide IsRun, IsStep, Window, SettledAt;
      forall i, c | 0 <= i < |h|
        ensures !SettledAt(h[i], c, Displaced)
      {
        if i == |h| - 1 { NothingIsDisplacedLast(h, peer, c); } else { assert h[i] == Prefix(h)[i]; }
      }
    }
  }

  /** A request displaces another exactly when it is encoded and a live exchange of the peer is a
      whole multiple of 2^32 token allocations old; the displaced caller is that exchange's. */
  lemma DisplacedIff(h: History, peer: SocketAddr, x: Transition, c: Caller)
    requires IsRun(h + [x], peer)
    ensures SettledAt(x, c, Displaced) <==>
      && SpendsToken(x, peer)
      && x.event.arm.encodes
      && exists t :: t in LiveOf(x.before) && LiveOf(x.before)[t].caller == c && TokenAge(h, peer, t) % TOKEN_SPACE == 0
  {
    PrefixIsRun(h + [x], peer);
    assert Prefix(h + [x]) == h && (h + [x])[|h|] == x;
    StepDisplacesIff(x, peer, c);
    hide IsRun, IsStep, TokenBytes, TokenAge, MidAge;
    if SpendsToken(x, peer) {
      forall t | t in LiveOf(x.before)
        ensures t == TokenTaken(x) <==> TokenAge(h, peer, t) % TOKEN_SPACE == 0
      {
        CollisionIff(h, peer, t);
      }
    }
  }

  // ---- The whole stack ----

  predicate StackTakenAt(x: StackTransition, peer: SocketAddr, c: Caller) {
    x.event.arm.ClientRequest? && x.event.arm.peer == peer && x.event.arm.caller == c
  }

  predicate StackSettledAt(x: StackTransition, peer: SocketAddr, c: Caller, o: Outcome) {
    PeerEffect(peer, Settled(c, o)) in x.effects
  }

  ghost predicate StackPending(st: Stack, peer: SocketAddr, c: Caller) { Pending(LiveOf(View(st, peer)), c) }

  ghost predicate StackCallersDistinct(h: seq<StackTransition>) {
    forall i, j :: 0 <= i < j < |h| && h[i].event.arm.ClientRequest? && h[j].event.arm.ClientRequest?
      ==> h[i].event.arm.caller != h[j].event.arm.caller
  }

  lemma ProjectionBalances(h: seq<StackTransition>, peer: SocketAddr)
    requires IsStackRun(h) && StackCallersDistinct(h)
    ensures IsRun(Project(h, peer), peer) && CallersDistinct(Project(h, peer)) && Balanced(Project(h, peer), peer)
    ensures forall i, c, o :: 0 <= i < |h| ==>
        (StackSettledAt(h[i], peer, c, o) <==> SettledAt(Project(h, peer)[i], c, o))
    ensures forall i, c :: 0 <= i < |h| ==> (StackTakenAt(h[i], peer, c) <==> TakenAt(Project(h, peer)[i], peer, c))
    ensures h != [] ==> LiveOf(Last(Project(h, peer))) == LiveOf(View(h[|h| - 1].after, peer))
  {
    ProjectionIsRun(h, peer);
    hide IsStackRun, IsRun, PeerStep;
    RequestsAreConserved(Project(h, peer), peer);
  }

  function Final(h: seq<StackTransition>): Stack
    requires h != []
  {
    h[|h| - 1].after
  }

  lemma OtherPeersHoldNothing(h: seq<StackTransition>, peer: SocketAddr, other: SocketAddr, c: Caller, k: nat)
    requires IsStackRun(h) && StackCallersDistinct(h) && k < |h| && StackTakenAt(h[k], peer, c) && other != peer
    ensures !StackPending(Final(h), other, c)
    ensures forall i, o :: 0 <= i < |h| ==> !StackSettledAt(h[i], other, c, o)
  {
    ProjectionBalances(h, other);
    hide IsStackRun, IsRun, Pending;
    var q := Project(h, other);
    assert forall i :: 0 <= i < |h| ==> !StackTakenAt(h[i], other, c);
    forall i, o | 0 <= i < |h|
      ensures !StackSettledAt(h[i], other, c, o)
    {
      if SettledAt(q[i], c, o) { EndedBy(q, i, c, o); }
    }
  }

  /** Over every run of the stack: a request taken for a peer is pending with that peer or has ended,
      never both; it ends once, with one outcome, whatever sessions come and go. */
  lemma StackConservesRequests(h: seq<StackTransition>, peer: SocketAddr, c: Caller, k: nat)
    requires IsStackRun(h) && StackCallersDistinct(h) && k < |h| && StackTakenAt(h[k], peer, c)
    ensures StackPending(Final(h), peer, c) <==>
            !exists i, p, o :: 0 <= i < |h| && StackSettledAt(h[i], p, c, o)
    ensures forall i, j, p, q, o, o' ::
              0 <= i < |h| && 0 <= j < |h| && StackSettledAt(h[i], p, c, o) && StackSettledAt(h[j], q, c, o')
              ==> i == j && p == q == peer && o == o'
    ensures forall p :: StackPending(Final(h), p, c) ==> p == peer
  {
    ProjectionBalances(h, peer);
    var r := Project(h, peer);
    hide IsStackRun, IsRun, Pending, StackSettledAt;
    forall p | StackPending(Final(h), p, c)
      ensures p == peer
    {
      if p != peer { OtherPeersHoldNothing(h, peer, p, c, k); }
    }
    forall i, p, o | 0 <= i < |h| && StackSettledAt(h[i], p, c, o)
      ensures p == peer && Ended(r, c)
    {
      if p != peer { OtherPeersHoldNothing(h, peer, p, c, k); }
      EndedBy(r, i, c, o);
    }
    assert TakenAt(r[k], peer, c);
    if Ended(r, c) {
      var i, o :| 0 <= i < |r| && SettledAt(r[i], c, o);
      assert StackSettledAt(h[i], peer, c, o);
    }
    assert StackPending(Final(h), peer, c) <==> Pending(LiveOf(Last(r)), c);
  }
}
