/** Runs of the loop in which plausible claims fail. */
module Witnesses {
  import opened Types
  import opened Messages
  import opened Model
  import opened Changes
  import opened Agreement
  import opened Conservation
  import opened Correlation
  import opened Deduplication
  import opened EventLoop

  // ---- Runs with a single peer, of a loop that starts at instant 0 ----

  /** Input from or for the peer. */
  predicate IsInput(e: Event, peer: SocketAddr) {
    (e.arm.PacketIn? || e.arm.ClientRequest? || e.arm.ServerResponse?) && e.arm.peer == peer
  }

  /** The instant the cleanup timer is set to after h. */
  function CleanupDue(h: History): Millis {
    if h == [] then 30_000
    else if h[|h| - 1].event.arm.CleanupTimer? then h[|h| - 1].event.now + 30_000
    else CleanupDue(Prefix(h))
  }

  /** The step is input of the peer, a sweep that is due, or the cleanup at its instant; and no cleanup is overdue. */
  ghost predicate PlayableAt(x: Transition, peer: SocketAddr, due: Millis) {
    && (IsInput(x.event, peer) || x.event.arm.RetransmissionTimer? || x.event.arm.CleanupTimer?)
    && (x.event.arm.RetransmissionTimer? ==> DueBy(LiveOf(x.before), x.event.now))
    && (x.event.arm.CleanupTimer? ==> x.event.now == due)
    && x.event.now <= due
  }

  /** What a stack with this one peer goes through. */
  ghost predicate Playable(h: History, peer: SocketAddr) {
    h != [] ==> Playable(Prefix(h), peer) && PlayableAt(h[|h| - 1], peer, CleanupDue(Prefix(h)))
  }

  function Alone(peer: SocketAddr, o: Option<Session>, nextCleanup: Millis): Stack {
    Stack(if o.Some? then map[peer := o.value] else map[], nextCleanup)
  }

  lemma AloneSteps(peer: SocketAddr, x: Transition, due: Millis)
    requires IsStep(x, peer) && PlayableAt(x, peer, due)
    ensures Ready(Alone(peer, x.before, due), x.event)
    ensures StackStep(Alone(peer, x.before, due), x.event).state ==
            Alone(peer, x.after, if x.event.arm.CleanupTimer? then x.event.now + 30_000 else due)
  {
    hide Receive, SendRequest, SendResponse, Sweep, Idle;
    var st := Alone(peer, x.before, due);
    if x.event.arm.RetransmissionTimer? {
      var live := LiveOf(x.before);
      var t :| t in live && Deadline(live[t]).Some? && Deadline(live[t]).value <= x.event.now;
      assert (peer, t) in Live(st) && Live(st)[(peer, t)] == live[t];
    }
    assert StackStep(st, x.event).state.sessions == Alone(peer, x.after, due).sessions;
  }

  function Played(peer: SocketAddr, h: History): Stack { Alone(peer, Last(h), CleanupDue(h)) }

  /** Such a history is the share of that peer in a run of the loop. */
  lemma {:induction false} PlaysOut(h: History, peer: SocketAddr) returns (g: seq<StackTransition>)
    requires IsRun(h, peer) && Playable(h, peer)
    ensures IsLoopRun(g, 0) && Project(g, peer) == h && EventLoop.Reached(g, 0) == Played(peer, h)
    decreases |h|
  {
    hide IsRun, IsStep, IsLoopRun, Played, Project, PlayableAt, EventLoop.Reached;
    if h == [] {
      g := PlaysNothing(peer);
    } else {
      PrefixIsRun(h, peer);
      var f := PlaysOut(Prefix(h), peer);
      g := PlaysNext(f, Prefix(h), peer, h[|h| - 1]);
      assert Prefix(h) + [h[|h| - 1]] == h;
    }
  }

  lemma PlaysNothing(peer: SocketAddr) returns (g: seq<StackTransition>)
    ensures IsLoopRun(g, 0) && Project(g, peer) == [] && EventLoop.Reached(g, 0) == Played(peer, [])
  {
    g := [];
    NoRun();
  }

  lemma PlaysNext(f: seq<StackTransition>, h: History, peer: SocketAddr, x: Transition)
    returns (g: seq<StackTransition>)
    requires IsLoopRun(f, 0) && Project(f, peer) == h && EventLoop.Reached(f, 0) == Played(peer, h)
    requires IsStep(x, peer) && PlayableAt(x, peer, CleanupDue(h)) && x.before == Last(h)
    requires forall i :: 0 <= i < |h| ==> h[i].event.now <= x.event.now
    ensures IsLoopRun(g, 0) && Project(g, peer) == h + [x] && EventLoop.Reached(g, 0) == Played(peer, h + [x])
  {
    AloneSteps(peer, x, CleanupDue(h));
    hide IsStep, IsLoopRun, Ready, StackStep, PeerStep, PlayableAt, EventLoop.Reached;
    PlayedNext(peer, h, x);
    var y := Turn(Played(peer, h), x.event);
    assert forall i :: 0 <= i < |f| ==> f[i].event == Project(f, peer)[i].event;
    LoopGoesOn(f, 0, y);
    g := f + [y];
    TurnProjects(peer, x, y);
    assert Project(g, peer) == Project(f, peer) + [x];
  }

  lemma PlayedNext(peer: SocketAddr, h: History, x: Transition)
    ensures Played(peer, h + [x]) == Alone(peer, x.after, if x.event.arm.CleanupTimer?
                                                          then x.event.now + 30_000
                                                          else CleanupDue(h))
  {
    assert Prefix(h + [x]) == h;
  }

  lemma TurnProjects(peer: SocketAddr, x: Transition, y: StackTransition)
    requires IsStep(x, peer) && y.event == x.event && View(y.before, peer) == x.before && View(y.after, peer) == x.after
    ensures PeerTransition(y, peer) == x
  {
  }

  // ---- Building them ----

  ghost predicate Playing(h: History, peer: SocketAddr) { IsRun(h, peer) && Playable(h, peer) }

  function Now(h: History): Millis { if h == [] then 0 else h[|h| - 1].event.now }

  /** The step this event is after h. */
  function Next(h: History, peer: SocketAddr, e: Event): Transition {
    var a := PeerStep(Last(h), peer, e);
    Transition(Last(h), e, a.session, a.effects)
  }

  lemma NothingPlays(peer: SocketAddr)
    ensures Playing([], peer) && CleanupDue([]) == 30_000
  {
  }

  lemma PlayOn(h: History, peer: SocketAddr, e: Event)
    requires Playing(h, peer) && Now(h) <= e.now && PlayableAt(Next(h, peer, e), peer, CleanupDue(h))
    ensures var g := h + [Next(h, peer, e)];
      && Playing(g, peer) && Now(g) == e.now && Last(g) == PeerStep(Last(h), peer, e).session
      && CleanupDue(g) == if e.arm.CleanupTimer? then e.now + 30_000 else CleanupDue(h)
  {
    hide PlayableAt, PeerStep;
    var g := h + [Next(h, peer, e)];
    assert Prefix(g) == h;
    forall i | 0 < i < |g|
      ensures g[i].before == g[i - 1].after
    {
      if i < |h| { assert h[i].before == h[i - 1].after; }
    }
  }

  /** Input may come at any time before the next cleanup. */
  lemma PlayInput(h: History, peer: SocketAddr, e: Event)
    requires Playing(h, peer) && Now(h) <= e.now <= CleanupDue(h) && IsInput(e, peer)
    ensures var g := h + [Next(h, peer, e)];
      && Playing(g, peer) && Now(g) == e.now && Last(g) == PeerStep(Last(h), peer, e).session
      && CleanupDue(g) == CleanupDue(h)
  {
    hide Playing, PeerStep;
    PlayOn(h, peer, e);
  }

  /** Cleanup comes at its instant. */
  lemma PlayCleanup(h: History, peer: SocketAddr) returns (g: History)
    requires Playing(h, peer) && Now(h) <= CleanupDue(h)
    ensures g == h + [Next(h, peer, Event(CleanupDue(h), CleanupTimer))]
    ensures Playing(g, peer) && Now(g) == CleanupDue(h)
    ensures CleanupDue(g) == CleanupDue(h) + 30_000
    ensures Last(g) == if Last(h).Some? && Idle(Last(h).value) then None else Last(h)
  {
    hide Playing, Idle;
    PlayOn(h, peer, Event(CleanupDue(h), CleanupTimer));
    g := h + [Next(h, peer, Event(CleanupDue(h), CleanupTimer))];
  }

  /** Time passes while the session has something to keep: one cleanup every 30 s, in vain. */
  lemma {:induction false} Wait(h: History, peer: SocketAddr, until: Millis) returns (g: History)
    requires Playing(h, peer) && Now(h) <= CleanupDue(h) && Now(h) <= until && Last(h).Some? && !Idle(Last(h).value)
    ensures Playing(g, peer) && h <= g && Last(g) == Last(h) && Now(g) <= until <= CleanupDue(g)
    ensures forall i :: |h| <= i < |g| ==> g[i].event.arm.CleanupTimer?
    decreases until - CleanupDue(h)
  {
    hide Playing, Idle;
    g := h;
    if CleanupDue(h) < until {
      var f := PlayCleanup(h, peer);
      g := Wait(f, peer, until);
    }
  }

  function Ask(confirmable: bool): CoapRequest { CoapRequest(Get, [], [], None, [], None, confirmable) }

  const CONTENT := CoapResponse(OtherStatus(69), None, [])
  const SEEDS := Seeds(0, 0)

  /** Step |h| takes a request of the client; its caller has the number of the step. */
  function Asks(h: History, peer: SocketAddr, r: CoapRequest, seeds: Seeds, now: Millis): Event {
    Event(now, ClientRequest(peer, |h|, r, true, ACK_TIMEOUT, seeds))
  }

  function Arrives(peer: SocketAddr, p: Packet, now: Millis): Event { Event(now, PacketIn(peer, p, true, SEEDS)) }

  function Replies(peer: SocketAddr, t: Token, r: CoapResponse, now: Millis): Event {
    Event(now, ServerResponse(peer, t, r, true, SEEDS))
  }

  function AckOf(m: Mid, code: MessageClass): Packet {
    NEW_PACKET.(messageType := Acknowledgement, code := code, messageId := m)
  }

  // ---- The steps they are made of ----

  /** The session with the request of caller n in it. */
  function Registered(s: Session, n: nat, r: CoapRequest, now: Millis): Session {
    var t := TokenBytes(s.nextToken);
    var w := if r.confirmable then NewCon(n, s.nextMid, RequestPacket(r, t, s.nextMid), ACK_TIMEOUT, now)
             else NewNon(n, now);
    s.(nextToken := NextToken(s.nextToken), nextMid := NextMid(s.nextMid), exchanges := s.exchanges[t := w],
       midToToken := if r.confirmable then s.midToToken[s.nextMid := t] else s.midToToken)
  }

  lemma AskStep(h: History, peer: SocketAddr, r: CoapRequest, seeds: Seeds, now: Millis)
    ensures var s, e := Opened(Last(h), seeds), Asks(h, peer, r, seeds, now);
      var t := TokenBytes(s.nextToken);
      && IsInput(e, peer)
      && Next(h, peer, e).effects == {Sent(RequestPacket(r, t, s.nextMid), Copy(|h|, 0))} + DisplacedBy(s, t)
      && PeerStep(Last(h), peer, e).session == Some(Registered(s, |h|, r, now))
  {
    hide TokenBytes, RequestPacket;
  }

  /** An ACK with a response and the MID of the un-acknowledged exchange under t. */
  lemma AckStep(h: History, peer: SocketAddr, q: Packet, t: Token, now: Millis)
    requires Last(h).Some? && q.messageType.Acknowledgement? && q.code.Response?
    requires LeadsTo(Last(h).value, q.messageId, t)
    requires t in LiveOf(Last(h)) && LiveOf(Last(h))[t].mid == Some(q.messageId)
    ensures var s, e := Last(h).value, Arrives(peer, q, now);
      && IsInput(e, peer)
      && Next(h, peer, e).effects == {Settled(s.exchanges[t].caller, Completed(ResponseFromPacket(q).value))}
      && PeerStep(Last(h), peer, e).session ==
         Some(s.(exchanges := s.exchanges - {t}, midToToken := s.midToToken - {q.messageId}))
  {
    var s, m := Last(h).value, q.messageId;
    assert s.midToToken - {m} - {m} == s.midToToken - {m};
  }

  // ---- Spending names on ordinary requests ----

  /** The session after n more requests that have come and gone. */
  function Spent(s: Session, n: nat): Session {
    s.(nextMid := (s.nextMid + n) % MID_SPACE, nextToken := (s.nextToken + n) % TOKEN_SPACE)
  }

  /** The names handed out k allocations from now are not in use. */
  predicate NamesFree(s: Session, k: nat) {
    TokenBytes((s.nextToken + k) % TOKEN_SPACE) !in s.exchanges && (s.nextMid + k) % MID_SPACE !in s.midToToken
  }

  /** If the step takes a request, it encodes and its caller has the number of the step. */
  predicate CallerIsIndex(x: Transition, i: nat) {
    x.event.arm.ClientRequest? ==> x.event.arm.caller == i && x.event.arm.encodes
  }

  lemma ComesAndGoes(s: Session, n: nat, now: Millis)
    requires NamesFree(s, 0)
    ensures var t, s' := TokenBytes(s.nextToken), Registered(s, n, Ask(true), now);
      && t in s'.exchanges && s'.exchanges[t].mid == Some(s.nextMid) && LeadsTo(s', s.nextMid, t)
      && s'.(exchanges := s'.exchanges - {t}, midToToken := s'.midToToken - {s.nextMid}) == Spent(s, 1)
  {
    hide TokenBytes, RequestPacket;
    var t, s' := TokenBytes(s.nextToken), Registered(s, n, Ask(true), now);
    assert s'.exchanges - {t} == s.exchanges && s'.midToToken - {s.nextMid} == s.midToToken;
  }

  /** A CON request is taken and its response comes back in the ACK. */
  lemma OneRound(h: History, peer: SocketAddr, now: Millis) returns (g: History)
    requires Playing(h, peer) && Now(h) <= now <= CleanupDue(h) && Last(h).Some? && NamesFree(Last(h).value, 0)
    ensures Playing(g, peer) && |g| == |h| + 2 && h <= g && Now(g) == now && CleanupDue(g) == CleanupDue(h)
    ensures Last(g) == Some(Spent(Last(h).value, 1))
    ensures CallerIsIndex(g[|h|], |h|) && CallerIsIndex(g[|h| + 1], |h| + 1)
  {
    var s := Last(h).value;
    var t := TokenBytes(s.nextToken);
    var e := Asks(h, peer, Ask(true), SEEDS, now);
    var q := ResponsePacket(CONTENT, t, s.nextMid, Acknowledgement);
    AskStep(h, peer, Ask(true), SEEDS, now);
    ComesAndGoes(s, |h|, now);
    hide Playing, PeerStep, TokenBytes, Registered, Spent, NamesFree;
    PlayInput(h, peer, e);
    var f := h + [Next(h, peer, e)];
    AckStep(f, peer, q, t, now);
    PlayInput(f, peer, Arrives(peer, q, now));
    g := f + [Next(f, peer, Arrives(peer, q, now))];
  }

  lemma CountersAdd(m: Mid, t: TokenNumber, n: nat, k: nat)
    requires k <= 1
    ensures ((m + n) % MID_SPACE + k) % MID_SPACE == (m + (n + k)) % MID_SPACE
    ensures ((t + n) % TOKEN_SPACE + k) % TOKEN_SPACE == (t + (n + k)) % TOKEN_SPACE
  {
  }

  lemma SpentOneMore(s: Session, n: nat)
    ensures Spent(Spent(s, n), 1) == Spent(s, n + 1)
    ensures NamesFree(s, n) ==> NamesFree(Spent(s, n), 0)
  {
    hide TokenBytes;
    CountersAdd(s.nextMid, s.nextToken, n, 1);
    CountersAdd(s.nextMid, s.nextToken, n, 0);
  }

  /** n such requests in turn. */
  lemma {:induction false} Spend(h: History, peer: SocketAddr, n: nat, now: Millis) returns (g: History)
    requires Playing(h, peer) && Now(h) <= now <= CleanupDue(h) && Last(h).Some?
    requires forall k :: 0 <= k < n ==> NamesFree(Last(h).value, k)
    ensures Playing(g, peer) && h <= g && Now(g) <= now && CleanupDue(g) == CleanupDue(h)
    ensures Last(g) == Some(Spent(Last(h).value, n))
    ensures forall i :: |h| <= i < |g| ==> CallerIsIndex(g[i], i)
    decreases n
  {
    hide Playing, CleanupDue, NamesFree, CallerIsIndex;
    if n == 0 {
      g := h;
    } else {
      var f := Spend(h, peer, n - 1, now);
      SpentOneMore(Last(h).value, n - 1);
      g := OneRound(f, peer, now);
      forall i | |h| <= i < |g|
        ensures CallerIsIndex(g[i], i)
      {
        if i < |f| { assert g[i] == f[i]; }
      }
    }
  }

  const NO_SESSION := NewSession(SEEDS)

  /** Caller 0 asks and nothing else happens. */
  lemma AskOnce(peer: SocketAddr) returns (h: History)
    ensures Playing(h, peer) && |h| == 1 && Now(h) == 0 && CleanupDue(h) == 30_000
    ensures Last(h) == Some(Registered(NO_SESSION, 0, Ask(true), 0))
    ensures h[0] == Next([], peer, Asks([], peer, Ask(true), SEEDS, 0))
  {
    h := [Next([], peer, Asks([], peer, Ask(true), SEEDS, 0))];
    AskStep([], peer, Ask(true), SEEDS, 0);
    NothingPlays(peer);
    hide Playing, Registered, TokenBytes, RequestPacket, PeerStep;
    PlayInput([], peer, Asks([], peer, Ask(true), SEEDS, 0));
    assert [] + h == h;
  }

  lemma TokensDiffer(n: TokenNumber)
    requires n != 0
    ensures TokenBytes(0) != TokenBytes(n)
  {
    if TokenBytes(0) == TokenBytes(n) { TokenBytesInjective(0, n); }
  }

  // ---- The index ----

  /** 2^16 - 1 requests later the MID of caller 0 is the next, and caller 0 still waits for its ACK. */
  lemma RegistrationBreaksIndex(peer: SocketAddr) returns (g: History)
    ensures Playing(g, peer) && g != [] && g[|g| - 1].before.Some? && Last(g).Some?
    ensures Agrees(g[|g| - 1].before) && !FreshNames(g[|g| - 1].before.value) && !Indexed(Last(g).value)
  {
    var h := AskOnce(peer);
    NamesAreFree(Last(h).value, MID_SPACE - 1);
    var f := Spend(h, peer, MID_SPACE - 1, 0);
    var e := Asks(f, peer, Ask(true), SEEDS, 0);
    AskStep(f, peer, Ask(true), SEEDS, 0);
    hide Playing, TokenBytes, RequestPacket, PeerStep, Agrees, FreshNames, Registered, Spent, NamesFree;
    PlayInput(f, peer, e);
    g := f + [Next(f, peer, e)];
    MidIsInUse(Last(f).value);
    SecondUseOfMid(Last(f).value, |f|);
  }

  /** Names in use are at most those of caller 0, and they are 2^32 tokens and 2^16 MIDs away. */
  lemma NamesAreFree(s: Session, n: nat)
    requires s.nextToken == 1 && s.nextMid == 1 && s.exchanges.Keys <= {TokenBytes(0)} && s.midToToken.Keys <= {0}
    requires n < TOKEN_SPACE && (s.midToToken != map[] ==> n < MID_SPACE)
    ensures forall k :: 0 <= k < n ==> NamesFree(s, k)
  {
    forall k | 0 <= k < n
      ensures NamesFree(s, k)
    {
      TokensDiffer(1 + k);
      hide TokenBytes;
    }
  }

  lemma MidIsInUse(s: Session)
    requires s == Spent(Registered(NO_SESSION, 0, Ask(true), 0), MID_SPACE - 1)
    ensures Agrees(Some(s)) && !FreshNames(s) && s.nextMid == 0 && s.nextToken == MID_SPACE
    ensures TokenBytes(0) in s.exchanges && Holds(s.exchanges[TokenBytes(0)], 0)
  {
    hide TokenBytes, RequestPacket;
    assert s.exchanges.Keys == {TokenBytes(0)};
  }

  lemma SecondUseOfMid(s: Session, n: nat)
    requires s.nextMid == 0 && s.nextToken == MID_SPACE
    requires TokenBytes(0) in s.exchanges && Holds(s.exchanges[TokenBytes(0)], 0)
    ensures !Indexed(Registered(s, n, Ask(true), 0))
  {
    TokensDiffer(MID_SPACE);
    hide TokenBytes, RequestPacket;
    var s' := Registered(s, n, Ask(true), 0);
    assert s'.midToToken[0] == TokenBytes(MID_SPACE) && Holds(s'.exchanges[TokenBytes(0)], 0);
  }

  /** Caller 0's request once its empty ACK has come. */
  function Quieted0(): Session {
    var s, t := Registered(NO_SESSION, 0, Ask(true), 0), TokenBytes(0);
    s.(midToToken := map[], exchanges := map[t := s.exchanges[t].(backoff := None)])
  }

  lemma QuietedFirst(h: History, peer: SocketAddr)
    requires Last(h) == Some(Registered(NO_SESSION, 0, Ask(true), 0))
    ensures PeerStep(Last(h), peer, Arrives(peer, AckOf(0, Empty), 0)).session == Some(Quieted0())
  {
    hide TokenBytes, RequestPacket;
    var s, t := Last(h).value, TokenBytes(0);
    assert s.midToToken - {0} == map[];
    assert s.exchanges[t := s.exchanges[t].(backoff := None)] == map[t := s.exchanges[t].(backoff := None)];
  }

  /** Caller 0 asks and the empty ACK comes. */
  lemma AskAndQuiet(peer: SocketAddr) returns (h: History)
    ensures Playing(h, peer) && |h| == 2 && Now(h) == 0 && CleanupDue(h) == 30_000
    ensures h[0] == Next([], peer, Asks([], peer, Ask(true), SEEDS, 0)) && CallerIsIndex(h[1], 1)
    ensures Last(h) == Some(Quieted0())
  {
    var f := AskOnce(peer);
    QuietedFirst(f, peer);
    hide Playing, Registered, TokenBytes, PeerStep, Quieted0;
    PlayInput(f, peer, Arrives(peer, AckOf(0, Empty), 0));
    h := f + [Next(f, peer, Arrives(peer, AckOf(0, Empty), 0))];
  }

  lemma QuietedIs()
    ensures var s := Quieted0();
      && s.nextToken == 1 && s.nextMid == 1 && s.exchanges.Keys == {TokenBytes(0)} && s.midToToken == map[]
      && s.dedup == map[]
      && s.exchanges[TokenBytes(0)].caller == 0 && s.exchanges[TokenBytes(0)].mid == Some(0)
      && Deadline(s.exchanges[TokenBytes(0)]).None?
  {
    hide TokenBytes, RequestPacket;
  }

  lemma SeparateResponse(h: History, peer: SocketAddr, t: Token, m: Mid)
    requires Last(h).Some? && m !in Last(h).value.dedup && t in Last(h).value.exchanges
    ensures var q, s := ResponsePacket(CONTENT, t, m, NonConfirmable), Last(h).value;
      PeerStep(Last(h), peer, Arrives(peer, q, 0)).session ==
      Some(s.(dedup := s.dedup[m := DedupEntry(None, 0)], exchanges := s.exchanges - {t},
              midToToken := WithoutMid(s.midToToken, s.exchanges[t].mid)))
  {
  }

  /** No ACK and no RST with this MID changes anything. */
  ghost predicate Unreachable(o: Option<Session>, peer: SocketAddr, m: Mid) {
    forall q: Packet, now: Millis :: q.messageId == m && (q.messageType.Acknowledgement? || q.messageType.Reset?) ==>
      PeerStep(o, peer, Arrives(peer, q, now)) == PeerAfter(o, {})
  }

  lemma NothingReaches(o: Option<Session>, peer: SocketAddr, m: Mid)
    requires o.Some? && m !in o.value.midToToken
    ensures Unreachable(o, peer, m)
  {
  }

  /** Both requests, the acknowledged one and the one that has taken its MID. */
  ghost predicate BothUse(s: Session) {
    var t0, t1 := TokenBytes(0), TokenBytes(MID_SPACE);
    && t0 != t1 && s.exchanges.Keys == {t0, t1} && s.midToToken == map[0 := t1] && s.dedup == map[]
    && s.exchanges[t0].mid == Some(0) && s.exchanges[t0].backoff.None?
    && Holds(s.exchanges[t1], 0)
  }

  lemma LateAndNew(s: Session, n: nat)
    requires s == Spent(Quieted0(), MID_SPACE - 1)
    ensures BothUse(Registered(s, n, Ask(true), 0)) && Indexed(Registered(s, n, Ask(true), 0))
  {
    QuietedIs();
    TokensDiffer(MID_SPACE);
    hide TokenBytes, RequestPacket, Quieted0;
  }

  lemma OnlyNew(s: Session, s': Session)
    requires BothUse(s)
    requires s' == s.(dedup := s.dedup[7 := DedupEntry(None, 0)], exchanges := s.exchanges - {TokenBytes(0)},
                      midToToken := WithoutMid(s.midToToken, s.exchanges[TokenBytes(0)].mid))
    ensures s'.midToToken == map[] && !Indexed(s')
    ensures TokenBytes(MID_SPACE) in s'.exchanges && Holds(s'.exchanges[TokenBytes(MID_SPACE)], 0)
  {
    hide TokenBytes;
    assert TokenBytes(MID_SPACE) in s'.exchanges;
  }

  /** Caller 0 is acknowledged, and 2^16 MIDs later another request gets its MID. */
  lemma MidIsTakenAgain(peer: SocketAddr) returns (k: History)
    ensures Playing(k, peer) && Now(k) == 0 <= CleanupDue(k) && Last(k).Some?
    ensures BothUse(Last(k).value) && Indexed(Last(k).value)
  {
    var h := AskAndQuiet(peer);
    QuietedIs();
    NamesAreFree(Quieted0(), MID_SPACE - 1);
    var f := Spend(h, peer, MID_SPACE - 1, 0);
    var e := Asks(f, peer, Ask(true), SEEDS, 0);
    AskStep(f, peer, Ask(true), SEEDS, 0);
    hide Playing, TokenBytes, RequestPacket, PeerStep, Registered, Spent, Quieted0, NamesFree, Indexed, BothUse;
    PlayInput(f, peer, e);
    LateAndNew(Last(f).value, |f|);
    k := f + [Next(f, peer, e)];
  }

  /** An acknowledged CON request is completed by its separate response while a later one has taken its MID: the later
      one loses its index entry and no ACK or RST can reach it any more. */
  lemma CompletionBreaksIndex(peer: SocketAddr) returns (g: History)
    ensures Playing(g, peer) && g != [] && g[|g| - 1].before.Some? && Last(g).Some?
    ensures Indexed(g[|g| - 1].before.value) && !Indexed(Last(g).value)
    ensures exists t, m :: t in LiveOf(Last(g)) && Holds(LiveOf(Last(g))[t], m) && Unreachable(Last(g), peer, m)
  {
    var k := MidIsTakenAgain(peer);
    var q := ResponsePacket(CONTENT, TokenBytes(0), 7, NonConfirmable);
    UsesBoth(Last(k).value);
    SeparateResponse(k, peer, TokenBytes(0), 7);
    hide Playing, TokenBytes, ResponsePacket, PeerStep, Indexed, Unreachable, BothUse;
    PlayInput(k, peer, Arrives(peer, q, 0));
    g := k + [Next(k, peer, Arrives(peer, q, 0))];
    OnlyNew(Last(k).value, Last(g).value);
    NothingReaches(Last(g), peer, 0);
    var t := TokenBytes(MID_SPACE);
    assert t in LiveOf(Last(g)) && Holds(LiveOf(Last(g))[t], 0) && Unreachable(Last(g), peer, 0);
  }

  lemma UsesBoth(s: Session)
    requires BothUse(s)
    ensures 7 !in s.dedup && TokenBytes(0) in s.exchanges
  {
    hide TokenBytes;
  }

  // ---- The allocators ----

  /** 2^32 - 1 requests after an acknowledged one that still waits for its response, its token is the next. */
  lemma TokenComesRound(peer: SocketAddr) returns (f: History)
    ensures Playing(f, peer) && Now(f) == 0 <= CleanupDue(f) && Last(f) == Some(Spent(Quieted0(), TOKEN_SPACE - 1))
    ensures |f| > 0 && f[0].event.arm.ClientRequest? && forall i :: 0 <= i < |f| ==> CallerIsIndex(f[i], i)
  {
    var h := AskAndQuiet(peer);
    QuietedIs();
    NamesAreFree(Quieted0(), TOKEN_SPACE - 1);
    hide Playing, Quieted0, NamesFree, CleanupDue;
    f := Spend(h, peer, TOKEN_SPACE - 1, 0);
    assert f[0] == h[0] && f[1] == h[1];
  }

  lemma FirstIsDisplaced()
    ensures var s := Spent(Quieted0(), TOKEN_SPACE - 1);
      s.nextToken == 0 && Settled(0, Displaced) in DisplacedBy(s, TokenBytes(0))
  {
    QuietedIs();
    hide TokenBytes, Quieted0;
  }

  /** The request that gets the token displaces the one that waits, whose caller is dropped without an answer. */
  lemma RequestIsDisplaced(peer: SocketAddr) returns (g: History)
    ensures Playing(g, peer) && CallersDistinct(g) && |g| > 1 && g[0].event.arm.ClientRequest? && g[0].event.arm.encodes
    ensures forall i :: 0 <= i < |g| && g[i].event.arm.ClientRequest? ==> g[i].event.arm.encodes
    ensures SettledAt(g[|g| - 1], g[0].event.arm.caller, Displaced)
  {
    var f := TokenComesRound(peer);
    FirstIsDisplaced();
    var e := Asks(f, peer, Ask(true), SEEDS, 0);
    AskStep(f, peer, Ask(true), SEEDS, 0);
    CallersAreIndices(f, Next(f, peer, e));
    hide Playing, TokenBytes, RequestPacket, PeerStep, Registered, Quieted0, Spent, CallersDistinct, CleanupDue;
    PlayInput(f, peer, e);
    g := f + [Next(f, peer, e)];
    assert g[0] == f[0] && CallerIsIndex(f[0], 0);
  }

  lemma CallersAreIndices(f: History, x: Transition)
    requires forall i :: 0 <= i < |f| ==> CallerIsIndex(f[i], i)
    requires CallerIsIndex(x, |f|)
    ensures CallersDistinct(f + [x])
    ensures forall i :: 0 <= i <= |f| && (f + [x])[i].event.arm.ClientRequest? ==> (f + [x])[i].event.arm.encodes
  {
    assert forall i :: 0 <= i <= |f| ==> CallerIsIndex((f + [x])[i], i);
  }

  // ---- Answers that are ignored ----

  /** The last step brings packet q, which answers the request of caller 0, and that goes on waiting. */
  ghost predicate IgnoresAnswer(g: History, peer: SocketAddr, q: Packet) {
    && |g| > 1
    && g[|g| - 1].event.arm.PacketIn? && g[|g| - 1].event.arm.packet == q
    && Originates(g[0], peer, 0)
    && Answers(q, PacketOf(g[0]), Completed(CONTENT))
    && Pending(LiveOf(Last(g)), 0)
    && !EndsAt(g[|g| - 1], 0)
  }

  lemma OriginOfFirst(peer: SocketAddr)
    ensures var x := Next([], peer, Asks([], peer, Ask(true), SEEDS, 0));
      Originates(x, peer, 0) && PacketOf(x) == RequestPacket(Ask(true), TokenBytes(0), 0)
  {
    hide TokenBytes;
  }

  /** A response in an ACK comes after the empty ACK: it is dropped, and the request has no deadline either. */
  lemma LateAckIsIgnored(peer: SocketAddr) returns (g: History, q: Packet)
    ensures Playing(g, peer) && IgnoresAnswer(g, peer, q) && q.messageType.Acknowledgement?
    ensures forall t :: t in LiveOf(Last(g)) ==> Deadline(LiveOf(Last(g))[t]).None?
  {
    var h := AskAndQuiet(peer);
    OriginOfFirst(peer);
    QuietedIs();
    q := AckOf(0, Response(OtherStatus(69)));
    NothingReaches(Last(h), peer, 0);
    hide Playing, TokenBytes, RequestPacket, PeerStep, Quieted0;
    var e := Arrives(peer, q, 0);
    PlayInput(h, peer, e);
    g := h + [Next(h, peer, e)];
    assert TokenBytes(0) in LiveOf(Last(g)) && LiveOf(Last(g))[TokenBytes(0)].caller == 0;
  }

  /** A response comes with the MID of an earlier message of the peer: it is dropped as a duplicate. */
  lemma RepeatedMidIsIgnored(peer: SocketAddr) returns (g: History, q: Packet)
    ensures Playing(g, peer) && IgnoresAnswer(g, peer, q) && q.messageType.NonConfirmable?
  {
    var h := AskOnce(peer);
    OriginOfFirst(peer);
    var p := NEW_PACKET.(messageType := NonConfirmable, code := Request(Get), messageId := 7);
    q := ResponsePacket(CONTENT, TokenBytes(0), 7, NonConfirmable);
    NonRequestArrives(h, peer, p);
    hide Playing, TokenBytes, RequestPacket, PeerStep;
    PlayInput(h, peer, Arrives(peer, p, 0));
    var f := h + [Next(h, peer, Arrives(peer, p, 0))];
    DuplicateArrives(f, peer, q);
    PlayInput(f, peer, Arrives(peer, q, 0));
    g := f + [Next(f, peer, Arrives(peer, q, 0))];
    assert g[0] == h[0];
    assert TokenBytes(0) in LiveOf(Last(g)) && LiveOf(Last(g))[TokenBytes(0)].caller == 0;
  }

  lemma NonRequestArrives(h: History, peer: SocketAddr, p: Packet)
    requires Last(h).Some? && p.messageId !in Last(h).value.dedup && p.messageType.NonConfirmable? && p.code.Request?
    ensures var s := Last(h).value;
      PeerStep(Last(h), peer, Arrives(peer, p, 0)).session ==
      Some(s.(dedup := s.dedup[p.messageId := DedupEntry(None, 0)]))
  {
  }

  lemma DuplicateArrives(h: History, peer: SocketAddr, p: Packet)
    requires Last(h).Some? && p.messageId in Last(h).value.dedup && p.messageType.NonConfirmable?
    ensures PeerStep(Last(h), peer, Arrives(peer, p, 0)) == PeerAfter(Last(h), {})
  {
  }

  // ---- Replies that are not the right ones ----

  predicate IsConRequest(p: Packet) { p.messageType.Confirmable? && p.code.Request? }

  lemma ConRequestArrives(h: History, peer: SocketAddr, p: Packet, now: Millis)
    requires IsConRequest(p) && p.messageId !in Seen(Last(h))
    ensures var e, s := Arrives(peer, p, now), Opened(Last(h), SEEDS);
      && Accepts(Next(h, peer, e), peer, p.messageId) && Next(h, peer, e).effects == {Dispatched(p)}
      && PeerStep(Last(h), peer, e).session ==
         Some(s.(dedup := s.dedup[p.messageId := DedupEntry(None, now)], conMids := s.conMids[p.token := p.messageId]))
  {
  }

  lemma ServerAnswers(h: History, peer: SocketAddr, t: Token, r: CoapResponse, now: Millis)
    requires Last(h).Some? && t in Owed(Last(h)) && Owed(Last(h))[t] in Seen(Last(h))
    ensures var e, m := Replies(peer, t, r, now), Owed(Last(h))[t];
      var o, q := PeerStep(Last(h), peer, e).session, ResponsePacket(r, t, m, Acknowledgement);
      && Next(h, peer, e).effects == {Sent(q, Piggybacked)}
      && o.Some? && m in Seen(o) && Seen(o)[m].cached == Some(q)
  {
    hide ResponsePacket;
  }

  lemma ReplayArrives(h: History, peer: SocketAddr, q: Packet, now: Millis)
    requires Last(h).Some? && IsConRequest(q)
    requires q.messageId in Seen(Last(h)) && Seen(Last(h))[q.messageId].cached.Some?
    ensures Next(h, peer, Arrives(peer, q, now)).effects == {Sent(Seen(Last(h))[q.messageId].cached.value, Replayed)}
  {
  }

  /** A server that has answered request p, and 30 s cleanups since. */
  lemma AnswersAndWaits(peer: SocketAddr, p: Packet, r: CoapResponse, later: Millis) returns (f: History)
    requires IsConRequest(p)
    ensures Playing(f, peer) && |f| >= 2 && Now(f) <= later <= CleanupDue(f) && Last(f).Some?
    ensures p.messageId in Seen(Last(f))
    ensures Seen(Last(f))[p.messageId].cached == Some(ResponsePacket(r, p.token, p.messageId, Acknowledgement))
    ensures f[0] == Next([], peer, Arrives(peer, p, 0)) && f[0].effects == {Dispatched(p)}
    ensures f[1].event == Replies(peer, p.token, r, 0)
    ensures f[1].effects == {Sent(ResponsePacket(r, p.token, p.messageId, Acknowledgement), Piggybacked)}
    ensures forall i :: 2 <= i < |f| ==> f[i].event.arm.CleanupTimer?
  {
    NothingPlays(peer);
    ConRequestArrives([], peer, p, 0);
    hide Playing, PeerStep, ResponsePacket;
    PlayInput([], peer, Arrives(peer, p, 0));
    var h := [] + [Next([], peer, Arrives(peer, p, 0))];
    ServerAnswers(h, peer, p.token, r, 0);
    var e := Replies(peer, p.token, r, 0);
    PlayInput(h, peer, e);
    var k := h + [Next(h, peer, e)];
    f := Wait(k, peer, later);
    assert f[0] == k[0] && f[1] == k[1];
  }

  /** A server that sends no requests itself answers request p. However much later the peer uses the MID for another
      request q, it gets the reply to p, and q is not delivered. */
  lemma ReusedMidGetsOldReply(peer: SocketAddr, p: Packet, q: Packet, r: CoapResponse, later: Millis)
    returns (g: History)
    requires IsConRequest(p) && IsConRequest(q) && p.messageId == q.messageId
    ensures Playing(g, peer) && |g| > 2 && forall i :: 0 <= i < |g| ==> !g[i].event.arm.ClientRequest?
    ensures g[0].event == Arrives(peer, p, 0) && g[|g| - 1].event == Arrives(peer, q, later)
    ensures g[|g| - 1].effects == {Sent(ResponsePacket(r, p.token, p.messageId, Acknowledgement), Replayed)}
  {
    var f := AnswersAndWaits(peer, p, r, later);
    hide Playing, PeerStep, ResponsePacket;
    ReplayArrives(f, peer, q, later);
    PlayInput(f, peer, Arrives(peer, q, later));
    g := f + [Next(f, peer, Arrives(peer, q, later))];
    assert g[0] == f[0];
  }

  lemma ExpirySweep(h: History, peer: SocketAddr, m: Mid, c: Caller)
    requires Last(h).Some? && TokenBytes(0) in LiveOf(Last(h)) && m in Seen(Last(h)) && Seen(Last(h))[m].created == 0
    requires LiveOf(Last(h))[TokenBytes(0)] == NewNon(c, 102_000)
    ensures DueBy(LiveOf(Last(h)), 247_000)
    ensures var o := PeerStep(Last(h), peer, Event(247_000, RetransmissionTimer)).session;
      o.Some? && m !in Seen(o) && Owed(o) == Owed(Last(h))
  {
    hide TokenBytes;
    assert Deadline(LiveOf(Last(h))[TokenBytes(0)]) == Some(247_000);
  }

  /** p is pending since instant 0, and a NON request of the client goes 102 s later. */
  ghost predicate OwesAndAsks(h: History, peer: SocketAddr, p: Packet, c: Caller) {
    && Playing(h, peer) && Now(h) == 102_000 <= CleanupDue(h) && Last(h).Some?
    && p.messageId in Seen(Last(h)) && Seen(Last(h))[p.messageId].created == 0
    && PendingAs(Last(h), p.token, p.messageId)
    && TokenBytes(0) in LiveOf(Last(h))
    && LiveOf(Last(h))[TokenBytes(0)] == NewNon(c, 102_000)
  }

  /** The session of a server that has got p and nothing else. */
  function Owing(p: Packet): Session {
    NO_SESSION.(dedup := map[p.messageId := DedupEntry(None, 0)], conMids := map[p.token := p.messageId])
  }

  lemma OweOnce(peer: SocketAddr, p: Packet) returns (h: History)
    requires IsConRequest(p)
    ensures Playing(h, peer) && Now(h) == 0 <= CleanupDue(h) && Last(h) == Some(Owing(p))
  {
    NothingPlays(peer);
    ConRequestArrives([], peer, p, 0);
    hide Playing, PeerStep, CleanupDue;
    PlayInput([], peer, Arrives(peer, p, 0));
    h := [] + [Next([], peer, Arrives(peer, p, 0))];
  }

  lemma OwingAndAsking(p: Packet, n: nat, now: Millis)
    ensures var o := Some(Registered(Owing(p), n, Ask(false), now));
      && !Idle(Owing(p))
      && p.messageId in Seen(o) && Seen(o)[p.messageId].created == 0 && PendingAs(o, p.token, p.messageId)
      && TokenBytes(0) in LiveOf(o) && LiveOf(o)[TokenBytes(0)] == NewNon(n, now)
  {
    hide TokenBytes, RequestPacket;
    assert p.messageId in Owing(p).dedup;
  }

  lemma OweAndAsk(peer: SocketAddr, p: Packet) returns (h: History, c: Caller)
    requires IsConRequest(p)
    ensures OwesAndAsks(h, peer, p, c)
  {
    hide Playing, TokenBytes, RequestPacket, PeerStep, CleanupDue, Owing, Registered, Idle;
    var asked := 102_000;
    OwingAndAsking(p, 0, asked);
    var f := OweOnce(peer, p);
    f := Wait(f, peer, asked);
    var e := Asks(f, peer, Ask(false), SEEDS, asked);
    AskStep(f, peer, Ask(false), SEEDS, asked);
    PlayInput(f, peer, e);
    OwingAndAsking(p, |f|, asked);
    h, c := f + [Next(f, peer, e)], |f|;
  }

  /** When that request expires, 247 s after p came, the sweep forgets the MID of p, which is still unanswered. */
  lemma MidIsForgotten(peer: SocketAddr, p: Packet) returns (h: History)
    requires IsConRequest(p)
    ensures Playing(h, peer) && Now(h) == 247_000 <= CleanupDue(h) && Last(h).Some?
    ensures p.messageId !in Seen(Last(h)) && PendingAs(Last(h), p.token, p.messageId)
  {
    var f, c := OweAndAsk(peer, p);
    assert !Idle(Last(f).value);
    hide Playing, TokenBytes, PeerStep, CleanupDue, Idle;
    var g := Wait(f, peer, 247_000);
    ExpirySweep(g, peer, p.messageId, c);
    var sweep := Event(247_000, RetransmissionTimer);
    PlayOn(g, peer, sweep);
    h := g + [Next(g, peer, sweep)];
  }

  /** Then the peer uses the MID again, and the server need only answer both for two different ACKs to carry it. */
  lemma RepliesGetMixedUp(peer: SocketAddr) returns (g: History)
    ensures Playing(g, peer) && !NoClash(g, peer) && !FaithfulReplies(g, peer)
  {
    var p := NEW_PACKET.(code := Request(Get), messageId := 5, token := [1]);
    var q := p.(token := [2]);
    var h := MidIsForgotten(peer, p);
    ConRequestArrives(h, peer, q, 247_000);
    hide Playing, PeerStep, FaithfulReplies;
    var e := Arrives(peer, q, 247_000);
    PlayInput(h, peer, e);
    var f := h + [Next(h, peer, e)];
    assert PendingAs(f[|h|].before, [1], 5);
    assert Clashes(f[|h|], peer);
    g := GoesOn(f, peer);
    assert g[|h|] == f[|h|];
  }

  lemma GoesOn(h: History, peer: SocketAddr) returns (g: History)
    requires Playing(h, peer) && h != [] && Now(h) <= CleanupDue(h) && Clashes(h[|h| - 1], peer)
    ensures Playing(g, peer) && h <= g && !FaithfulReplies(g, peer)
  {
    hide IsRun, FaithfulReplies, Clashes, AnswersOnly, AtOnce, Playable, CleanupDue;
    g := ClashBreaksFidelity(h, peer, CONTENT);
    assert g[..|h|] == h;
    AnswersArePlayable(g, |h|, peer);
  }

  lemma {:induction false} AnswersArePlayable(g: History, k: nat, peer: SocketAddr)
    requires 0 < k <= |g| && Playable(g[..k], peer) && AnswersOnly(g, k, peer) && AtOnce(g, k)
    requires g[k - 1].event.now <= CleanupDue(g[..k])
    ensures Playable(g, peer) && CleanupDue(g) == CleanupDue(g[..k])
    decreases |g|
  {
    hide PlayableAt;
    if k == |g| {
      assert g[..k] == g;
    } else {
      assert Prefix(g)[..k] == g[..k];
      AnswersArePlayable(Prefix(g), k, peer);
      AnswerIsPlayable(g[|g| - 1], peer, CleanupDue(Prefix(g)));
    }
  }

  lemma AnswerIsPlayable(x: Transition, peer: SocketAddr, due: Millis)
    requires x.event.arm.ServerResponse? && x.event.arm.peer == peer && x.event.now <= due
    ensures PlayableAt(x, peer, due)
  {
  }
}
