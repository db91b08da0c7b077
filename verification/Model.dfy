/** The message layer as a state machine on values: one session, one peer, the whole stack.
    The classes of the other modules are proved to take exactly these steps. */
module Model {
  import opened Types
  import opened Messages

  // Transmission parameters (section 4.8 of RFC 7252)
  const ACK_TIMEOUT: Millis := 2_000
  const ACK_TIMEOUT_CEILING: Millis := 3_000   // ACK_TIMEOUT * ACK_RANDOM_FACTOR
  const MAX_RETRANSMIT: nat := 4
  const MAX_LATENCY: Millis := 100_000
  const EXCHANGE_LIFETIME: Millis := 247_000
  const NON_LIFETIME: Millis := 145_000
  const IDLE_SESSION_CLEANUP_INTERVAL: Millis := 30_000

  type InitialTimeout = t: nat | ACK_TIMEOUT <= t <= ACK_TIMEOUT_CEILING witness ACK_TIMEOUT

  /** Identity of the one-shot sender a client request carries. */
  type Caller = nat

  /** Why a datagram leaves: copy number k of a request, or one of the replies. */
  datatype Reason = Copy(caller: Caller, k: nat) | Immediate | Piggybacked | Replayed | Separate

  /** How a request ends. `Unencodable` and `Displaced` drop the sender without an answer. */
  datatype Outcome = Completed(response: CoapResponse) | WasReset | TimedOut(retransmits: nat) | Unencodable | Displaced

  datatype Effect =
    | Sent(packet: Packet, reason: Reason)
    | Dispatched(request: Packet)
    | Settled(caller: Caller, outcome: Outcome)

  // ---- Exchanges ----

  datatype Backoff = Backoff(bytes: Packet, count: nat, timeout: Millis, due: Millis)

  datatype Waiting = Waiting(caller: Caller, mid: Option<Mid>, backoff: Option<Backoff>, expiresAt: Option<Millis>)

  function NewBackoff(bytes: Packet, t0: Millis, now: Millis): Backoff {
    Backoff(bytes, 0, t0, now + t0)
  }

  function Advanced(b: Backoff, now: Millis): Backoff {
    Backoff(b.bytes, b.count + 1, 2 * b.timeout, now + 2 * b.timeout)
  }

  function NewCon(caller: Caller, mid: Mid, bytes: Packet, t0: Millis, now: Millis): Waiting {
    Waiting(caller, Some(mid), Some(NewBackoff(bytes, t0, now)), None)
  }

  function NewNon(caller: Caller, now: Millis): Waiting {
    Waiting(caller, None, None, Some(now + NON_LIFETIME))
  }

  predicate Due(w: Waiting, now: Millis) { w.backoff.Some? && now >= w.backoff.value.due }

  /** A due exchange with retransmissions left. */
  predicate Resends(w: Waiting, now: Millis) { Due(w, now) && w.backoff.value.count < MAX_RETRANSMIT }

  /** An exchange the sweep gives up on. */
  predicate GivenUp(w: Waiting, now: Millis) {
    if Due(w, now) then w.backoff.value.count >= MAX_RETRANSMIT
    else w.expiresAt.Some? && now >= w.expiresAt.value
  }

  function Swept(w: Waiting, now: Millis): Waiting {
    if Resends(w, now) then w.(backoff := Some(Advanced(w.backoff.value, now))) else w
  }

  function RetransmitCount(w: Waiting): nat {
    if w.backoff.Some? then w.backoff.value.count else 0
  }

  function Deadline(w: Waiting): Option<Millis> {
    if w.backoff.Some? then Some(w.backoff.value.due) else w.expiresAt
  }

  /** `next` is the least deadline of the exchanges under `keys`, None when they have none. */
  ghost predicate IsNextAmong<K(!new)>(m: map<K, Waiting>, keys: set<K>, next: Option<Millis>)
    requires keys <= m.Keys
  {
    && (forall k :: k in keys && Deadline(m[k]).Some? ==> next.Some? && next.value <= Deadline(m[k]).value)
    && (next.Some? ==> exists k :: k in keys && Deadline(m[k]) == next)
  }

  ghost predicate IsNextDeadline<K(!new)>(m: map<K, Waiting>, next: Option<Millis>) { IsNextAmong(m, m.Keys, next) }

  /** No two live exchanges answer to the same caller. */
  ghost predicate CallersApart(live: map<Token, Waiting>) {
    forall t, u :: t in live && u in live && live[t].caller == live[u].caller ==> t == u
  }

  // ---- Allocators ----

  function NextMid(m: Mid): Mid { (m + 1) % MID_SPACE }

  function NextToken(n: TokenNumber): TokenNumber { (n + 1) % TOKEN_SPACE }

  /** `u32::to_be_bytes`. */
  function TokenBytes(n: TokenNumber): Token {
    [n / 0x100_0000, n / 0x1_0000 % 256, n / 256 % 256, n % 256]
  }

  // ---- Sessions ----

  datatype DedupEntry = DedupEntry(cached: Option<Packet>, created: Millis)

  datatype Session = Session(
    exchanges: map<Token, Waiting>,
    midToToken: map<Mid, Token>,
    nextMid: Mid,
    nextToken: TokenNumber,
    dedup: map<Mid, DedupEntry>,
    conMids: map<Token, Mid>)

  /** Random starts of the two allocators of a session created by this step. */
  datatype Seeds = Seeds(mid: Mid, token: TokenNumber)

  function NewSession(seeds: Seeds): Session {
    Session(map[], map[], seeds.mid, seeds.token, map[], map[])
  }

  predicate Idle(s: Session) {
    s.exchanges == map[] && s.midToToken == map[] && s.dedup == map[] && s.conMids == map[]
  }

  datatype After = After(state: Session, effects: set<Effect>)

  function WithoutMid(index: map<Mid, Token>, mid: Option<Mid>): map<Mid, Token> {
    if mid.Some? then index - {mid.value} else index
  }

  function CompleteExchange(s: Session, token: Token, response: CoapResponse): After {
    if token in s.exchanges then
      var w := s.exchanges[token];
      After(s.(exchanges := s.exchanges - {token}, midToToken := WithoutMid(s.midToToken, w.mid)),
            {Settled(w.caller, Completed(response))})
    else After(s, {})
  }

  datatype AckResult = EmptyAck | PiggybackedResponse(token: Token) | Unknown

  function HandleAckResult(s: Session, mid: Mid, code: MessageClass): AckResult {
    if mid !in s.midToToken then Unknown
    else match code
      case Empty => EmptyAck
      case Response(_) => PiggybackedResponse(s.midToToken[mid])
      case _ => Unknown
  }

  function HandleAck(s: Session, mid: Mid, code: MessageClass): Session {
    if mid !in s.midToToken then s
    else
      var token := s.midToToken[mid];
      var s' := s.(midToToken := s.midToToken - {mid});
      if code.Empty? && token in s.exchanges
      then s'.(exchanges := s.exchanges[token := s.exchanges[token].(backoff := None)])
      else s'
  }

  function HandleRst(s: Session, mid: Mid): After {
    if mid !in s.midToToken then After(s, {})
    else
      var token := s.midToToken[mid];
      var s' := s.(midToToken := s.midToToken - {mid});
      if token in s.exchanges
      then After(s'.(exchanges := s.exchanges - {token}), {Settled(s.exchanges[token].caller, WasReset)})
      else After(s', {})
  }

  function RecordInboundMid(s: Session, mid: Mid, now: Millis): Session {
    s.(dedup := s.dedup[mid := DedupEntry(None, now)])
  }

  function CacheResponse(s: Session, mid: Mid, bytes: Packet): Session {
    if mid in s.dedup then s.(dedup := s.dedup[mid := s.dedup[mid].(cached := Some(bytes))]) else s
  }

  function EmptyAckPacket(mid: Mid): Packet {
    NEW_PACKET.(messageType := Acknowledgement, code := Empty, messageId := mid)
  }

  /** The empty ACK a confirmable message that is no request gets at once. */
  function AcknowledgeNow(s: Session, p: Packet, encodes: bool): After {
    var ack := EmptyAckPacket(p.messageId);
    if p.messageType.Confirmable? && encodes
    then After(CacheResponse(s, p.messageId, ack), {Sent(ack, Immediate)})
    else After(s, {})
  }

  /** A first CON or NON with this MID: remember it, acknowledge it, hand it up. */
  function Accept(s: Session, p: Packet, now: Millis, encodes: bool): After {
    var noted := RecordInboundMid(s, p.messageId, now);
    match p.code
    case Request(_) =>
      After(if p.messageType.Confirmable? then noted.(conMids := noted.conMids[p.token := p.messageId]) else noted,
            {Dispatched(p)})
    case Response(_) =>
      var acked := AcknowledgeNow(noted, p, encodes);
      var done := CompleteExchange(acked.state, p.token, ResponseFromPacket(p).value);
      After(done.state, acked.effects + done.effects)
    case _ => AcknowledgeNow(noted, p, encodes)
  }

  /** A CON or NON whose MID is in the dedup table: only a cached reply goes out. */
  function Replay(s: Session, p: Packet): set<Effect>
    requires p.messageId in s.dedup
  {
    var cached := s.dedup[p.messageId].cached;
    if p.messageType.Confirmable? && cached.Some? then {Sent(cached.value, Replayed)} else {}
  }

  function Receive(s: Session, p: Packet, now: Millis, encodes: bool): After {
    match p.messageType
    case Confirmable => if p.messageId in s.dedup then After(s, Replay(s, p)) else Accept(s, p, now, encodes)
    case NonConfirmable => if p.messageId in s.dedup then After(s, Replay(s, p)) else Accept(s, p, now, encodes)
    case Acknowledgement => ReceiveAck(s, p)
    case Reset => HandleRst(s, p.messageId)
  }

  function ReceiveAck(s: Session, p: Packet): After {
    match p.code
    case Empty => After(HandleAck(s, p.messageId, p.code), {})
    case Response(_) =>
      var result := HandleAckResult(s, p.messageId, p.code);
      var s' := HandleAck(s, p.messageId, p.code);
      if result.PiggybackedResponse? then CompleteExchange(s', result.token, ResponseFromPacket(p).value)
      else After(s', {})
    case _ => After(s, {})
  }

  /** An exchange already registered under `token` loses its sender. */
  function DisplacedBy(s: Session, token: Token): set<Effect> {
    if token in s.exchanges then {Settled(s.exchanges[token].caller, Displaced)} else {}
  }

  function SendRequest(s: Session, caller: Caller, r: CoapRequest, encodes: bool, t0: Millis, now: Millis): After {
    var token := TokenBytes(s.nextToken);
    var mid := s.nextMid;
    var s' := s.(nextToken := NextToken(s.nextToken), nextMid := NextMid(mid));
    var bytes := RequestPacket(r, token, mid);
    if !encodes then After(s', {Settled(caller, Unencodable)})
    else
      After(if r.confirmable
            then s'.(midToToken := s.midToToken[mid := token],
                     exchanges := s.exchanges[token := NewCon(caller, mid, bytes, t0, now)])
            else s'.(exchanges := s.exchanges[token := NewNon(caller, now)]),
            {Sent(bytes, Copy(caller, 0))} + DisplacedBy(s, token))
  }

  function SendResponse(s: Session, token: Token, r: CoapResponse, encodes: bool): After {
    if token in s.conMids then
      var mid := s.conMids[token];
      var s' := s.(conMids := s.conMids - {token});
      var bytes := ResponsePacket(r, token, mid, Acknowledgement);
      if encodes then After(CacheResponse(s', mid, bytes), {Sent(bytes, Piggybacked)}) else After(s', {})
    else
      var s' := s.(nextMid := NextMid(s.nextMid));
      var bytes := ResponsePacket(r, token, s.nextMid, NonConfirmable);
      After(s', if encodes then {Sent(bytes, Separate)} else {})
  }

  function SweptExchanges<K(==)>(m: map<K, Waiting>, now: Millis): map<K, Waiting> {
    map t | t in m && !GivenUp(m[t], now) :: Swept(m[t], now)
  }

  function GivenUpMids(m: map<Token, Waiting>, now: Millis): set<Mid> {
    set t | t in m && GivenUp(m[t], now) && m[t].mid.Some? :: m[t].mid.value
  }

  function FreshDedup(m: map<Mid, DedupEntry>, now: Millis): map<Mid, DedupEntry> {
    map k | k in m && now < m[k].created + EXCHANGE_LIFETIME :: m[k]
  }

  function ResentCopy(w: Waiting): Effect
    requires w.backoff.Some?
  {
    Sent(w.backoff.value.bytes, Copy(w.caller, w.backoff.value.count + 1))
  }

  function Expiry(w: Waiting): Effect { Settled(w.caller, TimedOut(RetransmitCount(w))) }

  function SweepEffects(m: map<Token, Waiting>, now: Millis): set<Effect> {
    (set t | t in m && Resends(m[t], now) :: ResentCopy(m[t])) + (set t | t in m && GivenUp(m[t], now) :: Expiry(m[t]))
  }

  function Sweep(s: Session, now: Millis): After {
    After(s.(exchanges := SweptExchanges(s.exchanges, now),
             midToToken := s.midToToken - GivenUpMids(s.exchanges, now),
             dedup := FreshDedup(s.dedup, now)),
          SweepEffects(s.exchanges, now))
  }

  // ---- Events: one per arm of the select loop ----

  datatype Arm =
    | Malformed(peer: SocketAddr)
    | PacketIn(peer: SocketAddr, packet: Packet, encodes: bool, seeds: Seeds)
    | ClientRequest(peer: SocketAddr, caller: Caller, request: CoapRequest, encodes: bool, t0: InitialTimeout,
        seeds: Seeds)
    | ServerResponse(peer: SocketAddr, token: Token, response: CoapResponse, encodes: bool, seeds: Seeds)
    | RetransmissionTimer
    | CleanupTimer

  datatype Event = Event(now: Millis, arm: Arm)

  // ---- One peer: a session that comes and goes ----

  datatype PeerAfter = PeerAfter(session: Option<Session>, effects: set<Effect>)

  function Opened(s: Option<Session>, seeds: Seeds): Session {
    if s.Some? then s.value else NewSession(seeds)
  }

  predicate Concerns(e: Event, peer: SocketAddr) {
    match e.arm
    case Malformed(_) => false
    case RetransmissionTimer => true
    case CleanupTimer => true
    case _ => e.arm.peer == peer
  }

  function Lift(a: After): PeerAfter { PeerAfter(Some(a.state), a.effects) }

  function PeerStep(s: Option<Session>, peer: SocketAddr, e: Event): PeerAfter {
    if !Concerns(e, peer) then PeerAfter(s, {})
    else match e.arm
      case Malformed(_) => PeerAfter(s, {})
      case PacketIn(_, p, encodes, seeds) => Lift(Receive(Opened(s, seeds), p, e.now, encodes))
      case ClientRequest(_, caller, r, encodes, t0,
          seeds) => Lift(SendRequest(Opened(s, seeds), caller, r, encodes, t0, e.now))
      case ServerResponse(_, token, r, encodes, seeds) => Lift(SendResponse(Opened(s, seeds), token, r, encodes))
      case RetransmissionTimer => if s.Some? then Lift(Sweep(s.value, e.now)) else PeerAfter(None, {})
      case CleanupTimer => PeerAfter(if s.Some? && Idle(s.value) then None else s, {})
  }

  // ---- The stack: one session per peer ----

  datatype Stack = Stack(sessions: map<SocketAddr, Session>, nextCleanup: Millis)

  datatype PeerEffect = PeerEffect(peer: SocketAddr, effect: Effect)

  datatype StackAfter = StackAfter(state: Stack, effects: set<PeerEffect>)

  function View(st: Stack, peer: SocketAddr): Option<Session> {
    if peer in st.sessions then Some(st.sessions[peer]) else None
  }

  function Tag(peer: SocketAddr, effects: set<Effect>): set<PeerEffect> {
    set f | f in effects :: PeerEffect(peer, f)
  }

  function StackStep(st: Stack, e: Event): StackAfter {
    match e.arm
    case Malformed(_) => StackAfter(st, {})
    case PacketIn(peer, p, encodes, seeds) =>
      var a := Receive(Opened(View(st, peer), seeds), p, e.now, encodes);
      StackAfter(st.(sessions := st.sessions[peer := a.state]), Tag(peer, a.effects))
    case ClientRequest(peer, caller, r, encodes, t0, seeds) =>
      var a := SendRequest(Opened(View(st, peer), seeds), caller, r, encodes, t0, e.now);
      StackAfter(st.(sessions := st.sessions[peer := a.state]), Tag(peer, a.effects))
    case ServerResponse(peer, token, r, encodes, seeds) =>
      var a := SendResponse(Opened(View(st, peer), seeds), token, r, encodes);
      StackAfter(st.(sessions := st.sessions[peer := a.state]), Tag(peer, a.effects))
    case RetransmissionTimer =>
      StackAfter(st.(sessions := map p | p in st.sessions :: Sweep(st.sessions[p], e.now).state),
                 set p, f | p in st.sessions && f in Sweep(st.sessions[p], e.now).effects :: PeerEffect(p, f))
    case CleanupTimer =>
      StackAfter(Stack(map p | p in st.sessions && !Idle(st.sessions[p]) :: st.sessions[p],
                       e.now + IDLE_SESSION_CLEANUP_INTERVAL), {})
  }

  /** All live exchanges of a stack. */
  function Live(st: Stack): map<(SocketAddr, Token), Waiting> {
    map p, t | p in st.sessions && t in st.sessions[p].exchanges :: (p, t) := st.sessions[p].exchanges[t]
  }

  /** What a stack step means for one peer: peers never interfere. */
  lemma StackStepProjects(st: Stack, e: Event, peer: SocketAddr)
    ensures var a := StackStep(st, e);
      var b := PeerStep(View(st, peer), peer, e);
      && View(a.state, peer) == b.session
      && forall f :: PeerEffect(peer, f) in a.effects <==> f in b.effects
  {
  }

  // ---- Runs ----

  datatype Transition = Transition(before: Option<Session>, event: Event, after: Option<Session>, effects: set<Effect>)

  type History = seq<Transition>

  function Last(h: History): Option<Session> {
    if h == [] then None else h[|h| - 1].after
  }

  ghost predicate IsStep(x: Transition, peer: SocketAddr) {
    PeerStep(x.before, peer, x.event) == PeerAfter(x.after, x.effects)
  }

  /** The history of one peer of a stack that starts without sessions, under a clock that never goes back. */
  ghost predicate IsRun(h: History, peer: SocketAddr) {
    && (forall i :: 0 <= i < |h| ==> IsStep(h[i], peer))
    && (h != [] ==> h[0].before == None)
    && (forall i :: 0 < i < |h| ==> h[i].before == h[i - 1].after)
    && (forall i, j :: 0 <= i < j < |h| ==> h[i].event.now <= h[j].event.now)
  }

  /** Every one-shot sender is used once. */
  ghost predicate CallersDistinct(h: History) {
    forall i, j :: 0 <= i < j < |h| && h[i].event.arm.ClientRequest? && h[j].event.arm.ClientRequest?
      ==> h[i].event.arm.caller != h[j].event.arm.caller
  }

  function Prefix(h: History): History
    requires h != []
  {
    h[..|h| - 1]
  }

  lemma PrefixIsRun(h: History, peer: SocketAddr)
    requires h != [] && IsRun(h, peer)
    ensures IsRun(Prefix(h), peer) && h[|h| - 1].before == Last(Prefix(h)) && IsStep(h[|h| - 1], peer)
    ensures CallersDistinct(h) ==> CallersDistinct(Prefix(h))
    ensures forall i :: 0 <= i < |h| - 1 ==> h[i].event.now <= h[|h| - 1].event.now
  {
    hide IsStep;
    var n := |h| - 1;
    assert n > 0 ==> h[n].before == h[n - 1].after;
    forall i | 0 < i < n
      ensures Prefix(h)[i].before == Prefix(h)[i - 1].after
    {
      assert h[i].before == h[i - 1].after;
    }
  }

  datatype StackTransition = StackTransition(before: Stack, event: Event, after: Stack, effects: set<PeerEffect>)

  ghost predicate IsStackRun(h: seq<StackTransition>) {
    && (forall i :: 0 <= i < |h| ==> StackStep(h[i].before, h[i].event) == StackAfter(h[i].after, h[i].effects))
    && (h != [] ==> h[0].before.sessions == map[])
    && (forall i :: 0 < i < |h| ==> h[i].before == h[i - 1].after)
    && (forall i, j :: 0 <= i < j < |h| ==> h[i].event.now <= h[j].event.now)
  }

  ghost function PeerTransition(x: StackTransition, peer: SocketAddr): Transition {
    Transition(View(x.before, peer), x.event, View(x.after, peer),
        PeerStep(View(x.before, peer), peer, x.event).effects)
  }

  ghost function Project(h: seq<StackTransition>, peer: SocketAddr): (r: History)
    ensures |r| == |h| && forall i :: 0 <= i < |h| ==> r[i] == PeerTransition(h[i], peer)
  {
    seq(|h|, i requires 0 <= i < |h| => PeerTransition(h[i], peer))
  }

  /** A run of the stack is, for every peer, a run of that peer with exactly its effects. */
  lemma ProjectionIsRun(h: seq<StackTransition>, peer: SocketAddr)
    requires IsStackRun(h)
    ensures IsRun(Project(h, peer), peer)
    ensures forall i, f :: 0 <= i < |h| ==> (PeerEffect(peer, f) in h[i].effects <==> f in Project(h, peer)[i].effects)
  {
    var r := Project(h, peer);
    forall i | 0 <= i < |h|
      ensures IsStep(r[i], peer) && (i > 0 ==> r[i].before == r[i - 1].after)
      ensures forall f :: PeerEffect(peer, f) in h[i].effects <==> f in r[i].effects
    {
      StackStepProjects(h[i].before, h[i].event, peer);
    }
  }
}
