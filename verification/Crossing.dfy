/** Two connected stacks in which one caller gets the response to another's request. */
module Crossing {
  import opened Types
  import opened Messages
  import opened Model
  import opened Agreement
  import opened Conservation
  import opened Correlation
  import opened Deduplication
  import opened EndToEnd
  import opened Attribution
  import opened Witnesses

  // ---- The client ----

  /** The client's session starts over with this token and the same MID. */
  const SECOND_SEEDS := Seeds(0, 5)
  const SECOND: Caller := 3

  function FirstRequest(a: CoapRequest): Packet { RequestPacket(a, TokenBytes(0), 0) }

  function SecondRequest(b: CoapRequest): Packet { RequestPacket(b, TokenBytes(5), 0) }

  function FirstReply(r: CoapResponse): Packet { ResponsePacket(r, TokenBytes(0), 0, Acknowledgement) }

  /** A step of the client takes caller c's request and sends packet p. */
  ghost predicate Opens(x: Transition, server: SocketAddr, c: Caller, r: CoapRequest, p: Packet) {
    Originates(x, server, c) && PacketOf(x) == p && x.event.arm.request == r
  }

  /** A step of the client gets q, which ends caller c. */
  ghost predicate Closes(x: Transition, server: SocketAddr, c: Caller, q: Packet, r: CoapResponse) {
    x.event.arm == PacketIn(server, q, true, SEEDS) && SettledAt(x, c, Completed(r))
  }

  ghost predicate ClientHalf(h: History, server: SocketAddr, a: CoapRequest, b: CoapRequest, r: CoapResponse) {
    && Playing(h, server) && |h| == 5
    && Opens(h[0], server, 0, a, FirstRequest(a)) && h[0].event.now == 0
    && Closes(h[1], server, 0, FirstReply(r), r) && h[1].event.now == 0
    && h[2].event.arm.CleanupTimer?
    && Opens(h[3], server, SECOND, b, SecondRequest(b)) && h[3].event.now == 30_000
    && Closes(h[4], server, SECOND, FirstReply(r), r) && h[4].event.now == 30_000
  }

  lemma OpensStep(h: History, server: SocketAddr, a: CoapRequest, seeds: Seeds, now: Millis)
    requires Last(h).None?
    ensures var x := Next(h, server, Asks(h, server, a, seeds, now));
      Opens(x, server, |h|, a, RequestPacket(a, TokenBytes(seeds.token), seeds.mid))
  {
    hide TokenBytes, RequestPacket;
  }

  lemma ClosesStep(h: History, server: SocketAddr, a: CoapRequest, r: CoapResponse, q: Packet, seeds: Seeds, n: nat,
          now: Millis, later: Millis)
    requires a.confirmable && Last(h) == Some(Registered(NewSession(seeds), n, a, now))
    requires q.messageType.Acknowledgement? && q.messageId == seeds.mid && ResponseFromPacket(q) == Ok(r)
    ensures Closes(Next(h, server, Arrives(server, q, later)), server, n, q, r)
    ensures var o := PeerStep(Last(h), server, Arrives(server, q, later)).session; o.Some? && Idle(o.value)
  {
    hide TokenBytes, RequestPacket;
    AckStep(h, server, q, TokenBytes(seeds.token), later);
    var o := PeerStep(Last(h), server, Arrives(server, q, later)).session;
    hide PeerStep;
    assert o.value.exchanges == map[] && o.value.midToToken == map[];
  }

  lemma ReplyCarries(r: CoapResponse)
    ensures FirstReply(r).messageType.Acknowledgement? && FirstReply(r).messageId == 0 && FirstReply(r).code.Response?
    ensures ResponseFromPacket(FirstReply(r)) == Ok(r) && FirstReply(r).token == TokenBytes(0)
  {
    hide TokenBytes;
  }

  /** A request from a stack without a session, and a reply to it. */
  lemma AskAndClose(h: History, server: SocketAddr, a: CoapRequest, r: CoapResponse, seeds: Seeds, now: Millis)
    returns (g: History)
    requires Playing(h, server) && Last(h).None? && Now(h) <= now <= CleanupDue(h) && a.confirmable && seeds.mid == 0
    ensures Playing(g, server) && |g| == |h| + 2 && h <= g && Now(g) == now && CleanupDue(g) == CleanupDue(h)
    ensures Last(g).Some? && Idle(Last(g).value)
    ensures Opens(g[|h|], server, |h|, a, RequestPacket(a, TokenBytes(seeds.token), 0)) && g[|h|].event.now == now
    ensures Closes(g[|h| + 1], server, |h|, FirstReply(r), r) && g[|h| + 1].event.now == now
  {
    var e, q := Asks(h, server, a, seeds, now), FirstReply(r);
    OpensStep(h, server, a, seeds, now);
    AskStep(h, server, a, seeds, now);
    ReplyCarries(r);
    hide Playing, TokenBytes, RequestPacket, PeerStep, Registered, Opens, Closes, Idle, FirstReply;
    PlayInput(h, server, e);
    var f := h + [Next(h, server, e)];
    ClosesStep(f, server, a, r, q, seeds, |h|, now, now);
    PlayInput(f, server, Arrives(server, q, now));
    g := f + [Next(f, server, Arrives(server, q, now))];
  }

  /** Caller 0 is answered, cleanup evicts the idle session, and the next session draws the same MID. */
  lemma ClientRuns(server: SocketAddr, a: CoapRequest, b: CoapRequest, r: CoapResponse) returns (h: History)
    requires a.confirmable && b.confirmable
    ensures ClientHalf(h, server, a, b, r)
  {
    NothingPlays(server);
    hide Playing, TokenBytes, RequestPacket, Opens, Closes, Idle;
    var f := AskAndClose([], server, a, r, SEEDS, 0);
    var g := PlayCleanup(f, server);
    h := AskAndClose(g, server, b, r, SECOND_SEEDS, 30_000);
    assert h[0] == f[0] && h[1] == f[1] && h[2] == g[2];
  }

  // ---- The server ----

  ghost predicate ServerHalf(g: History, client: SocketAddr, a: CoapRequest, b: CoapRequest, r: CoapResponse) {
    && Playing(g, client) && |g| > 2
    && g[0].event == Arrives(client, FirstRequest(a), 0) && g[0].effects == {Dispatched(FirstRequest(a))}
    && g[1].event == Replies(client, TokenBytes(0), r, 0) && g[1].effects == {Sent(FirstReply(r), Piggybacked)}
    && (forall i :: 2 <= i < |g| - 1 ==> g[i].event.arm.CleanupTimer?)
    && g[|g| - 1].event == Arrives(client, SecondRequest(b), 30_000)
    && g[|g| - 1].effects == {Sent(FirstReply(r), Replayed)}
  }

  lemma RequestIs(a: CoapRequest, n: TokenNumber)
    requires a.confirmable
    ensures var p := RequestPacket(a, TokenBytes(n), 0);
      IsConRequest(p) && p.messageId == 0 && p.token == TokenBytes(n) && p.code.Request?
  {
    hide TokenBytes;
  }

  /** The server answers the first request, and the second, with its MID, gets the same reply. */
  lemma ServerRuns(client: SocketAddr, a: CoapRequest, b: CoapRequest, r: CoapResponse) returns (g: History)
    requires a.confirmable && b.confirmable
    ensures ServerHalf(g, client, a, b, r)
  {
    RequestIs(a, 0);
    RequestIs(b, 5);
    hide Playing, TokenBytes, RequestPacket, ResponsePacket, PeerStep;
    var p, q := FirstRequest(a), SecondRequest(b);
    var f := AnswersAndWaits(client, p, r, 30_000);
    ReplayArrives(f, client, q, 30_000);
    PlayInput(f, client, Arrives(client, q, 30_000));
    g := f + [Next(f, client, Arrives(client, q, 30_000))];
  }

  // ---- Both ----

  function Out(a: CoapRequest, b: CoapRequest, last: nat): map<nat, Origin> {
    map[0 := Origin(0, Sent(FirstRequest(a), Copy(0, 0))), last := Origin(3, Sent(SecondRequest(b), Copy(SECOND, 0)))]
  }

  function Back(r: CoapResponse, last: nat): map<nat, Origin> {
    map[1 := Origin(1, Sent(FirstReply(r), Piggybacked)), 4 := Origin(last, Sent(FirstReply(r), Replayed))]
  }

  lemma {:induction false} AgesAreSmall(h: History, peer: SocketAddr, t: Token)
    ensures TokenAge(h, peer, t) <= |h| && MidAge(h, peer, t) <= |h|
    decreases |h|
  {
    if h != [] { AgesAreSmall(Prefix(h), peer, t); }
  }

  lemma ShortRunsAreInWindow(h: History, peer: SocketAddr)
    requires |h| < MID_SPACE
    ensures Window(h, peer)
  {
    hide TokenAge, MidAge;
    forall i, t | 0 <= i < |h|
      ensures TokenAge(h[..i], peer, t) < TOKEN_SPACE && MidAge(h[..i], peer, t) < MID_SPACE
    {
      AgesAreSmall(h[..i], peer, t);
    }
  }

  lemma TwoRequests(h: History, server: SocketAddr, a: CoapRequest, b: CoapRequest, r: CoapResponse)
    requires a.confirmable && b.confirmable && ClientHalf(h, server, a, b, r)
    ensures CallersDistinct(h) && TokensDistinct(h, server)
  {
    RequestIs(a, 0);
    RequestIs(b, 5);
    TokensDiffer(5);
    hide Playing, TokenBytes, RequestPacket, PacketOf;
  }

  lemma OutDelivers(here: History, server: SocketAddr, there: History, client: SocketAddr, a: CoapRequest,
          b: CoapRequest, r: CoapResponse)
    requires ClientHalf(here, server, a, b, r) && ServerHalf(there, client, a, b, r)
    ensures Delivers(here, there, client, Out(a, b, |there| - 1), 0)
  {
    hide Playing, FirstRequest, SecondRequest, PacketOf, FirstReply;
    assert Sent(FirstRequest(a), Copy(0, 0)) in here[0].effects;
    assert Sent(SecondRequest(b), Copy(SECOND, 0)) in here[3].effects;
    assert forall j :: 0 <= j < |there| && Receives(there[j], client) ==> j == 0 || j == |there| - 1;
  }

  lemma BackDelivers(here: History, server: SocketAddr, there: History, client: SocketAddr, a: CoapRequest,
          b: CoapRequest, r: CoapResponse)
    requires ClientHalf(here, server, a, b, r) && ServerHalf(there, client, a, b, r)
    ensures Delivers(there, here, server, Back(r, |there| - 1), 0)
  {
    hide Playing, FirstRequest, SecondRequest, PacketOf, FirstReply;
    assert forall j :: 0 <= j < |here| && Receives(here[j], server) ==> j == 1 || j == 4;
  }

  lemma ServesOne(there: History, client: SocketAddr, a: CoapRequest, b: CoapRequest, r: CoapResponse)
    requires a.confirmable && ServerHalf(there, client, a, b, r)
    ensures Serves(there, client, map[1 := 0])
  {
    RequestIs(a, 0);
    hide Playing, TokenBytes, RequestPacket, ResponsePacket;
    assert forall k :: 0 <= k < |there| && there[k].event.arm.ServerResponse? ==> k == 1;
  }

  lemma HalvesConnect(here: History, server: SocketAddr, there: History, client: SocketAddr, a: CoapRequest,
          b: CoapRequest, r: CoapResponse)
    requires a.confirmable && b.confirmable
    requires ClientHalf(here, server, a, b, r) && ServerHalf(there, client, a, b, r)
    ensures Connected(here, server, there, client, Out(a, b, |there| - 1), Back(r, |there| - 1), map[1 := 0], 0)
  {
    TwoRequests(here, server, a, b, r);
    OutDelivers(here, server, there, client, a, b, r);
    BackDelivers(here, server, there, client, a, b, r);
    ServesOne(there, client, a, b, r);
    hide IsRun, Playable, CallersDistinct, Delivers, Serves, Opens, Closes, Out, Back;
  }

  /** The server answered caller 0 and dispatched nothing of caller 3. */
  lemma ServerKnowsOnlyFirst(there: History, client: SocketAddr, a: CoapRequest, b: CoapRequest, r: CoapResponse)
    requires a.confirmable && b.confirmable && ServerHalf(there, client, a, b, r)
    ensures var out := Out(a, b, |there| - 1);
      && (forall k :: 0 <= k < |there| && k in out ==> !DispatchesFor(there[k], client, out[k], SECOND))
      && !AnswersFor(there, client, out, map[1 := 0], FirstReply(r), SECOND)
      && AnswersFor(there, client, out, map[1 := 0], FirstReply(r), 0)
  {
    hide Playing, TokenBytes, RequestPacket;
    assert AnswersAt(there, client, Out(a, b, |there| - 1), map[1 := 0], FirstReply(r), 0, 1);
  }

  /** Whatever two requests and response: caller 3 is completed with the response to the request of caller 0, and its
      own request is never dispatched, although the client's names stay within the window and no token is used twice. */
  lemma ReusedMidGetsAnothersResponse(server: SocketAddr, client: SocketAddr, a: CoapRequest, b: CoapRequest,
          r: CoapResponse)
    returns (here: History, there: History, out: map<nat, Origin>, back: map<nat, Origin>, answered: map<nat, nat>)
    requires a.confirmable && b.confirmable
    ensures Playing(here, server) && Playing(there, client)
    ensures Connected(here, server, there, client, out, back, answered, 0)
    ensures Window(here, server) && TokensDistinct(here, server) && |here| == 5
    ensures here[3].event.arm.ClientRequest? && here[3].event.arm.caller == 3 && here[3].event.arm.request == b
    ensures Receives(here[4], server) && SettledAt(here[4], 3, Completed(r))
    ensures !AnswersFor(there, client, out, answered, here[4].event.arm.packet, 3)
    ensures AnswersFor(there, client, out, answered, here[4].event.arm.packet, 0)
    ensures forall k :: 0 <= k < |there| && k in out ==> !DispatchesFor(there[k], client, out[k], 3)
  {
    here := ClientRuns(server, a, b, r);
    there := ServerRuns(client, a, b, r);
    HalvesConnect(here, server, there, client, a, b, r);
    ServerKnowsOnlyFirst(there, client, a, b, r);
    ShortRunsAreInWindow(here, server);
    TwoRequests(here, server, a, b, r);
    hide Connected, Playing, Window, TokensDistinct, ServerHalf, AnswersFor, Out, Back, PacketOf, FirstReply;
    out, back, answered := Out(a, b, |there| - 1), Back(r, |there| - 1), map[1 := 0];
  }
}
