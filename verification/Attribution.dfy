/** Whose request the response handed to a caller was an answer to. */
module Attribution {
  import opened Types
  import opened Messages
  import opened Model
  import opened Agreement
  import opened Conservation
  import opened Correlation
  import opened Retransmission
  import opened Deduplication
  import opened EndToEnd

  // ---- What a stack sends besides its requests ----

  /** Every packet cached for replay is an ACK. */
  ghost predicate CachesAcks(o: Option<Session>) {
    forall m :: m in Seen(o) && Seen(o)[m].cached.Some? ==> Seen(o)[m].cached.value.messageType.Acknowledgement?
  }

  lemma ReceivingSendsAcks(s: Session, p: Packet, now: Millis, encodes: bool, q: Packet, why: Reason)
    requires CachesAcks(Some(s)) && Sent(q, why) in Receive(s, p, now, encodes).effects
    ensures q.messageType.Acknowledgement?
  {
    var m := p.messageId;
    if (p.messageType.Confirmable? || p.messageType.NonConfirmable?) && m in s.dedup {
      hide Accept, ReceiveAck, HandleRst;
      assert Seen(Some(s))[m].cached.Some?;
    } else if p.messageType.Confirmable? || p.messageType.NonConfirmable? {
      AcceptTables(s, p, now, encodes);
      hide Accept;
    } else {
      hide Accept, Replay;
    }
  }

  lemma RepliesAreAcksOrProduced(x: Transition, peer: SocketAddr, q: Packet, why: Reason)
    requires IsStep(x, peer) && CachesAcks(x.before) && Sent(q, why) in x.effects && !why.Copy?
    ensures q.messageType.Acknowledgement? || (Produces(x, peer, q) && q.messageType.NonConfirmable?)
  {
    hide TokenBytes, RequestPacket, Receive, SweptExchanges, FreshDedup, GivenUpMids;
    if Receives(x, peer) {
      var s := Opened(x.before, x.event.arm.seeds);
      ReceivingSendsAcks(s, x.event.arm.packet, x.event.now, x.event.arm.encodes, q, why);
    }
  }

  lemma AckIsAmong(x: Transition, q: Packet, why: Reason)
    requires Sent(q, why) in x.effects && !why.Copy? && q.messageType.Acknowledgement?
    ensures q in Acks(x)
  {
  }

  /** What a stack sends is a copy of a request, an empty ACK, or a response it was handed before; a response in an ACK
      carries the token and the MID of one CON request received before. */
  lemma EverySendIsAccountedFor(h: History, peer: SocketAddr, s: nat, q: Packet, why: Reason)
    requires IsRun(h, peer) && s < |h| && Sent(q, why) in h[s].effects
    ensures if q.code.Request? then why.Copy?
            else !why.Copy? && (q.code.Response? ==> Produced(h[..s + 1], peer, q) && !q.messageType.Confirmable?)
    ensures q.code.Response? && q.messageType.Acknowledgement? ==> Asked(h[..s + 1], peer, q.token, q.messageId)
  {
    PrefixIsBefore(h, peer, s);
    if why.Copy? {
      EveryExchangeBegan(h[..s], peer);
      CopiesAreRequests(h[..s], h[s], peer, q, why);
    } else {
      RunIsGrounded(h[..s], peer);
      RepliesAreAcksOrProduced(h[s], peer, q, why);
      hide IsRun, IsStep, Acks;
      if q.messageType.Acknowledgement? {
        AckIsAmong(h[s], q, why);
        AcksAreMatched(h, peer, s, q);
      } else {
        ProducedHere(h, peer, s, q);
      }
    }
  }

  lemma ProducedHere(h: History, peer: SocketAddr, k: nat, q: Packet)
    requires k < |h| && Produces(h[k], peer, q)
    ensures Produced(h[..k + 1], peer, q)
  {
    assert Produces(h[..k + 1][k], peer, q);
  }

  // ---- Two connected stacks ----

  /** The server answers requests that were dispatched to it, each answer under the token of its request. */
  ghost predicate Serves(there: History, client: SocketAddr, answered: map<nat, nat>) {
    forall k :: 0 <= k < |there| && there[k].event.arm.ServerResponse? && there[k].event.arm.peer == client ==>
      && k in answered && answered[k] < k
      && Receives(there[answered[k]], client)
      && Dispatched(there[answered[k]].event.arm.packet) in there[answered[k]].effects
      && there[answered[k]].event.arm.packet.token == there[k].event.arm.token
  }

  /** A client and a server joined by a network that loses, duplicates, delays and reorders in both directions. */
  ghost predicate Connected(here: History, server: SocketAddr, there: History, client: SocketAddr,
          out: map<nat, Origin>, back: map<nat, Origin>, answered: map<nat, nat>, delay: Millis) {
    && IsRun(here, server) && CallersDistinct(here)
    && IsRun(there, client)
    && Delivers(here, there, client, out, delay)
    && Delivers(there, here, server, back, delay)
    && Serves(there, client, answered)
  }

  /** q is what the server answered, at step k, to a copy of caller c's request. */
  ghost predicate AnswersAt(there: History, client: SocketAddr, out: map<nat, Origin>, answered: map<nat, nat>,
          q: Packet, c: Caller, k: nat) {
    && k < |there| && Produces(there[k], client, q)
    && k in answered && answered[k] < |there| && answered[k] in out
    && DispatchesFor(there[answered[k]], client, out[answered[k]], c)
  }

  ghost predicate AnswersFor(there: History, client: SocketAddr, out: map<nat, Origin>, answered: map<nat, nat>,
          q: Packet, c: Caller) {
    exists k: nat :: AnswersAt(there, client, out, answered, q, c, k)
  }

  /** No two requests to the server share a token. */
  ghost predicate TokensDistinct(h: History, server: SocketAddr) {
    forall i, j, c, d ::
      0 <= i < |h| && 0 <= j < |h| && Originates(h[i], server, c) && Originates(h[j], server, d) ==>
        (PacketOf(h[i]).token == PacketOf(h[j]).token ==> c == d)
  }

  /** The only CON request to the server with the MID of caller c's is c's. */
  ghost predicate MidIsUnshared(h: History, server: SocketAddr, m: Mid, c: Caller) {
    forall i, d :: 0 <= i < |h| && Originates(h[i], server, d) ==>
      (PacketOf(h[i]).messageType.Confirmable? && PacketOf(h[i]).messageId == m ==> d == c)
  }

  /** A request that reaches the server is a copy of one caller's, and equals the packet that request was sent as. */
  lemma RequestsAreCopies(here: History, server: SocketAddr, there: History, client: SocketAddr, out: map<nat, Origin>,
          delay: Millis, a: nat)
    returns (o: nat)
    requires IsRun(here, server) && CallersDistinct(here) && Delivers(here, there, client, out, delay)
    requires a < |there| && Receives(there[a], client) && there[a].event.arm.packet.code.Request?
    ensures a in out && out[a].effect.Sent? && out[a].effect.reason.Copy?
    ensures o < |here| && Originates(here[o], server, out[a].effect.reason.caller)
    ensures PacketOf(here[o]) == there[a].event.arm.packet
  {
    var f := out[a].effect;
    hide IsRun, PacketOf, Originates;
    EverySendIsAccountedFor(here, server, out[a].step, f.packet, f.reason);
    var c := f.reason.caller;
    CopiesAreFaithful(here, server, c);
    assert f in Copies(here[out[a].step], c);
    assert IsOriginal(here, server, c, f.packet);
    o :| 0 <= o < |here| && Originates(here[o], server, c) && PacketOf(here[o]) == f.packet;
  }

  lemma DispatchedIsRequest(x: Transition, peer: SocketAddr)
    requires IsStep(x, peer) && Receives(x, peer) && Dispatched(x.event.arm.packet) in x.effects
    ensures x.event.arm.packet.code.Request?
  {
    hide SendRequest, SendResponse, Sweep, ReceiveAck, HandleRst, Replay;
    RepliesDispatchNothing(Opened(x.before, x.event.arm.seeds), x.event.arm.packet);
    ReplayDispatchesNothing(Opened(x.before, x.event.arm.seeds), x.event.arm.packet);
  }

  lemma ReplayDispatchesNothing(s: Session, p: Packet)
    ensures p.messageId in s.dedup ==> Dispatched(p) !in Replay(s, p)
  {
  }

  /** The server's answer at step k is to the request of some caller, whose token it carries. */
  lemma AnswersHaveAsker(here: History, server: SocketAddr, there: History, client: SocketAddr,
          out: map<nat, Origin>, back: map<nat, Origin>, answered: map<nat, nat>, delay: Millis, q: Packet, k: nat)
    returns (o: nat, d: Caller)
    requires Connected(here, server, there, client, out, back, answered, delay)
    requires k < |there| && Produces(there[k], client, q)
    ensures AnswersAt(there, client, out, answered, q, d, k)
    ensures o < |here| && Originates(here[o], server, d) && PacketOf(here[o]).token == q.token
    ensures forall e :: AnswersAt(there, client, out, answered, q, e, k) ==> e == d
  {
    var a := answered[k];
    assert IsStep(there[a], client);
    DispatchedIsRequest(there[a], client);
    hide IsRun, IsStep, PacketOf, Originates;
    o := RequestsAreCopies(here, server, there, client, out, delay, a);
    d := out[a].effect.reason.caller;
  }

  /** The response a caller gets came from the server, in answer to the request of some caller. */
  lemma ResponsesHaveAsker(here: History, server: SocketAddr, there: History, client: SocketAddr,
          out: map<nat, Origin>, back: map<nat, Origin>, answered: map<nat, nat>, delay: Millis, j: nat)
    returns (k: nat)
    requires Connected(here, server, there, client, out, back, answered, delay)
    requires j < |here| && Receives(here[j], server) && here[j].event.arm.packet.code.Response?
    ensures var q := here[j].event.arm.packet;
      && k < |there| && Produces(there[k], client, q)
      && !q.messageType.Confirmable?
      && (q.messageType.Acknowledgement? ==> Asked(there, client, q.token, q.messageId))
  {
    var q := here[j].event.arm.packet;
    hide IsRun, Produces, AcceptsCon;
    var s := back[j].step;
    EverySendIsAccountedFor(there, client, s, q, back[j].effect.reason);
    k :| 0 <= k < |there[..s + 1]| && Produces(there[..s + 1][k], client, q);
    if q.messageType.Acknowledgement? {
      var a :| 0 <= a < |there[..s + 1]| && AcceptsCon(there[..s + 1][a], client, q.token, q.messageId);
      assert AcceptsCon(there[a], client, q.token, q.messageId);
    }
  }

  lemma OriginatesOnce(h: History, server: SocketAddr, i: nat, j: nat, c: Caller)
    requires CallersDistinct(h) && i < |h| && j < |h| && Originates(h[i], server, c) && Originates(h[j], server, c)
    ensures i == j
  {
  }

  /** A caller is completed with the server's answer to its own request if and only if the packet that completes it
      carries the token of that request. A separate response always does; for an ACK the client does not compare it.
      In any case the response is the server's answer to the request of some caller. */
  lemma CompletionIsOwnIff(here: History, server: SocketAddr, there: History, client: SocketAddr,
          out: map<nat, Origin>, back: map<nat, Origin>, answered: map<nat, nat>, delay: Millis, j: nat, c: Caller,
          r: CoapResponse)
    returns (i: nat)
    requires Connected(here, server, there, client, out, back, answered, delay)
    requires Window(here, server) && TokensDistinct(here, server)
    requires j < |here| && SettledAt(here[j], c, Completed(r))
    ensures Receives(here[j], server) && i < j && Originates(here[i], server, c)
    ensures var q := here[j].event.arm.packet;
      && ResponseFromPacket(q) == Ok(r)
      && (AnswersFor(there, client, out, answered, q, c) <==> q.token == PacketOf(here[i]).token)
      && (!q.messageType.Acknowledgement? ==> AnswersFor(there, client, out, answered, q, c))
      && exists d :: AnswersFor(there, client, out, answered, q, d)
  {
    hide IsRun, PacketOf, Window, CallersDistinct, Delivers, Serves, Produces;
    AnswersMatchTheirRequest(here, server, j, c, Completed(r));
    var q := here[j].event.arm.packet;
    i :| 0 <= i < j && Originates(here[i], server, c) && Answers(q, PacketOf(here[i]), Completed(r));
    var k := ResponsesHaveAsker(here, server, there, client, out, back, answered, delay, j);
    var o, d := AnswersHaveAsker(here, server, there, client, out, back, answered, delay, q, k);
    assert AnswersFor(there, client, out, answered, q, d);
    if AnswersFor(there, client, out, answered, q, c) {
      var k' :| AnswersAt(there, client, out, answered, q, c, k');
      var o', d' := AnswersHaveAsker(here, server, there, client, out, back, answered, delay, q, k');
      OriginatesOnce(here, server, i, o', c);
    }
  }

  /** In particular it is its own answer whenever no other CON request of the client's run went out under its MID. */
  lemma UnsharedMidIsOwn(here: History, server: SocketAddr, there: History, client: SocketAddr,
          out: map<nat, Origin>, back: map<nat, Origin>, answered: map<nat, nat>, delay: Millis, i: nat, j: nat,
          c: Caller, r: CoapResponse)
    requires Connected(here, server, there, client, out, back, answered, delay)
    requires Window(here, server) && TokensDistinct(here, server)
    requires i < |here| && Originates(here[i], server, c) && MidIsUnshared(here, server, PacketOf(here[i]).messageId, c)
    requires j < |here| && SettledAt(here[j], c, Completed(r))
    ensures Receives(here[j], server)
    ensures AnswersFor(there, client, out, answered, here[j].event.arm.packet, c)
  {
    hide IsRun, PacketOf, Originates, Window, CallersDistinct, Delivers, Serves, AnswersFor, TokensDistinct;
    var i' := CompletionIsOwnIff(here, server, there, client, out, back, answered, delay, j, c, r);
    OriginatesOnce(here, server, i, i', c);
    var q := here[j].event.arm.packet;
    if q.messageType.Acknowledgement? {
      AckHasMid(here, server, j, i, c, r);
      var k := ResponsesHaveAsker(here, server, there, client, out, back, answered, delay, j);
      var a :| 0 <= a < |there| && AcceptsCon(there[a], client, q.token, q.messageId);
      var o := RequestsAreCopies(here, server, there, client, out, delay, a);
      OriginatesOnce(here, server, i, o, c);
    }
  }

  lemma AckHasMid(here: History, server: SocketAddr, j: nat, i: nat, c: Caller, r: CoapResponse)
    requires IsRun(here, server) && CallersDistinct(here) && Window(here, server) && j < |here| && i < |here|
    requires SettledAt(here[j], c, Completed(r)) && Originates(here[i], server, c)
    requires Receives(here[j], server) && here[j].event.arm.packet.messageType.Acknowledgement?
    ensures here[j].event.arm.packet.messageId == PacketOf(here[i]).messageId
  {
    hide IsRun, PacketOf, Window, CallersDistinct;
    AnswersMatchTheirRequest(here, server, j, c, Completed(r));
    var q := here[j].event.arm.packet;
    var o :| 0 <= o < j && Originates(here[o], server, c) && Answers(q, PacketOf(here[o]), Completed(r));
    OriginatesOnce(here, server, i, o, c);
  }
}
