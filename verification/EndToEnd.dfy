/** Two stacks and the network between them: a request reaches the peer's server at most once. */
module EndToEnd {
  import opened Types
  import opened Model
  import opened Changes
  import opened Conservation
  import opened Correlation
  import opened Retransmission
  import opened Timing
  import opened Deduplication

  /** Which send a received datagram is a copy of: the step of the sender's run and the effect in it. */
  datatype Origin = Origin(step: nat, effect: Effect)

  /** The network delivers to `peer`-side history `there` only what history `here` sent, each datagram any
      number of times or never, in any order, within the delay. */
  ghost predicate Delivers(here: History, there: History, sender: SocketAddr, origin: map<nat, Origin>, delay: Millis) {
    forall j :: 0 <= j < |there| && Receives(there[j], sender) ==>
      && j in origin
      && origin[j].step < |here|
      && origin[j].effect in here[origin[j].step].effects
      && origin[j].effect.Sent?
      && origin[j].effect.packet == there[j].event.arm.packet
      && here[origin[j].step].event.now <= there[j].event.now <= here[origin[j].step].event.now + delay
  }

  /** Step j hands the server a datagram that is a copy of caller c's request. */
  predicate DispatchesFor(x: Transition, sender: SocketAddr, from: Origin, c: Caller) {
    && Receives(x, sender)
    && Dispatched(x.event.arm.packet) in x.effects
    && from.effect.Sent? && from.effect.reason.Copy? && from.effect.reason.caller == c
  }

  lemma CopyMembership(x: Transition, c: Caller, f: Effect)
    requires f in x.effects && f.Sent? && f.reason.Copy? && f.reason.caller == c
    ensures f in Copies(x, c) && SendsCopy(x, c, f.reason.k)
  {
    assert f in Copies(x, c);
  }

  /** Any two copies of a request leave within 45 s + 4d of each other. */
  lemma CopiesLeaveTogether(h: History, peer: SocketAddr, c: Caller, d: Millis, i: nat, j: nat, f: Effect, g: Effect)
    requires IsRun(h, peer) && CallersDistinct(h) && Punctual(h, d)
    requires i < |h| && j < |h| && f in Copies(h[i], c) && g in Copies(h[j], c)
    ensures h[j].event.now <= h[i].event.now + 45_000 + 4 * d
    ensures f.packet == g.packet
  {
    CopiesAreIdentical(h, peer, c, i, j, f, g);
    CopiesAreFaithful(h, peer, c);
    hide IsRun, PacketOf;
    assert IsOriginal(h, peer, c, f.packet);
    var o :| 0 <= o < |h| && Originates(h[o], peer, c) && PacketOf(h[o]) == f.packet;
    CopyMembership(h[i], c, f);
    CopyMembership(h[j], c, g);
    CopyTiming(h, peer, c, o, i, f.reason.k, d);
    CopyTiming(h, peer, c, o, j, g.reason.k, d);
    WaitGrows(h[o].event.arm.t0, f.reason.k);
  }

  lemma {:induction false} WaitGrows(t0: Millis, k: nat)
    ensures Wait(t0, k) >= t0
  {
    if k > 0 { WaitGrows(t0, k - 1); }
  }

  /** A dispatched message is a CON or NON request. */
  lemma DispatchesDeliver(x: Transition, sender: SocketAddr)
    requires IsStep(x, sender) && Receives(x, sender) && Dispatched(x.event.arm.packet) in x.effects
    ensures DeliversUp(x, sender, x.event.arm.packet.messageId)
  {
    hide Accept, SendRequest, SendResponse, Sweep, HandleRst, ReceiveAck, Replay;
    var p := x.event.arm.packet;
    var s := Opened(x.before, x.event.arm.seeds);
    RepliesDispatchNothing(s, p);
  }

  lemma RepliesDispatchNothing(s: Session, p: Packet)
    ensures Dispatched(p) !in ReceiveAck(s, p).effects && Dispatched(p) !in HandleRst(s, p.messageId).effects
  {
  }

  /** If a datagram takes at most `delay` and sweeps are at most d late, so that the last copy of a request
      arrives within EXCHANGE_LIFETIME of the first one leaving, the server gets each request at most once. */
  lemma AtMostOnce(here: History, receiver: SocketAddr, there: History, sender: SocketAddr, origin: map<nat, Origin>,
          c: Caller, d: Millis, delay: Millis, i: nat, j: nat)
    requires IsRun(here, receiver) && CallersDistinct(here) && Punctual(here, d)
    requires IsRun(there, sender) && Delivers(here, there, sender, origin, delay)
    requires 45_000 + 4 * d + delay < 247_000
    requires i < |there| && i in origin && DispatchesFor(there[i], sender, origin[i], c)
    requires j < |there| && j in origin && DispatchesFor(there[j], sender, origin[j], c)
    ensures i == j
  {
    if i < j {
      NoSecondDispatch(here, receiver, there, sender, origin, c, d, delay, i, j);
    } else if j < i {
      NoSecondDispatch(here, receiver, there, sender, origin, c, d, delay, j, i);
    }
  }

  lemma NoSecondDispatch(here: History, receiver: SocketAddr, there: History, sender: SocketAddr,
          origin: map<nat, Origin>, c: Caller, d: Millis, delay: Millis, i: nat, j: nat)
    requires IsRun(here, receiver) && CallersDistinct(here) && Punctual(here, d)
    requires IsRun(there, sender) && Delivers(here, there, sender, origin, delay)
    requires i < j < |there| && i in origin && DispatchesFor(there[i], sender, origin[i], c)
    requires j in origin && DispatchesFor(there[j], sender, origin[j], c)
    ensures 247_000 <= 45_000 + 4 * d + delay
  {
    assert IsStep(there[i], sender) && IsStep(there[j], sender);
    hide IsRun, IsStep, Punctual, CallersDistinct;
    CopyMembership(here[origin[i].step], c, origin[i].effect);
    CopyMembership(here[origin[j].step], c, origin[j].effect);
    CopiesLeaveTogether(here, receiver, c, d, origin[i].step, origin[j].step, origin[i].effect, origin[j].effect);
    DispatchesDeliver(there[i], sender);
    DispatchesDeliver(there[j], sender);
    DispatchSeparation(there, sender, there[i].event.arm.packet.messageId, i, j);
  }

  // ---- The two stacks ----

  ghost predicate StackPunctual(h: seq<StackTransition>, d: Millis) {
    forall i, p, t :: 0 <= i < |h| && h[i].event.arm.RetransmissionTimer? && t in LiveOf(View(h[i].before, p)) ==>
      InTime(LiveOf(View(h[i].before, p))[t], h[i].event.now, d)
  }

  /** Stack step x hands its server a datagram from `sender` that is a copy of caller c's request. */
  predicate StackDispatchesFor(x: StackTransition, sender: SocketAddr, from: Origin, c: Caller) {
    && x.event.arm.PacketIn? && x.event.arm.peer == sender
    && PeerEffect(sender, Dispatched(x.event.arm.packet)) in x.effects
    && from.effect.Sent? && from.effect.reason.Copy? && from.effect.reason.caller == c
  }

  ghost predicate StackDelivers(here: seq<StackTransition>, receiver: SocketAddr, there: seq<StackTransition>,
          sender: SocketAddr, origin: map<nat, Origin>, delay: Millis) {
    forall j :: 0 <= j < |there| && there[j].event.arm.PacketIn? && there[j].event.arm.peer == sender ==>
      && j in origin
      && origin[j].step < |here|
      && PeerEffect(receiver, origin[j].effect) in here[origin[j].step].effects
      && origin[j].effect.Sent?
      && origin[j].effect.packet == there[j].event.arm.packet
      && here[origin[j].step].event.now <= there[j].event.now <= here[origin[j].step].event.now + delay
  }

  /** Over any runs of two stacks joined by a network that loses, duplicates and reorders datagrams and delays
      them by at most 100 s (MAX_LATENCY), with the client's sweeps less than 25.5 s late, every request is dispatched
      to the server at most once, whatever else the stacks do with other peers. */
  lemma RequestsAreDispatchedAtMostOnce(here: seq<StackTransition>, receiver: SocketAddr,
          there: seq<StackTransition>, sender: SocketAddr, origin: map<nat, Origin>, c: Caller, d: Millis, i: nat,
          j: nat)
    requires IsStackRun(here) && StackCallersDistinct(here) && StackPunctual(here, d) && d < 25_500
    requires IsStackRun(there) && StackDelivers(here, receiver, there, sender, origin, 100_000)
    requires i < |there| && i in origin && StackDispatchesFor(there[i], sender, origin[i], c)
    requires j < |there| && j in origin && StackDispatchesFor(there[j], sender, origin[j], c)
    ensures i == j
  {
    ProjectionIsRun(here, receiver);
    ProjectionIsRun(there, sender);
    hide IsStackRun, IsRun, PeerStep;
    var a, b := Project(here, receiver), Project(there, sender);
    assert Punctual(a, d);
    assert Delivers(a, b, sender, origin, 100_000);
    AtMostOnce(a, receiver, b, sender, origin, c, d, 100_000, i, j);
  }
}
