/** The loop around the arms: it waits for an arm to be ready, takes it, and starts over. */
module EventLoop {
  import opened Types
  import opened Model
  import opened Conservation
  import opened CoapStacks

  // ---- Which arms are ready ----

  /** Some deadline has passed. */
  ghost predicate DueBy<K(!new)>(m: map<K, Waiting>, now: Millis) {
    exists k :: k in m && Deadline(m[k]).Some? && Deadline(m[k]).value <= now
  }

  /** Input may come at any time; each timer fires no sooner than the instant the loop has set it to. */
  ghost predicate Ready(st: Stack, e: Event) {
    match e.arm
    case RetransmissionTimer => DueBy(Live(st), e.now)
    case CleanupTimer => st.nextCleanup <= e.now
    case _ => true
  }

  /** Every arm taken was ready. */
  ghost predicate Guarded(h: seq<StackTransition>) {
    forall i :: 0 <= i < |h| ==> Ready(h[i].before, h[i].event)
  }

  /** The least deadline tells whether any has passed. */
  lemma DeadlineDecides<K(!new)>(m: map<K, Waiting>, next: Option<Millis>, now: Millis)
    requires IsNextDeadline(m, next)
    ensures DueBy(m, now) <==> next.Some? && next.value <= now
  {
  }

  // ---- What the loop goes through ----

  ghost predicate InOrder(events: seq<Event>) {
    forall i, j :: 0 <= i < j < |events| ==> events[i].now <= events[j].now
  }

  /** The stack as the loop finds it when it starts. */
  function Started(start: Millis): Stack { Stack(map[], start + 30_000) }

  ghost predicate StartsFrom(h: seq<StackTransition>, start: Millis) { h != [] ==> h[0].before == Started(start) }

  function Reached(h: seq<StackTransition>, start: Millis): Stack {
    if h == [] then Started(start) else h[|h| - 1].after
  }

  function Turn(st: Stack, e: Event): StackTransition {
    var a := StackStep(st, e);
    StackTransition(st, e, a.state, a.effects)
  }

  /** The steps of the loop when it is offered these events in turn: those that are ready. */
  ghost function Trace(start: Millis, events: seq<Event>): seq<StackTransition> {
    if events == [] then []
    else
      var h := Trace(start, events[..|events| - 1]);
      var e := events[|events| - 1];
      if Ready(Reached(h, start), e) then h + [Turn(Reached(h, start), e)] else h
  }

  /** A run of the loop: a run of the model from the start in which every arm taken was ready. */
  ghost predicate IsLoopRun(h: seq<StackTransition>, start: Millis) {
    IsStackRun(h) && Guarded(h) && StartsFrom(h, start)
  }

  lemma {:induction false} TraceIsLoopRun(start: Millis, events: seq<Event>)
    requires InOrder(events)
    ensures IsLoopRun(Trace(start, events), start)
    ensures forall x :: x in Trace(start, events) ==> x.event in events
    decreases |events|
  {
    hide StackStep, Ready;
    if events == [] {
      NoRun();
    } else {
      var n := |events| - 1;
      TraceIsLoopRun(start, events[..n]);
      var h := Trace(start, events[..n]);
      assert forall i :: 0 <= i < |h| ==> h[i].event in events[..n];
      if Ready(Reached(h, start), events[n]) {
        OneMoreStep(h, start, Turn(Reached(h, start), events[n]));
      }
    }
  }

  lemma NoRun()
    ensures IsStackRun([])
  {
  }

  lemma OneMoreStep(h: seq<StackTransition>, start: Millis, x: StackTransition)
    requires IsStackRun(h) && StartsFrom(h, start) && x.before == Reached(h, start)
    requires StackStep(x.before, x.event) == StackAfter(x.after, x.effects)
    requires forall i :: 0 <= i < |h| ==> h[i].event.now <= x.event.now
    ensures IsStackRun(h + [x]) && StartsFrom(h + [x], start)
  {
    hide StackStep;
    var g := h + [x];
    forall i | 0 < i < |g|
      ensures g[i].before == g[i - 1].after
    {
      if i < |h| { assert h[i].before == h[i - 1].after; }
    }
  }

  lemma LoopGoesOn(h: seq<StackTransition>, start: Millis, x: StackTransition)
    requires IsLoopRun(h, start) && x.before == Reached(h, start) && Ready(x.before, x.event)
    requires StackStep(x.before, x.event) == StackAfter(x.after, x.effects)
    requires forall i :: 0 <= i < |h| ==> h[i].event.now <= x.event.now
    ensures IsLoopRun(h + [x], start) && Reached(h + [x], start) == x.after
  {
    OneMoreStep(h, start, x);
    hide StackStep, Ready, IsStackRun;
  }

  function EventsOf(h: seq<StackTransition>): (events: seq<Event>)
    ensures |events| == |h| && forall i :: 0 <= i < |h| ==> events[i] == h[i].event
  {
    seq(|h|, i requires 0 <= i < |h| => h[i].event)
  }

  /** Nothing but the events decides: a run in which every arm was ready is the loop's own trace for its events. */
  lemma {:induction false} LoopRunsAreTraces(h: seq<StackTransition>, start: Millis)
    requires IsLoopRun(h, start)
    ensures InOrder(EventsOf(h)) && Trace(start, EventsOf(h)) == h
    decreases |h|
  {
    hide StackStep, Ready;
    if h != [] {
      var n := |h| - 1;
      StackPrefixIsRun(h);
      LoopRunsAreTraces(h[..n], start);
      assert EventsOf(h)[..n] == EventsOf(h[..n]);
      assert n > 0 ==> h[..n][n - 1] == h[n - 1];
      assert Ready(h[n].before, h[n].event) && h[n] == Turn(h[n].before, h[n].event);
      assert h == h[..n] + [h[n]];
    }
  }

  lemma StackPrefixIsRun(h: seq<StackTransition>)
    requires IsStackRun(h) && h != []
    ensures IsStackRun(h[..|h| - 1])
    ensures StackStep(h[|h| - 1].before, h[|h| - 1].event) == StackAfter(h[|h| - 1].after, h[|h| - 1].effects)
    ensures |h| > 1 ==> h[|h| - 1].before == h[|h| - 2].after
  {
    hide StackStep;
    var g := h[..|h| - 1];
    forall i | 0 < i < |g|
      ensures g[i].before == g[i - 1].after
    {
      assert h[i].before == h[i - 1].after;
    }
  }

  /** While every caller sends one request, no two live exchanges of a session have the same. */
  lemma RunKeepsCallersApart(h: seq<StackTransition>, start: Millis)
    requires IsStackRun(h) && StackCallersDistinct(h)
    ensures AllApart(Reached(h, start))
  {
    if h != [] {
      forall p | p in Reached(h, start).sessions
        ensures CallersApart(Reached(h, start).sessions[p].exchanges)
      {
        ProjectionBalances(h, p);
      }
    }
  }

  // ---- The loop ----

  /** One turn of the loop: the arm that is ready. */
  method TakeArm(stack: CoapStack, e: Event) returns (out: seq<PeerEffect>)
    requires stack.Valid()
    modifies stack.Repr
    ensures stack.Valid() && fresh(stack.Repr - old(stack.Repr))
    ensures stack.Abs() == StackStep(old(stack.Abs()), e).state
    ensures forall f :: f in out <==> f in StackStep(old(stack.Abs()), e).effects
    ensures AllApart(old(stack.Abs())) ==> Distinct(out)
  {
    assert stack in stack.Repr;
    CleanupSendsNothing(stack.Abs(), e);
    hide StackStep, AllApart, CoapStack.Valid, CoapStack.Abs;
    match e.arm {
      case Malformed(peer) =>
        out := stack.OnPacket(e.now, peer, None, false, Seeds(0, 0));
      case PacketIn(peer, p, encodes, seeds) =>
        out := stack.OnPacket(e.now, peer, Some(p), encodes, seeds);
      case ClientRequest(peer, caller, r, encodes, t0, seeds) =>
        out := stack.OnClientRequest(e.now, peer, caller, r, encodes, t0, seeds);
      case ServerResponse(peer, token, r, encodes, seeds) =>
        out := stack.OnServerResponse(e.now, peer, token, r, encodes, seeds);
      case RetransmissionTimer =>
        out := stack.OnRetransmissionTimer(e.now);
      case CleanupTimer =>
        stack.OnCleanupTimer(e.now);
        out := [];
    }
  }

  lemma CleanupSendsNothing(st: Stack, e: Event)
    ensures e.arm.CleanupTimer? ==> StackStep(st, e).effects == {}
  {
  }

  /** Which arm the loop would take now, from the two instants it has computed. */
  method IsReady(stack: CoapStack, e: Event) returns (ready: bool)
    requires stack.Valid()
    ensures ready <==> Ready(stack.Abs(), e)
  {
    var next := stack.NextDeadline();
    DeadlineDecides(Live(stack.Abs()), next, e.now);
    stack.SameKeys();
    hide DueBy, CoapStack.Valid, CoapStack.Abs;
    match e.arm {
      case RetransmissionTimer => ready := next.Some? && next.value <= e.now;
      case CleanupTimer => ready := stack.nextCleanup <= e.now;
      case _ => ready := true;
    }
  }

  /** The loop, for as long as it is offered events: it goes through the trace of those that are ready, and puts
      out at each turn exactly what that step says, nothing twice. */
  method Loop(start: Millis, events: seq<Event>)
    returns (stack: CoapStack, outs: seq<seq<PeerEffect>>, ghost trace: seq<StackTransition>)
    requires InOrder(events)
    ensures trace == Trace(start, events) && IsLoopRun(trace, start)
    ensures stack.Valid() && fresh(stack.Repr) && stack.Abs() == Reached(trace, start)
    ensures |outs| == |trace| && forall i, f :: 0 <= i < |trace| ==> (f in outs[i] <==> f in trace[i].effects)
    ensures StackCallersDistinct(trace) ==> forall i :: 0 <= i < |outs| ==> Distinct(outs[i])
  {
    stack := new CoapStack(start);
    outs, trace := [], [];
    hide StackStep, Ready, IsLoopRun, Distinct, AllApart, CoapStack.Valid, CoapStack.Abs;
    for i := 0 to |events|
      invariant trace == Trace(start, events[..i])
      invariant stack.Valid() && fresh(stack.Repr) && stack.Abs() == Reached(trace, start)
      invariant |outs| == |trace|
      invariant forall k, f :: 0 <= k < |trace| ==> (f in outs[k] <==> f in trace[k].effects)
      invariant StackCallersDistinct(trace) ==> forall k :: 0 <= k < |outs| ==> Distinct(outs[k])
    {
      assert events[..i + 1][..i] == events[..i];
      ghost var st := stack.Abs();
      var ready := IsReady(stack, events[i]);
      if ready {
        TraceCallersApart(start, events[..i]);
        var out := TakeArm(stack, events[i]);
        CallersDistinctBefore(trace, Turn(st, events[i]));
        outs, trace := outs + [out], trace + [Turn(st, events[i])];
      }
    }
    assert events[..|events|] == events;
    TraceIsLoopRun(start, events);
  }

  lemma CallersDistinctBefore(h: seq<StackTransition>, x: StackTransition)
    ensures StackCallersDistinct(h + [x]) ==> StackCallersDistinct(h)
  {
    assert forall i :: 0 <= i < |h| ==> (h + [x])[i] == h[i];
  }

  lemma TraceCallersApart(start: Millis, events: seq<Event>)
    requires InOrder(events)
    ensures StackCallersDistinct(Trace(start, events)) ==> AllApart(Reached(Trace(start, events), start))
  {
    TraceIsLoopRun(start, events);
    hide Guarded, StartsFrom;
    if StackCallersDistinct(Trace(start, events)) { RunKeepsCallersApart(Trace(start, events), start); }
  }
}
