/** How long an inbound MID is remembered: until a sweep comes late enough, and sweeps come only for requests. */
module Forgetting {
  import opened Types
  import opened Model
  import opened Changes
  import opened Correlation
  import opened Deduplication
  import opened EndToEnd
  import opened EventLoop

  /** The step is a sweep 247 s or more after the instant given. */
  predicate Purges(x: Transition, since: Millis) {
    x.event.arm.RetransmissionTimer? && since + 247_000 <= x.event.now
  }

  /** Step i accepted MID m and no later step has purged it. */
  ghost predicate KeptSince(h: History, peer: SocketAddr, m: Mid, i: nat) {
    && i < |h|
    && Accepts(h[i], peer, m)
    && forall k :: i < k < |h| ==> !Purges(h[k], h[i].event.now)
  }

  lemma EntryStep(x: Transition, peer: SocketAddr, m: Mid)
    requires IsStep(x, peer)
    ensures m in Seen(x.after) <==>
            Accepts(x, peer, m) || (m in Seen(x.before) && !Purges(x, Seen(x.before)[m].created))
    ensures m in Seen(x.after) ==>
              Seen(x.after)[m].created == if Accepts(x, peer, m) then x.event.now else Seen(x.before)[m].created
  {
    var note := StepNotes(x, peer);
    hide IsStep, Acknowledges, Acks;
  }

  lemma KeptStep(h: History, peer: SocketAddr, m: Mid, i: nat)
    requires h != []
    ensures KeptSince(h, peer, m, i) <==>
            if i == |h| - 1 then Accepts(h[i], peer, m)
            else KeptSince(Prefix(h), peer, m, i) && !Purges(h[|h| - 1], Prefix(h)[i].event.now)
  {
    hide Accepts, Purges;
    assert forall k :: 0 <= k < |h| - 1 ==> Prefix(h)[k] == h[k];
  }

  /** A MID is remembered if and only if it was accepted and no sweep has come 247 s (EXCHANGE_LIFETIME) after that:
      neither sooner nor, without such a sweep, ever. */
  lemma {:induction false} RememberedIff(h: History, peer: SocketAddr, m: Mid)
    requires IsRun(h, peer)
    ensures m in Seen(Last(h)) <==> exists i: nat :: KeptSince(h, peer, m, i)
    ensures forall i: nat :: KeptSince(h, peer, m, i) ==> EntryFrom(h, m, i)
    decreases |h|
  {
    if h != [] {
      PrefixIsRun(h, peer);
      RememberedIff(Prefix(h), peer, m);
      var x := h[|h| - 1];
      EntryStep(x, peer, m);
      hide IsRun, IsStep, KeptSince, Purges;
      forall i: nat | KeptSince(h, peer, m, i)
        ensures EntryFrom(h, m, i)
      {
        KeptStep(h, peer, m, i);
      }
      if m in Seen(x.after) {
        var i := |h| - 1;
        if !Accepts(x, peer, m) { i :| 0 <= i && KeptSince(Prefix(h), peer, m, i); }
        assert i != |h| - 1 ==> EntryFrom(Prefix(h), m, i);
        KeptStep(h, peer, m, i);
      }
    }
  }

  /** The entry of m dates from step i. */
  ghost predicate EntryFrom(h: History, m: Mid, i: nat) {
    i < |h| && m in Seen(Last(h)) && Seen(Last(h))[m].created == h[i].event.now
  }

  // ---- A stack that only serves ----

  ghost predicate ServesOnly(h: seq<StackTransition>) {
    forall i :: 0 <= i < |h| ==> !h[i].event.arm.ClientRequest?
  }

  lemma ServersHoldNothing(h: seq<StackTransition>, peer: SocketAddr, k: nat)
    requires IsStackRun(h) && ServesOnly(h) && k < |h|
    ensures LiveOf(View(h[k].before, peer)) == map[]
  {
    ProjectionIsRun(h, peer);
    var r := Project(h, peer);
    PrefixIsBefore(r, peer, k);
    EveryExchangeBegan(r[..k], peer);
    hide IsStackRun, IsRun, IsStep, PeerStep, BeganIn;
    forall t, w
      ensures !BeganIn(r[..k], peer, t, w)
    {
      NothingBegan(r[..k], peer, t, w);
    }
  }

  lemma NothingBegan(h: History, peer: SocketAddr, t: Token, w: Waiting)
    requires forall i :: 0 <= i < |h| ==> !h[i].event.arm.ClientRequest?
    ensures !BeganIn(h, peer, t, w)
  {
  }

  lemma ServersNeverSweep(h: seq<StackTransition>, start: Millis, k: nat)
    requires IsLoopRun(h, start) && ServesOnly(h) && k < |h|
    ensures !h[k].event.arm.RetransmissionTimer?
  {
    assert Ready(h[k].before, h[k].event);
    hide IsStackRun, Guarded;
    forall p | p in h[k].before.sessions
      ensures h[k].before.sessions[p].exchanges == map[]
    {
      ServersHoldNothing(h, p, k);
    }
  }

  /** In every run of the loop in which this stack sends no request, a MID accepted from a peer is never accepted from
      it again, however much later: the timer that would purge it is armed only by outstanding requests. */
  lemma ServersNeverForget(h: seq<StackTransition>, start: Millis, peer: SocketAddr, m: Mid, i: nat, j: nat)
    requires IsLoopRun(h, start) && ServesOnly(h) && i < j < |h| && Accepts(Project(h, peer)[i], peer, m)
    ensures !Accepts(Project(h, peer)[j], peer, m)
  {
    ProjectionIsRun(h, peer);
    var r := Project(h, peer);
    PrefixIsBefore(r, peer, j);
    forall k | 0 <= k < |h|
      ensures !Purges(r[k], r[i].event.now)
    {
      ServersNeverSweep(h, start, k);
    }
    hide IsLoopRun, IsRun, IsStep, PeerStep;
    assert r[..j][i] == r[i];
    assert KeptSince(r[..j], peer, m, i);
    RememberedIff(r[..j], peer, m);
  }

  lemma {:induction false} Pigeonhole(s: set<nat>, f: map<nat, nat>, n: nat)
    requires s <= f.Keys && forall i :: i in s ==> f[i] < n
    requires forall i, j :: i in s && j in s && f[i] == f[j] ==> i == j
    ensures |s| <= n
    decreases n
  {
    if n == 0 {
      assert s == {};
    } else if i :| i in s && f[i] == n - 1 {
      Pigeonhole(s - {i}, f, n - 1);
    } else {
      Pigeonhole(s, f, n - 1);
    }
  }

  /** A first copy of a message arrives. */
  predicate AcceptsAny(x: Transition, peer: SocketAddr) {
    Receives(x, peer) && Accepts(x, peer, x.event.arm.packet.messageId)
  }

  /** Such a stack accepts at most 2^16 messages of a peer, ever. */
  lemma ServersAcceptAtMost(h: seq<StackTransition>, start: Millis, peer: SocketAddr, steps: set<nat>)
    requires IsLoopRun(h, start) && ServesOnly(h)
    requires forall i :: i in steps ==> i < |h| && AcceptsAny(Project(h, peer)[i], peer)
    ensures |steps| <= MID_SPACE
  {
    var r := Project(h, peer);
    hide IsLoopRun, Project, Accepts;
    var f: map<nat, nat> := map i | i in steps :: r[i].event.arm.packet.messageId;
    forall i, j | i in steps && j in steps && f[i] == f[j]
      ensures i == j
    {
      if i < j { ServersNeverForget(h, start, peer, f[i], i, j); }
      if j < i { ServersNeverForget(h, start, peer, f[j], j, i); }
    }
    Pigeonhole(steps, f, MID_SPACE);
  }

  /** It dispatches at most as many requests of the peer. */
  lemma ServersDispatchAtMost(h: seq<StackTransition>, start: Millis, peer: SocketAddr, steps: set<nat>)
    requires IsLoopRun(h, start) && ServesOnly(h)
    requires forall i :: i in steps ==> i < |h| && h[i].event.arm.PacketIn? && h[i].event.arm.peer == peer
                                        && PeerEffect(peer, Dispatched(h[i].event.arm.packet)) in h[i].effects
    ensures |steps| <= MID_SPACE
  {
    ProjectionIsRun(h, peer);
    var r := Project(h, peer);
    hide IsStackRun, Guarded, StartsFrom, PeerStep;
    forall i | i in steps
      ensures AcceptsAny(r[i], peer)
    {
      assert IsStep(r[i], peer);
      hide IsStep;
      DispatchesDeliver(r[i], peer);
      DeliveriesAreAccepted(r[i], peer, r[i].event.arm.packet.messageId);
    }
    ServersAcceptAtMost(h, start, peer, steps);
  }
}
