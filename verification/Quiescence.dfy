/** The retransmission timer: what its deadline means, and that it runs out. */
module Quiescence {
  import opened Types
  import opened Model
  import opened Agreement

  // ---- The deadline ----

  ghost predicate HasDeadline<K(!new)>(m: map<K, Waiting>) {
    exists k :: k in m && Deadline(m[k]).Some?
  }

  ghost predicate WellFormed<K(!new)>(m: map<K, Waiting>) {
    forall k :: k in m ==> Formed(m[k])
  }

  /** Before the deadline a sweep does nothing; after a sweep every remaining deadline is in the future. */
  lemma SweepMeetsDeadline<K(!new)>(m: map<K, Waiting>, next: Option<Millis>, now: Millis)
    requires WellFormed(m) && IsNextDeadline(m, next)
    ensures (next.Some? ==> now < next.value) <==> SweptExchanges(m, now) == m
    ensures WellFormed(SweptExchanges(m, now))
    ensures forall k :: k in SweptExchanges(m, now) && Deadline(SweptExchanges(m, now)[k]).Some? ==>
      now < Deadline(SweptExchanges(m, now)[k]).value
  {
    var m' := SweptExchanges(m, now);
    if next.Some? && next.value <= now {
      var k :| k in m && Deadline(m[k]) == next;
      assert k !in m' || m'[k] != m[k];
    } else {
      assert forall k :: k in m ==> !GivenUp(m[k], now) && !Resends(m[k], now);
    }
  }

  lemma NothingIsNext<K(!new)>(m: map<K, Waiting>)
    ensures IsNextDeadline(m, None) <==> !HasDeadline(m)
  {
  }

  // ---- The measure ----

  /** Firings an exchange can still take part in. */
  function Weight(w: Waiting): nat {
    if w.backoff.Some? then (if w.backoff.value.count <= 4 then 5 - w.backoff.value.count else 0)
    else if w.expiresAt.Some? then 1 else 0
  }

  ghost function Total<K(!new)>(m: map<K, Waiting>): nat
    decreases |m|
  {
    if m == map[] then 0
    else
      var k :| k in m;
      assert (m - {k}).Keys == m.Keys - {k};
      Weight(m[k]) + Total(m - {k})
  }

  /** The sum does not depend on the order it is taken in. */
  lemma {:induction false} TotalWithout<K(!new)>(m: map<K, Waiting>, k: K)
    requires k in m
    ensures Total(m) == Weight(m[k]) + Total(m - {k})
    decreases |m|
  {
    var j :| j in m && Total(m) == Weight(m[j]) + Total(m - {j});
    if j != k {
      assert (m - {j}).Keys == m.Keys - {j} && (m - {k}).Keys == m.Keys - {k};
      TotalWithout(m - {j}, k);
      TotalWithout(m - {k}, j);
      assert m - {j} - {k} == m - {k} - {j};
    }
  }

  /** Going from m to n the exchange under k loses weight, or goes with the weight it has. */
  predicate Lightened<K(==)>(m: map<K, Waiting>, n: map<K, Waiting>, k: K) {
    k in m && if k in n then Weight(n[k]) < Weight(m[k]) else Weight(m[k]) > 0
  }

  /** Dropping exchanges and lowering weights lowers the total, strictly if one weight drops. */
  lemma {:induction false} TotalDrops<K(!new)>(m: map<K, Waiting>, n: map<K, Waiting>)
    requires forall k :: k in n ==> k in m && Weight(n[k]) <= Weight(m[k])
    ensures Total(n) <= Total(m)
    ensures (exists k :: Lightened(m, n, k)) ==> Total(n) < Total(m)
    decreases |m|
  {
    if m == map[] {
      assert n == map[];
    } else {
      var j :| j in m;
      assert (m - {j}).Keys == m.Keys - {j};
      TotalDrops(m - {j}, n - {j});
      TotalWithout(m, j);
      if j in n { TotalWithout(n, j); } else { assert n - {j} == n; }
      if k :| Lightened(m, n, k) {
        assert k != j ==> Lightened(m - {j}, n - {j}, k);
      }
    }
  }

  /** A firing at or after the deadline strictly lowers the total. */
  lemma FiringLowersTotal<K(!new)>(m: map<K, Waiting>, next: Millis, now: Millis)
    requires WellFormed(m) && IsNextDeadline(m, Some(next)) && next <= now
    ensures Total(SweptExchanges(m, now)) < Total(m)
  {
    var k :| k in m && Deadline(m[k]) == Some(next);
    var n := SweptExchanges(m, now);
    assert Lightened(m, n, k);
    TotalDrops(m, n);
  }

  /** At most five firings for every exchange that can be sent again and one for every NON exchange. */
  lemma {:induction false} TotalIsBounded<K(!new)>(m: map<K, Waiting>, cons: set<K>, nons: set<K>)
    requires forall k :: k in m && Weight(m[k]) > 0 ==>
        (m[k].backoff.Some? && k in cons) || (m[k].backoff.None? && k in nons)
    ensures Total(m) <= 5 * |cons| + |nons|
    decreases |m|
  {
    if m != map[] {
      var k :| k in m && Total(m) == Weight(m[k]) + Total(m - {k});
      assert (m - {k}).Keys == m.Keys - {k};
      if Weight(m[k]) == 0 {
        TotalIsBounded(m - {k}, cons, nons);
      } else if m[k].backoff.Some? {
        TotalIsBounded(m - {k}, cons - {k}, nons);
      } else {
        TotalIsBounded(m - {k}, cons, nons - {k});
      }
    }
  }

  // ---- The whole stack ----

  function Fire(st: Stack, now: Millis): Stack { StackStep(st, Event(now, RetransmissionTimer)).state }

  lemma LiveHas(st: Stack, k: (SocketAddr, Token))
    ensures k in Live(st) <==> k.0 in st.sessions && k.1 in st.sessions[k.0].exchanges
    ensures k in Live(st) ==> Live(st)[k] == st.sessions[k.0].exchanges[k.1]
  {
    assert k == (k.0, k.1);
  }

  lemma FireSweepsSession(st: Stack, now: Millis, p: SocketAddr)
    ensures p in Fire(st, now).sessions <==> p in st.sessions
    ensures p in st.sessions ==> Fire(st, now).sessions[p].exchanges == SweptExchanges(st.sessions[p].exchanges, now)
  {
    hide GivenUp, Swept, GivenUpMids, FreshDedup, SweepEffects;
  }

  lemma FireSweepsAll(st: Stack, now: Millis)
    ensures Live(Fire(st, now)) == SweptExchanges(Live(st), now)
  {
    hide Live, Fire, GivenUp, Swept;
    var live, live' := Live(st), Live(Fire(st, now));
    var swept := SweptExchanges(live, now);
    forall k: (SocketAddr, Token)
      ensures k in live' <==> k in swept
      ensures k in live' ==> live'[k] == swept[k]
    {
      LiveHas(st, k);
      LiveHas(Fire(st, now), k);
      FireSweepsSession(st, now, k.0);
    }
  }

  /** Successive firings, each at or after the deadline the loop computed, if it computed one. */
  ghost predicate Fires(st: Stack, times: seq<Millis>)
    decreases |times|
  {
    times != [] ==>
      && (HasDeadline(Live(st)) ==> exists next :: IsNextDeadline(Live(st), Some(next)) && next <= times[0])
      && Fires(Fire(st, times[0]), times[1..])
  }

  function AfterFirings(st: Stack, times: seq<Millis>): Stack
    decreases |times|
  {
    if times == [] then st else AfterFirings(Fire(st, times[0]), times[1..])
  }

  /** The exchanges without a deadline: CON exchanges whose empty ACK has arrived. They wait for ever. */
  function Patient<K(==)>(m: map<K, Waiting>): map<K, Waiting> {
    map k | k in m && Deadline(m[k]).None? :: m[k]
  }

  lemma PatientIsUnswept<K(!new)>(m: map<K, Waiting>, now: Millis)
    requires WellFormed(m)
    ensures Patient(SweptExchanges(m, now)) == Patient(m)
  {
  }

  /** With no other input, after `Total` firings nothing is left but the exchanges that never had a deadline,
      untouched; the timer is then off. */
  lemma {:induction false} TimerRunsOut(st: Stack, times: seq<Millis>)
    requires WellFormed(Live(st)) && Fires(st, times) && |times| >= Total(Live(st))
    ensures Live(AfterFirings(st, times)) == Patient(Live(st))
    ensures !HasDeadline(Live(AfterFirings(st, times)))
    decreases |times|
  {
    hide Live, Fire, WellFormed, HasDeadline, Patient, SweptExchanges, IsNextDeadline;
    var m := Live(st);
    if times == [] {
      NoWeightLeft(m);
    } else {
      var now := times[0];
      FireSweepsAll(st, now);
      if HasDeadline(m) {
        var next :| IsNextDeadline(m, Some(next)) && next <= now;
        FiringLowersTotal(m, next, now);
        SweepMeetsDeadline(m, Some(next), now);
      } else {
        assert IsNextDeadline(m, None) by { NothingIsNext(m); }
        SweepMeetsDeadline(m, None, now);
        NoWeightLeft(m);
      }
      TimerRunsOut(Fire(st, now), times[1..]);
      PatientIsUnswept(m, now);
    }
  }

  lemma {:induction false} NoWeightLeft<K(!new)>(m: map<K, Waiting>)
    requires WellFormed(m)
    ensures Total(m) == 0 <==> !HasDeadline(m)
    ensures !HasDeadline(m) ==> Patient(m) == m
    decreases |m|
  {
    if m != map[] {
      var k :| k in m && Total(m) == Weight(m[k]) + Total(m - {k});
      assert (m - {k}).Keys == m.Keys - {k};
      NoWeightLeft(m - {k});
      assert Weight(m[k]) > 0 <==> Deadline(m[k]).Some?;
      if HasDeadline(m - {k}) {
        var j :| j in m - {k} && Deadline((m - {k})[j]).Some?;
        assert j in m && Deadline(m[j]).Some?;
      }
      if HasDeadline(m) {
        var j :| j in m && Deadline(m[j]).Some?;
        assert j != k ==> j in m - {k} && Deadline((m - {k})[j]).Some?;
      }
    }
  }

  /** Every reachable stack satisfies what the results above assume. */
  lemma ReachableIsWellFormed(h: seq<StackTransition>)
    requires IsStackRun(h) && h != []
    ensures WellFormed(Live(h[|h| - 1].after))
  {
    var st := h[|h| - 1].after;
    forall k | k in Live(st)
      ensures Formed(Live(st)[k])
    {
      ProjectionIsRun(h, k.0);
      hide IsStackRun, IsRun, PeerStep;
      RunIsShaped(Project(h, k.0), k.0);
      assert Shaped(k.1, st.sessions[k.0].exchanges[k.1]);
    }
  }
}
