/** When copies are sent and when a request times out (sections 4.2 and 4.8 of RFC 7252). */
module Timing {
  import opened Types
  import opened Model
  import opened Changes
  import opened Agreement
  import opened Conservation
  import opened Correlation
  import opened Retransmission

  predicate SendsCopy(x: Transition, c: Caller, k: nat) {
    exists f :: f in Copies(x, c) && f.reason == Copy(c, k)
  }

  /** When the run last sent copy k of c's request. */
  function SentAt(h: History, c: Caller, k: nat): Option<Millis> {
    if h == [] then None
    else if SendsCopy(h[|h| - 1], c, k) then Some(h[|h| - 1].event.now)
    else SentAt(Prefix(h), c, k)
  }

  /** The random initial timeout c's request drew. */
  function Drawn(h: History, peer: SocketAddr, c: Caller): Millis {
    if h == [] then 0
    else if TakenAt(h[|h| - 1], peer, c) then h[|h| - 1].event.arm.t0
    else Drawn(Prefix(h), peer, c)
  }

  /** The wait after copy k: the initial timeout doubled k times. */
  function Wait(t0: Millis, k: nat): Millis {
    if k == 0 then t0 else 2 * Wait(t0, k - 1)
  }

  /** Every sweep that handles a deadline does so at most d after it. */
  ghost predicate Punctual(h: History, d: Millis) {
    forall i, t :: 0 <= i < |h| && h[i].event.arm.RetransmissionTimer? && t in LiveOf(h[i].before) ==>
      InTime(LiveOf(h[i].before)[t], h[i].event.now, d)
  }

  predicate InTime(w: Waiting, now: Millis, d: Millis) {
    Deadline(w).Some? ==> now <= Deadline(w).value + d
  }

  /** The waiting exchange agrees with the record of what was sent. */
  ghost predicate OnSchedule(h: History, peer: SocketAddr, c: Caller) {
    var mine := Mine(LiveOf(Last(h)), c);
    mine.Some? ==>
      && (mine.value.mid.Some? <==> IsCon(h, peer, c))
      && (mine.value.backoff.Some? ==>
            var b := mine.value.backoff.value;
            && (forall k: nat :: SentAt(h, c, k).Some? <==> k <= b.count)
            && b.timeout == Wait(Drawn(h, peer, c), b.count)
            && b.due == SentAt(h, c, b.count).value + b.timeout)
      && (mine.value.mid.None? ==>
            && (forall k: nat :: SentAt(h, c, k).Some? <==> k == 0)
            && mine.value.expiresAt == Some(SentAt(h, c, 0).value + 145_000))
  }

  /** Copy k + 1 follows copy k after at least, and at most d more than, the initial timeout doubled k times. */
  ghost predicate Spaced(h: History, peer: SocketAddr, c: Caller, d: Millis) {
    forall j: nat, k: nat :: SpacedAt(h, peer, c, d, j, k)
  }

  ghost predicate SpacedAt(h: History, peer: SocketAddr, c: Caller, d: Millis, j: nat, k: nat) {
    k == j + 1 && SentAt(h, c, k).Some? ==>
      && k <= 4
      && SentAt(h, c, j).Some?
      && SentAt(h, c, j).value + Wait(Drawn(h, peer, c), j) <= SentAt(h, c, k).value
      && SentAt(h, c, k).value <= SentAt(h, c, j).value + Wait(Drawn(h, peer, c), j) + d
  }

  /** A CON request times out after its last copy and one more doubled wait, reporting all its retransmissions;
      a NON request after 145 s, reporting none. */
  ghost predicate Expires(h: History, peer: SocketAddr, c: Caller, d: Millis) {
    forall i, n :: 0 <= i < |h| && SettledAt(h[i], c, TimedOut(n)) ==>
      var last := if IsCon(h, peer, c) then 4 else 0;
      var wait := if IsCon(h, peer, c) then Wait(Drawn(h, peer, c), 4) else 145_000;
      && n == last
      && SentAt(h, c, last).Some?
      && SentAt(h, c, last).value + wait <= h[i].event.now <= SentAt(h, c, last).value + wait + d
  }

  ghost predicate Timed(h: History, peer: SocketAddr, c: Caller, d: Millis) {
    && (!Taken(h, peer, c) ==> forall k: nat :: SentAt(h, c, k).None?)
    && (!Taken(h, peer, c) ==> forall i, n :: 0 <= i < |h| ==> !SettledAt(h[i], c, TimedOut(n)))
    && (Taken(h, peer, c) ==> ACK_TIMEOUT <= Drawn(h, peer, c) <= ACK_TIMEOUT_CEILING)
    && OnSchedule(h, peer, c) && Spaced(h, peer, c, d) && Expires(h, peer, c, d)
  }

  lemma SilentStep(h: History, c: Caller)
    requires h != [] && Copies(h[|h| - 1], c) == {}
    ensures forall k: nat :: SentAt(h, c, k) == SentAt(Prefix(h), c, k)
  {
  }

  lemma SendingStep(h: History, c: Caller, f: Effect, k: nat)
    requires h != [] && Copies(h[|h| - 1], c) == {f} && f.reason == Copy(c, k)
    ensures SentAt(h, c, k) == Some(h[|h| - 1].event.now)
    ensures forall j: nat :: j != k ==> SentAt(h, c, j) == SentAt(Prefix(h), c, j)
  {
    assert f in Copies(h[|h| - 1], c);
  }

  lemma SpacedCarries(h: History, peer: SocketAddr, c: Caller, d: Millis)
    requires h != [] && Spaced(Prefix(h), peer, c, d) && !TakenAt(h[|h| - 1], peer, c)
    requires forall k: nat :: SentAt(h, c, k) == SentAt(Prefix(h), c, k)
    ensures Spaced(h, peer, c, d)
  {
    var g := Prefix(h);
    assert Drawn(h, peer, c) == Drawn(g, peer, c);
    forall j: nat, k: nat
      ensures SpacedAt(h, peer, c, d, j, k)
    {
      assert SpacedAt(g, peer, c, d, j, k);
      assert SentAt(h, c, k) == SentAt(g, c, k) && SentAt(h, c, j) == SentAt(g, c, j);
    }
  }

  lemma ConIsTaken(h: History, peer: SocketAddr, c: Caller)
    requires IsCon(h, peer, c)
    ensures Taken(h, peer, c)
  {
    var i :| 0 <= i < |h| && TakenAsCon(h[i], peer, c);
    assert TakenAt(h[i], peer, c);
  }

  lemma MineInTime(h: History, c: Caller, d: Millis)
    requires h != [] && Punctual(h, d) && h[|h| - 1].event.arm.RetransmissionTimer?
    requires Mine(LiveOf(h[|h| - 1].before), c).Some?
    ensures InTime(Mine(LiveOf(h[|h| - 1].before), c).value, h[|h| - 1].event.now, d)
  {
    var i := |h| - 1;
    var live := LiveOf(h[i].before);
    var t :| t in live && live[t].caller == c && Mine(live, c) == Some(live[t]);
  }

  /** The record before the last step, and what is known of c's turn in that step. */
  ghost predicate Continues(h: History, peer: SocketAddr, c: Caller, d: Millis, turn: Turn) {
    && h != []
    && Timed(Prefix(h), peer, c, d)
    && Moves(h[|h| - 1], peer, c, turn)
    && h[|h| - 1].before == Last(Prefix(h))
    && (turn == Taking ==> !Taken(Prefix(h), peer, c))
    && (Taken(h, peer, c) <==> Taken(Prefix(h), peer, c) || TakenAt(h[|h| - 1], peer, c))
    && (IsCon(h, peer, c) <==> IsCon(Prefix(h), peer, c) || TakenAsCon(h[|h| - 1], peer, c))
    && (IsCon(Prefix(h), peer, c) ==> Taken(Prefix(h), peer, c))
    && var m := Mine(LiveOf(Last(Prefix(h))), c);
       && MineFormed(m)
       && (m.Some? ==> Taken(Prefix(h), peer, c))
       && (m.Some? && h[|h| - 1].event.arm.RetransmissionTimer? ==> InTime(m.value, h[|h| - 1].event.now, d))
  }

  lemma TimedTaking(h: History, peer: SocketAddr, c: Caller, d: Millis)
    requires Continues(h, peer, c, d, Taking)
    ensures Timed(h, peer, c, d)
  {
    var x := h[|h| - 1];
    if x.event.arm.encodes {
      SendingStep(h, c, Sent(PacketOf(x), Copy(c, 0)), 0);
    } else {
      SilentStep(h, c);
    }
    hide Mine, Taken, IsCon, TakenAsCon, SentAt, Copies, PacketOf;
    assert forall i :: 0 <= i < |h| - 1 ==> h[i] == Prefix(h)[i];
    forall j: nat, k: nat
      ensures SpacedAt(h, peer, c, d, j, k)
    {
      assert k > 0 ==> SentAt(h, c, k).None?;
    }
  }

  lemma TimedResending(h: History, peer: SocketAddr, c: Caller, d: Millis)
    requires Continues(h, peer, c, d, Resending)
    ensures Timed(h, peer, c, d)
  {
    var b := Mine(LiveOf(h[|h| - 1].before), c).value.backoff.value;
    SendingStep(h, c, Sent(b.bytes, Copy(c, b.count + 1)), b.count + 1);
    assert Drawn(h, peer, c) == Drawn(Prefix(h), peer, c);
    hide Mine, Taken, IsCon, TakenAsCon, SentAt, Drawn, Copies;
    assert forall i :: 0 <= i < |h| - 1 ==> h[i] == Prefix(h)[i];
    forall j: nat, k: nat
      ensures SpacedAt(h, peer, c, d, j, k)
    {
      assert SpacedAt(Prefix(h), peer, c, d, j, k);
    }
  }

  lemma TimedSilent(h: History, peer: SocketAddr, c: Caller, d: Millis, turn: Turn)
    requires (turn == Expiring || turn == Resting) && Continues(h, peer, c, d, turn)
    ensures Timed(h, peer, c, d)
  {
    SilentStep(h, c);
    SpacedCarries(h, peer, c, d);
    hide Mine, Taken, IsCon, TakenAsCon, SentAt, Copies, Spaced;
    assert forall i :: 0 <= i < |h| - 1 ==> h[i] == Prefix(h)[i];
  }

  lemma {:induction false} RunIsTimed(h: History, peer: SocketAddr, c: Caller, d: Millis)
    requires IsRun(h, peer) && CallersDistinct(h) && Punctual(h, d)
    ensures Timed(h, peer, c, d)
    decreases |h|
  {
    if h != [] {
      var turn := LastTurn(h, peer, c);
      assert Punctual(Prefix(h), d);
      RunIsTimed(Prefix(h), peer, c, d);
      ExtendIsCon(h, peer, c);
      if IsCon(Prefix(h), peer, c) { ConIsTaken(Prefix(h), peer, c); }
      if h[|h| - 1].event.arm.RetransmissionTimer? && Mine(LiveOf(h[|h| - 1].before), c).Some? {
        MineInTime(h, c, d);
      }
      assert Continues(h, peer, c, d, turn) by { hide IsRun, Timed, Moves, Taken, Mine, IsCon; }
      hide *;
      match turn
      case Taking => TimedTaking(h, peer, c, d);
      case Resending => TimedResending(h, peer, c, d);
      case _ => TimedSilent(h, peer, c, d, turn);
    }
  }

  // ---- In terms of the run itself ----

  lemma SendingTurn(x: Transition, peer: SocketAddr, c: Caller, turn: Turn, k: nat)
    requires Moves(x, peer, c, turn) && SendsCopy(x, c, k)
    ensures if turn == Taking then k == 0 && TakenAt(x, peer, c)
            else turn == Resending && k > 0 && Mine(LiveOf(x.before), c).value.backoff.value.count + 1 == k
  {
    hide Mine, PacketOf, IsStep;
  }

  /** A copy that is on record is not sent again. */
  lemma NotSentAgain(h: History, peer: SocketAddr, c: Caller, k: nat, d: Millis, turn: Turn)
    requires h != [] && Timed(Prefix(h), peer, c, d) && SentAt(Prefix(h), c, k).Some?
    requires Moves(h[|h| - 1], peer, c, turn) && (turn == Taking ==> !Taken(Prefix(h), peer, c))
    requires h[|h| - 1].before == Last(Prefix(h))
    ensures !SendsCopy(h[|h| - 1], c, k)
  {
    hide Mine, Moves, Taken, SendsCopy, SentAt, Spaced, Expires, Drawn;
    if SendsCopy(h[|h| - 1], c, k) {
      SendingTurn(h[|h| - 1], peer, c, turn, k);
      SendingNeedsRoom(h[|h| - 1], peer, c, turn);
    }
  }

  lemma SendingNeedsRoom(x: Transition, peer: SocketAddr, c: Caller, turn: Turn)
    requires Moves(x, peer, c, turn) && turn == Resending
    ensures Mine(LiveOf(x.before), c).Some? && Mine(LiveOf(x.before), c).value.backoff.Some?
  {
    hide Mine;
  }

  /** The record is when copy k was sent. */
  lemma {:induction false} RecordIsExact(h: History, peer: SocketAddr, c: Caller, j: nat, k: nat)
    requires IsRun(h, peer) && CallersDistinct(h) && j < |h| && SendsCopy(h[j], c, k)
    ensures SentAt(h, c, k) == Some(h[j].event.now)
    ensures k == 0 ==> TakenAt(h[j], peer, c)
    decreases |h|
  {
    hide IsRun, Timed, Mine, Moves, Taken, SendsCopy;
    var turn := LastTurn(h, peer, c);
    if j < |h| - 1 {
      assert Prefix(h)[j] == h[j];
      RecordIsExact(Prefix(h), peer, c, j, k);
      var d := LooseTiming(Prefix(h), peer, c);
      NotSentAgain(h, peer, c, k, d, turn);
    } else {
      SendingTurn(h[j], peer, c, turn, k);
    }
  }

  /** Copy k of a request is sent in one step of the run at most. */
  lemma {:induction false} CopyIsSentOnce(h: History, peer: SocketAddr, c: Caller, i: nat, j: nat, k: nat)
    requires IsRun(h, peer) && CallersDistinct(h) && i < j < |h| && SendsCopy(h[i], c, k)
    ensures !SendsCopy(h[j], c, k)
    decreases |h|
  {
    hide IsRun, Timed, SendsCopy, CallersDistinct;
    assert Prefix(h)[i] == h[i];
    if j < |h| - 1 {
      var turn := LastTurn(h, peer, c);
      assert Prefix(h)[j] == h[j];
      CopyIsSentOnce(Prefix(h), peer, c, i, j, k);
    } else {
      OnRecordBefore(h, peer, c, i, k);
    }
  }

  lemma OnRecordBefore(h: History, peer: SocketAddr, c: Caller, i: nat, k: nat)
    requires IsRun(h, peer) && CallersDistinct(h) && i < |h| - 1 && SendsCopy(h[i], c, k)
    ensures !SendsCopy(h[|h| - 1], c, k)
  {
    hide IsRun, Timed, Moves, Taken, SendsCopy, SentAt, Mine, CallersDistinct;
    var turn := LastTurn(h, peer, c);
    RecordIsExact(Prefix(h), peer, c, i, k);
    var d := LooseTiming(Prefix(h), peer, c);
    NotSentAgain(h, peer, c, k, d, turn);
  }

  /** Any finite run is punctual for some lateness. */
  lemma LooseTiming(h: History, peer: SocketAddr, c: Caller) returns (d: Millis)
    requires IsRun(h, peer) && CallersDistinct(h)
    ensures Punctual(h, d) && Timed(h, peer, c, d)
  {
    d := if h == [] then 0 else h[|h| - 1].event.now;
    assert Punctual(h, d) by {
      hide IsStep;
      assert forall i :: 0 <= i < |h| ==> h[i].event.now <= d;
    }
    RunIsTimed(h, peer, c, d);
  }

  lemma {:induction false} RecordHasSource(h: History, c: Caller, k: nat)
    requires SentAt(h, c, k).Some?
    ensures exists j :: 0 <= j < |h| && SendsCopy(h[j], c, k)
    decreases |h|
  {
    if !SendsCopy(h[|h| - 1], c, k) {
      RecordHasSource(Prefix(h), c, k);
      var j :| 0 <= j < |Prefix(h)| && SendsCopy(Prefix(h)[j], c, k);
      assert SendsCopy(h[j], c, k);
    }
  }

  lemma {:induction false} DrawnIs(h: History, peer: SocketAddr, c: Caller, i: nat)
    requires CallersDistinct(h) && i < |h| && TakenAt(h[i], peer, c)
    ensures Drawn(h, peer, c) == h[i].event.arm.t0
    ensures IsCon(h, peer, c) <==> h[i].event.arm.request.confirmable
    decreases |h|
  {
    if IsCon(h, peer, c) {
      var j :| 0 <= j < |h| && TakenAsCon(h[j], peer, c);
      assert i == j;
    }
    if h[i].event.arm.request.confirmable {
      assert TakenAsCon(h[i], peer, c);
    }
    if i < |h| - 1 {
      assert CallersDistinct(Prefix(h));
      DrawnIs(Prefix(h), peer, c, i);
    }
  }

  /** The first copy goes out when the request is taken. */
  lemma FirstCopyAtTaking(h: History, peer: SocketAddr, c: Caller, i: nat)
    requires IsRun(h, peer) && CallersDistinct(h) && i < |h| && TakenAt(h[i], peer, c) && SentAt(h, c, 0).Some?
    ensures SentAt(h, c, 0) == Some(h[i].event.now)
  {
    RecordHasSource(h, c, 0);
    var j :| 0 <= j < |h| && SendsCopy(h[j], c, 0);
    RecordIsExact(h, peer, c, j, 0);
    assert j == i;
  }

  /** From the first copy to copy k: the waits in between, and at most k sweeps' lateness. */
  lemma {:induction false} CopiesAccumulate(h: History, peer: SocketAddr, c: Caller, d: Millis, k: nat)
    requires Spaced(h, peer, c, d) && SentAt(h, c, k).Some?
    ensures SentAt(h, c, 0).Some? && k <= 4
    ensures var t0 := Drawn(h, peer, c);
      var waits := Wait(t0, k) - t0;
      SentAt(h, c, 0).value + waits <= SentAt(h, c, k).value <= SentAt(h, c, 0).value + waits + k * d
    decreases k
  {
    if k > 0 {
      assert SpacedAt(h, peer, c, d, k - 1, k);
      CopiesAccumulate(h, peer, c, d, k - 1);
      assert k * d == (k - 1) * d + d;
    }
  }

  lemma Waits(t0: Millis)
    ensures Wait(t0, 0) == t0 && Wait(t0, 1) == 2 * t0 && Wait(t0, 2) == 4 * t0 && Wait(t0, 3) == 8 * t0
        && Wait(t0, 4) == 16 * t0
  {
    assert Wait(t0, 4) == 2 * Wait(t0, 3) && Wait(t0, 2) == 2 * Wait(t0, 1);
  }

  /** Copy k of a request goes out (2^k - 1) initial timeouts after it was taken, and with every sweep at most
      d late, at most k * d later: within 45 s + 4d in all, MAX_TRANSMIT_SPAN of section 4.8.2. */
  lemma CopyTiming(h: History, peer: SocketAddr, c: Caller, i: nat, j: nat, k: nat, d: Millis)
    requires IsRun(h, peer) && CallersDistinct(h) && Punctual(h, d)
    requires i < |h| && TakenAt(h[i], peer, c) && j < |h| && SendsCopy(h[j], c, k)
    ensures k <= 4
    ensures var t0 := h[i].event.arm.t0;
      h[i].event.now + Wait(t0, k) - t0 <= h[j].event.now <= h[i].event.now + Wait(t0, k) - t0 + k * d
    ensures h[j].event.now <= h[i].event.now + 45_000 + 4 * d
  {
    RunIsTimed(h, peer, c, d);
    RecordIsExact(h, peer, c, j, k);
    CopiesAccumulate(h, peer, c, d, k);
    FirstCopyAtTaking(h, peer, c, i);
    DrawnIs(h, peer, c, i);
    Waits(h[i].event.arm.t0);
    assert k * d <= 4 * d;
    hide IsRun, Timed;
    assert k == 0 || k == 1 || k == 2 || k == 3 || k == 4;
  }

  /** A CON request times out no sooner than 31 initial timeouts (62 s) after it was taken, and with sweeps
      at most d late no later than 93 s + 5d, MAX_TRANSMIT_WAIT of section 4.8.2; it reports 4 retransmissions.
      A NON request times out 145 s after it was sent and reports none. */
  lemma TimeoutTiming(h: History, peer: SocketAddr, c: Caller, i: nat, j: nat, n: nat, d: Millis)
    requires IsRun(h, peer) && CallersDistinct(h) && Punctual(h, d)
    requires i < |h| && TakenAt(h[i], peer, c) && j < |h| && SettledAt(h[j], c, TimedOut(n))
    ensures var taken, t0 := h[i].event.now, h[i].event.arm.t0;
      if h[i].event.arm.request.confirmable then
        && n == 4
        && taken + 62_000 <= taken + 31 * t0 <= h[j].event.now <= taken + 31 * t0 + 5 * d <= taken + 93_000 + 5 * d
      else
        && n == 0
        && taken + 145_000 <= h[j].event.now <= taken + 145_000 + d
  {
    RunIsTimed(h, peer, c, d);
    DrawnIs(h, peer, c, i);
    Waits(h[i].event.arm.t0);
    hide IsRun;
    var last := if IsCon(h, peer, c) then 4 else 0;
    CopiesAccumulate(h, peer, c, d, last);
    FirstCopyAtTaking(h, peer, c, i);
  }

  /** Every deadline is met: no step of any kind finds an exchange whose deadline is more than d past. */
  ghost predicate Prompt(h: History, d: Millis) {
    forall i, t :: 0 <= i < |h| && t in LiveOf(h[i].before) ==> InTime(LiveOf(h[i].before)[t], h[i].event.now, d)
  }

  /** The longest time from taking a request to its end, a late sweep for every deadline included. */
  function Limit(x: Transition, d: Millis): Millis
    requires x.event.arm.ClientRequest?
  {
    if x.event.arm.request.confirmable then 93_000 + 5 * d else 145_000 + d
  }

  /** The deadline of an exchange, from the record of what was sent for its caller. */
  ghost predicate Scheduled(h: History, peer: SocketAddr, w: Waiting) {
    var last := RetransmitCount(w);
    && SentAt(h, w.caller, last).Some?
    && (IsCon(h, peer, w.caller) <==> w.mid.Some?)
    && Deadline(w).Some?
    && Deadline(w).value == SentAt(h, w.caller, last).value +
         if IsCon(h, peer, w.caller) then Wait(Drawn(h, peer, w.caller), last) else 145_000
  }

  lemma WaitingIsScheduled(h: History, peer: SocketAddr, t: Token, d: Millis)
    requires IsRun(h, peer) && CallersDistinct(h)
    requires t in LiveOf(Last(h)) && Timed(h, peer, LiveOf(Last(h))[t].caller, d)
    requires Deadline(LiveOf(Last(h))[t]).Some?
    ensures Scheduled(h, peer, LiveOf(Last(h))[t])
  {
    RequestsAreConserved(h, peer);
    RunIsShaped(h, peer);
    MineIs(LiveOf(Last(h)), t);
    hide IsRun, Mine, SentAt, Spaced, Expires, Drawn, Wait, IsCon, Taken;
    assert Formed(LiveOf(Last(h))[t]);
  }

  /** An exchange of a request taken at step i that still has a deadline has not outlived its limit. */
  lemma DeadlinesAreNear(h: History, peer: SocketAddr, i: nat, t: Token, d: Millis)
    requires IsRun(h, peer) && CallersDistinct(h) && Punctual(h, d)
    requires t in LiveOf(Last(h)) && Deadline(LiveOf(Last(h))[t]).Some?
    requires i < |h| && TakenAt(h[i], peer, LiveOf(Last(h))[t].caller)
    ensures Deadline(LiveOf(Last(h))[t]).value + d <= h[i].event.now + Limit(h[i], d)
  {
    var w := LiveOf(Last(h))[t];
    var k := RetransmitCount(w);
    RunIsTimed(h, peer, w.caller, d);
    WaitingIsScheduled(h, peer, t, d);
    CopiesAccumulate(h, peer, w.caller, d, k);
    FirstCopyAtTaking(h, peer, w.caller, i);
    DrawnIs(h, peer, w.caller, i);
    RunIsShaped(h, peer);
    hide IsRun, CallersDistinct, Punctual, Timed, SentAt, Drawn, IsCon, Wait, AllShaped;
    LastWait(h[i].event.arm.t0, k, d);
    NonIsSentOnce(h, peer, w);
  }

  lemma NonIsSentOnce(h: History, peer: SocketAddr, w: Waiting)
    requires Scheduled(h, peer, w) && Formed(w)
    ensures !IsCon(h, peer, w.caller) ==> RetransmitCount(w) == 0
  {
  }

  /** All waits up to the one after copy k, and a late sweep for each. */
  lemma LastWait(t0: InitialTimeout, k: nat, d: Millis)
    requires k <= 4
    ensures Wait(t0, k) - t0 + k * d + Wait(t0, k) + d <= 93_000 + 5 * d
  {
    Waits(t0);
    assert k == 0 || k == 1 || k == 2 || k == 3 || k == 4;
  }

  /** An empty ACK with this MID arrives. */
  predicate HearsEmptyAck(x: Transition, peer: SocketAddr, m: Mid) {
    && x.event.arm.PacketIn? && x.event.arm.peer == peer
    && x.event.arm.packet.messageType.Acknowledgement? && x.event.arm.packet.code.Empty?
    && x.event.arm.packet.messageId == m
  }

  lemma QuietChange(x: Transition, peer: SocketAddr, t: Token)
    requires IsStep(x, peer) && Agrees(x.before) && t in LiveOf(x.before) && LiveOf(x.before)[t].backoff.Some?
    requires t in LiveOf(x.after) && LiveOf(x.after)[t].backoff.None?
    requires x.event.arm.PacketIn? && x.event.arm.peer == peer
    ensures LiveOf(x.before)[t].mid.Some? && HearsEmptyAck(x, peer, LiveOf(x.before)[t].mid.value)
  {
    hide TokenBytes, SendRequest, SendResponse, Sweep;
  }

  lemma HeardStep(x: Transition, peer: SocketAddr, t: Token)
    requires IsStep(x, peer) && Agrees(x.before) && t in LiveOf(x.after)
    requires LiveOf(x.after)[t].mid.Some? && LiveOf(x.after)[t].backoff.None?
    ensures t in LiveOf(x.before)
    ensures var w, w' := LiveOf(x.before)[t], LiveOf(x.after)[t];
      w.caller == w'.caller && w.mid == w'.mid && (w.backoff.None? || HearsEmptyAck(x, peer, w.mid.value))
  {
    var c := StepIsChange(x, peer);
    hide IsStep, TokenBytes, Agrees;
    if t in LiveOf(x.before) && LiveOf(x.before)[t].backoff.Some? && c == Quiet(t) {
      QuietChange(x, peer, t);
    }
  }

  /** An empty ACK with the MID of c's exchange under t has arrived in step k, while it was live. */
  ghost predicate HeardAt(h: History, peer: SocketAddr, t: Token, w: Waiting, k: nat) {
    && k < |h| && w.mid.Some? && HearsEmptyAck(h[k], peer, w.mid.value)
    && t in LiveOf(h[k].before) && LiveOf(h[k].before)[t].caller == w.caller
  }

  lemma AgreesBeforeLast(h: History, peer: SocketAddr)
    requires IsRun(h, peer) && Window(h, peer) && h != []
    ensures Agrees(h[|h| - 1].before)
  {
    IndexAgreement(h, peer);
  }

  /** Within the window, a live CON exchange that is no longer sent again has had its empty ACK. */
  lemma {:induction false} QuietWasHeard(h: History, peer: SocketAddr, t: Token) returns (k: nat)
    requires IsRun(h, peer) && Window(h, peer) && t in LiveOf(Last(h))
    requires LiveOf(Last(h))[t].mid.Some? && LiveOf(Last(h))[t].backoff.None?
    ensures HeardAt(h, peer, t, LiveOf(Last(h))[t], k)
    decreases |h|
  {
    hide IsRun, IsStep, Window, Agrees, HearsEmptyAck;
    PrefixIsRun(h, peer);
    PrefixKeepsWindow(h, peer);
    AgreesBeforeLast(h, peer);
    HeardStep(h[|h| - 1], peer, t);
    if LiveOf(h[|h| - 1].before)[t].backoff.None? {
      k := QuietWasHeard(Prefix(h), peer, t);
      assert Prefix(h)[k] == h[k];
    } else {
      k := |h| - 1;
    }
  }

  /** With every deadline met within d, a request that is still waiting once its limit has passed, 93 s + 5d for CON
      (MAX_TRANSMIT_WAIT of section 4.8.2) and 145 s + d for NON, is a CON that is not sent again any more: within the
      window, one whose empty ACK has arrived since. */
  lemma RequestsEndInTime(h: History, peer: SocketAddr, i: nat, j: nat, d: Millis)
    requires IsRun(h, peer) && CallersDistinct(h) && Prompt(h, d)
    requires i < j < |h| && h[i].event.arm.ClientRequest? && h[i].event.arm.peer == peer
    requires h[i].event.now + Limit(h[i], d) < h[j].event.now
    ensures var c := h[i].event.arm.caller;
      Ended(h[..j], c) || (h[i].event.arm.request.confirmable && QuietAt(h[j], c))
    ensures Window(h, peer) && !Ended(h[..j], h[i].event.arm.caller) ==>
      exists k :: i < k < j && HearsEmptyAck(h[k], peer, PacketOf(h[i]).messageId)
  {
    var c := h[i].event.arm.caller;
    LateIsQuiet(h, peer, i, j, d);
    hide IsRun, IsStep, CallersDistinct, Prompt, Window, QuietAt, Ended, PacketOf;
    if Window(h, peer) && !Ended(h[..j], c) {
      var k := QuietIsHeardSince(h, peer, i, j);
    }
  }

  /** No live exchange of caller c has a backoff before the step. */
  ghost predicate QuietAt(x: Transition, c: Caller) {
    forall t :: t in LiveOf(x.before) && LiveOf(x.before)[t].caller == c ==> LiveOf(x.before)[t].backoff.None?
  }

  lemma LateIsQuiet(h: History, peer: SocketAddr, i: nat, j: nat, d: Millis)
    requires IsRun(h, peer) && CallersDistinct(h) && Prompt(h, d)
    requires i < j < |h| && h[i].event.arm.ClientRequest? && h[i].event.arm.peer == peer
    requires h[i].event.now + Limit(h[i], d) < h[j].event.now
    ensures var c := h[i].event.arm.caller;
      Ended(h[..j], c) || (h[i].event.arm.request.confirmable && QuietAt(h[j], c))
  {
    var c := h[i].event.arm.caller;
    var g := h[..j];
    PrefixIsBefore(h, peer, j);
    RunIsShaped(g, peer);
    RequestsAreConserved(g, peer);
    assert g[i] == h[i] && TakenAt(g[i], peer, c);
    assert CallersDistinct(g) && Punctual(g, d);
    hide IsRun, IsStep, CallersDistinct, Punctual;
    forall t | t in LiveOf(h[j].before) && LiveOf(h[j].before)[t].caller == c
      ensures Deadline(LiveOf(h[j].before)[t]).None?
    {
      if Deadline(LiveOf(h[j].before)[t]).Some? {
        assert InTime(LiveOf(h[j].before)[t], h[j].event.now, d);
        DeadlinesAreNear(g, peer, i, t, d);
      }
    }
    if !Ended(g, c) {
      assert Pending(LiveOf(Last(g)), c);
      var t :| t in LiveOf(Last(g)) && LiveOf(Last(g))[t].caller == c;
      NonHasDeadline(g, peer, i, t, d);
    }
  }

  lemma QuietIsHeardSince(h: History, peer: SocketAddr, i: nat, j: nat) returns (k: nat)
    requires IsRun(h, peer) && CallersDistinct(h) && Window(h, peer)
    requires i < j < |h| && h[i].event.arm.ClientRequest? && h[i].event.arm.peer == peer
    requires h[i].event.arm.request.confirmable && QuietAt(h[j], h[i].event.arm.caller)
    requires !Ended(h[..j], h[i].event.arm.caller)
    ensures i < k < j && HearsEmptyAck(h[k], peer, PacketOf(h[i]).messageId)
  {
    var c := h[i].event.arm.caller;
    var g := h[..j];
    PrefixIsBefore(h, peer, j);
    EarlierWindow(h, peer, j);
    assert g[i] == h[i] && TakenAt(g[i], peer, c) && CallersDistinct(g);
    var t := WaitingCon(g, peer, i, c);
    hide IsRun, IsStep, CallersDistinct, Window, PacketOf;
    k := QuietWasHeard(g, peer, t);
    assert g[k] == h[k];
    HeardAfter(g, peer, i, k, c);
  }

  lemma EarlierWindow(h: History, peer: SocketAddr, j: nat)
    requires Window(h, peer) && j <= |h|
    ensures Window(h[..j], peer)
  {
    hide TokenAge, MidAge;
    assert forall i :: 0 <= i < j ==> h[..j][..i] == h[..i];
  }

  /** The exchange of a CON request that has not ended, and its MID. */
  lemma WaitingCon(h: History, peer: SocketAddr, i: nat, c: Caller) returns (t: Token)
    requires IsRun(h, peer) && CallersDistinct(h) && i < |h| && TakenAt(h[i], peer, c) && !Ended(h, c)
    requires h[i].event.arm.request.confirmable
    ensures t in LiveOf(Last(h)) && LiveOf(Last(h))[t].caller == c
    ensures LiveOf(Last(h))[t].mid == Some(PacketOf(h[i]).messageId)
  {
    hide IsStep, PacketOf;
    RequestsAreConserved(h, peer);
    EveryExchangeBegan(h, peer);
    RunIsShaped(h, peer);
    t :| t in LiveOf(Last(h)) && LiveOf(Last(h))[t].caller == c;
    var o :| 0 <= o < |h| && Began(h[o], peer, t, LiveOf(Last(h))[t]);
    assert o == i;
    var d := LooseTiming(h, peer, c);
    MineIs(LiveOf(Last(h)), t);
    DrawnIs(h, peer, c, i);
  }

  /** Caller c has no exchange before its request is taken. */
  lemma HeardAfter(h: History, peer: SocketAddr, i: nat, k: nat, c: Caller)
    requires IsRun(h, peer) && CallersDistinct(h) && i < |h| && k < |h| && TakenAt(h[i], peer, c)
    requires Pending(LiveOf(h[k].before), c)
    ensures i < k
  {
    PrefixIsBefore(h, peer, k);
    assert CallersDistinct(h[..k]);
    RequestsAreConserved(h[..k], peer);
    hide IsRun, IsStep;
    var o :| 0 <= o < |h[..k]| && TakenAt(h[..k][o], peer, c);
    assert TakenAt(h[o], peer, c);
  }

  /** A live exchange without a deadline belongs to a CON request. */
  lemma NonHasDeadline(h: History, peer: SocketAddr, i: nat, t: Token, d: Millis)
    requires IsRun(h, peer) && CallersDistinct(h) && Punctual(h, d) && t in LiveOf(Last(h))
    requires i < |h| && TakenAt(h[i], peer, LiveOf(Last(h))[t].caller) && Deadline(LiveOf(Last(h))[t]).None?
    ensures h[i].event.arm.request.confirmable
  {
    var c := LiveOf(Last(h))[t].caller;
    RequestsAreConserved(h, peer);
    RunIsShaped(h, peer);
    MineIs(LiveOf(Last(h)), t);
    RunIsTimed(h, peer, c, d);
    DrawnIs(h, peer, c, i);
  }

  /** The least time from taking a request to giving it up. */
  function Patience(x: Transition): Millis
    requires x.event.arm.ClientRequest?
  {
    if x.event.arm.request.confirmable then 31 * x.event.arm.t0 else 145_000
  }

  /** The lower bounds need no assumption on the sweeps. */
  lemma NeverTooSoon(h: History, peer: SocketAddr, c: Caller, i: nat, j: nat)
    requires IsRun(h, peer) && CallersDistinct(h) && i < |h| && TakenAt(h[i], peer, c) && j < |h|
    ensures forall k: nat :: SendsCopy(h[j], c, k) ==>
      h[i].event.now + Wait(h[i].event.arm.t0, k) - h[i].event.arm.t0 <= h[j].event.now
    ensures forall n :: SettledAt(h[j], c, TimedOut(n)) ==>
      h[i].event.now + Patience(h[i]) <= h[j].event.now
  {
    var d := LooseTiming(h, peer, c);
    forall k: nat | SendsCopy(h[j], c, k)
      ensures h[i].event.now + Wait(h[i].event.arm.t0, k) - h[i].event.arm.t0 <= h[j].event.now
    {
      CopyTiming(h, peer, c, i, j, k, d);
    }
    forall n | SettledAt(h[j], c, TimedOut(n))
      ensures h[i].event.now + Patience(h[i]) <= h[j].event.now
    {
      TimeoutTiming(h, peer, c, i, j, n, d);
    }
  }
}
