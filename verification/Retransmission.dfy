/** How often, when and for how long the copies of one request are sent. */
module Retransmission {
  import opened Types
  import opened Messages
  import opened Model
  import opened Changes
  import opened Agreement
  import opened Conservation
  import opened Correlation

  // ---- The life of one caller's request ----

  /** The exchange that answers to caller c, if there is one. */
  ghost function Mine(live: map<Token, Waiting>, c: Caller): Option<Waiting> {
    if t :| t in live && live[t].caller == c then Some(live[t]) else None
  }

  lemma MineIs(live: map<Token, Waiting>, t: Token)
    requires CallersApart(live) && t in live
    ensures Mine(live, live[t].caller) == Some(live[t])
  {
  }

  /** Copies of c's request sent in one step. */
  function Copies(x: Transition, c: Caller): set<Effect> {
    set f | f in x.effects && f.Sent? && f.reason.Copy? && f.reason.caller == c
  }

  datatype Turn = Taking | Resending | Expiring | Resting

  /** What a step means for caller c: its request is taken, sent again, given up, or sends nothing
      and keeps, quiets or loses its exchange. */
  ghost predicate Moves(x: Transition, peer: SocketAddr, c: Caller, turn: Turn) {
    var before, after := Mine(LiveOf(x.before), c), Mine(LiveOf(x.after), c);
    match turn
    case Taking =>
      && TakenAt(x, peer, c)
      && before == None
      && (if x.event.arm.encodes then
            && Copies(x, c) == {Sent(PacketOf(x), Copy(c, 0))}
            && after == Some(if x.event.arm.request.confirmable
                             then NewCon(c, PacketOf(x).messageId, PacketOf(x), x.event.arm.t0, x.event.now)
                             else NewNon(c, x.event.now))
          else Copies(x, c) == {} && after == None)
      && forall n :: !SettledAt(x, c, TimedOut(n))
    case Resending =>
      && x.event.arm.RetransmissionTimer?
      && before.Some? && Resends(before.value, x.event.now)
      && after == Some(Swept(before.value, x.event.now))
      && Copies(x, c) == {ResentCopy(before.value)}
      && forall n :: !SettledAt(x, c, TimedOut(n))
    case Expiring =>
      && x.event.arm.RetransmissionTimer?
      && before.Some? && GivenUp(before.value, x.event.now)
      && after == None
      && Copies(x, c) == {}
      && forall n :: SettledAt(x, c, TimedOut(n)) <==> n == RetransmitCount(before.value)
    case Resting =>
      && !TakenAt(x, peer, c)
      && Copies(x, c) == {}
      && (after == None || after == before || (before.Some? && after == Some(before.value.(backoff := None))))
      && (after.Some? && after.value.backoff.None? ==> before.value.mid.Some? || after == before)
      && forall n :: !SettledAt(x, c, TimedOut(n))
  }

  lemma TakingTurn(x: Transition, peer: SocketAddr, c: Caller, change: Change)
    requires IsStep(x, peer) && Summarises(change, LiveOf(x.before), LiveOf(x.after), x.effects)
        && Caused(x, peer, change)
    requires change.Open? || change.Refuse?
    requires TakenAt(x, peer, c) && !Pending(LiveOf(x.before), c) && CallersApart(LiveOf(x.after))
    ensures Moves(x, peer, c, Taking)
  {
    hide IsStep, TokenBytes;
    var live := LiveOf(x.before);
    assert forall f :: Tracked(f) ==> (f in x.effects <==> Tells(live, change, f));
    if change.Open? {
      MineIs(LiveOf(x.after), change.token);
      assert Copies(x, c) == {Sent(PacketOf(x), Copy(c, 0))};
    }
  }

  lemma SweepTurn(x: Transition, peer: SocketAddr, t: Token)
    requires Summarises(SweepAll(x.event.now), LiveOf(x.before), LiveOf(x.after), x.effects)
        && x.event.arm.RetransmissionTimer?
    requires t in LiveOf(x.before) && CallersApart(LiveOf(x.before)) && CallersApart(LiveOf(x.after))
    requires AllShaped(LiveOf(x.before))
    ensures var w := LiveOf(x.before)[t];
      Moves(x, peer, w.caller, if Resends(w, x.event.now) then Resending else if GivenUp(w, x.event.now) then Expiring
          else Resting)
  {
    var live, now := LiveOf(x.before), x.event.now;
    var w := live[t];
    var c := w.caller;
    MineIs(live, t);
    assert forall f :: Tracked(f) ==> (f in x.effects <==> Tells(live, SweepAll(now), f));
    assert forall u :: u in live && live[u].caller == c ==> u == t;
    if GivenUp(w, now) {
      assert Mine(LiveOf(x.after), c) == None;
      assert Tells(live, SweepAll(now), Expiry(w));
    } else {
      MineIs(LiveOf(x.after), t);
    }
    if Resends(w, now) {
      assert Tells(live, SweepAll(now), ResentCopy(w));
      assert Copies(x, c) == {ResentCopy(w)};
    } else {
      assert Copies(x, c) == {};
    }
  }

  lemma RestingTurn(x: Transition, peer: SocketAddr, c: Caller, change: Change)
    requires Summarises(change, LiveOf(x.before), LiveOf(x.after), x.effects)
    requires CallersApart(LiveOf(x.before)) && CallersApart(LiveOf(x.after)) && AllShaped(LiveOf(x.before))
    requires !TakenAt(x, peer, c)
    requires change.Open? ==> change.waiting.caller != c
    requires change.Refuse? ==> change.caller != c
    requires change.SweepAll? ==> !Pending(LiveOf(x.before), c)
    ensures Moves(x, peer, c, Resting)
  {
    var live, after := LiveOf(x.before), LiveOf(x.after);
    assert forall f :: Tracked(f) ==> (f in x.effects <==> Tells(live, change, f));
    assert Copies(x, c) == {};
    if t :| t in after && after[t].caller == c {
      MineIs(after, t);
      MineIs(live, t);
    }
  }

  /** Every step is one of the four turns for every caller. */
  lemma StepMoves(x: Transition, peer: SocketAddr, c: Caller) returns (turn: Turn)
    requires IsStep(x, peer) && CallersApart(LiveOf(x.before)) && AllShaped(LiveOf(x.before))
    requires x.event.arm.ClientRequest? ==> !Pending(LiveOf(x.before), x.event.arm.caller)
    ensures Moves(x, peer, c, turn)
  {
    StepConserves(x, peer, c);
    var change := StepIsChange(x, peer);
    hide IsStep, Moves, CallersApart, AllShaped, Summarises;
    turn := Resting;
    if TakenAt(x, peer, c) {
      turn := Taking;
      TakingTurn(x, peer, c, change);
    } else if change.SweepAll? && Pending(LiveOf(x.before), c) {
      var live, now := LiveOf(x.before), x.event.now;
      var t :| t in live && live[t].caller == c;
      SweepTurn(x, peer, t);
      turn := if Resends(live[t], now) then Resending else if GivenUp(live[t], now) then Expiring else Resting;
    } else {
      RestingTurn(x, peer, c, change);
    }
  }

  predicate MineFormed(o: Option<Waiting>) { o.Some? ==> Formed(o.value) }

  lemma MineIsFormed(live: map<Token, Waiting>, c: Caller)
    requires AllShaped(live)
    ensures MineFormed(Mine(live, c))
  {
  }

  /** The turn of caller c in the last step of a run. */
  lemma LastTurn(h: History, peer: SocketAddr, c: Caller) returns (turn: Turn)
    requires IsRun(h, peer) && CallersDistinct(h) && h != []
    ensures IsRun(Prefix(h), peer) && CallersDistinct(Prefix(h)) && h[|h| - 1].before == Last(Prefix(h))
    ensures Moves(h[|h| - 1], peer, c, turn)
    ensures turn == Taking ==> !Taken(Prefix(h), peer, c)
    ensures MineFormed(Mine(LiveOf(Last(Prefix(h))), c)) && MineFormed(Mine(LiveOf(Last(h)), c))
    ensures Mine(LiveOf(Last(Prefix(h))), c).Some? ==> Taken(Prefix(h), peer, c)
    ensures Taken(h, peer, c) <==> Taken(Prefix(h), peer, c) || TakenAt(h[|h| - 1], peer, c)
  {
    PrefixIsRun(h, peer);
    RunIsShaped(Prefix(h), peer);
    RunIsShaped(h, peer);
    RequestsAreConserved(Prefix(h), peer);
    ExtendTaken(h, peer, c);
    if h[|h| - 1].event.arm.ClientRequest? { NewCallerIsNew(h, peer); }
    MineIsFormed(LiveOf(Last(Prefix(h))), c);
    MineIsFormed(LiveOf(Last(h)), c);
    hide IsRun, IsStep, AllShaped, CallersApart, Taken, Ended, MineFormed;
    turn := StepMoves(h[|h| - 1], peer, c);
  }

  // ---- Number and identity of the copies ----

  /** How many copies of c's request the run has sent. */
  function CopiesSent(h: History, c: Caller): nat {
    if h == [] then 0 else CopiesSent(Prefix(h), c) + |Copies(h[|h| - 1], c)|
  }

  ghost predicate TakenAsCon(x: Transition, peer: SocketAddr, c: Caller) {
    TakenAt(x, peer, c) && x.event.arm.request.confirmable
  }

  ghost predicate IsCon(h: History, peer: SocketAddr, c: Caller) {
    exists i :: 0 <= i < |h| && TakenAsCon(h[i], peer, c)
  }

  lemma ExtendIsCon(h: History, peer: SocketAddr, c: Caller)
    requires h != []
    ensures IsCon(h, peer, c) <==> IsCon(Prefix(h), peer, c) || TakenAsCon(h[|h| - 1], peer, c)
  {
    if IsCon(Prefix(h), peer, c) {
      var i :| 0 <= i < |Prefix(h)| && TakenAsCon(Prefix(h)[i], peer, c);
      assert TakenAsCon(h[i], peer, c);
    }
    if IsCon(h, peer, c) {
      var i :| 0 <= i < |h| && TakenAsCon(h[i], peer, c);
      assert i < |Prefix(h)| ==> TakenAsCon(Prefix(h)[i], peer, c);
    }
  }

  ghost predicate Counted(h: History, peer: SocketAddr, c: Caller) {
    var mine := Mine(LiveOf(Last(h)), c);
    && CopiesSent(h, c) <= 5
    && (!Taken(h, peer, c) ==> CopiesSent(h, c) == 0)
    && (mine.Some? && mine.value.mid.None? ==> CopiesSent(h, c) == 1)
    && (mine.Some? && mine.value.backoff.Some? ==> CopiesSent(h, c) == 1 + mine.value.backoff.value.count)
    && ((mine.Some? && mine.value.mid.Some?) || CopiesSent(h, c) > 1 ==> IsCon(h, peer, c))
  }

  /** A CON request is sent at most five times in the whole run, a NON request at most once. */
  lemma {:induction false} CopiesAreBounded(h: History, peer: SocketAddr, c: Caller)
    requires IsRun(h, peer) && CallersDistinct(h)
    ensures Counted(h, peer, c)
    decreases |h|
  {
    if h != [] {
      var turn := LastTurn(h, peer, c);
      CopiesAreBounded(Prefix(h), peer, c);
      CountStep(h, peer, c, turn);
    }
  }

  lemma CountStep(h: History, peer: SocketAddr, c: Caller, turn: Turn)
    requires h != [] && Counted(Prefix(h), peer, c) && Moves(h[|h| - 1], peer, c, turn)
    requires h[|h| - 1].before == Last(Prefix(h)) && (turn == Taking ==> !Taken(Prefix(h), peer, c))
    requires Taken(h, peer, c) <==> Taken(Prefix(h), peer, c) || TakenAt(h[|h| - 1], peer, c)
    requires Mine(LiveOf(Last(Prefix(h))), c).Some? ==> Taken(Prefix(h), peer, c)
    requires MineFormed(Mine(LiveOf(Last(Prefix(h))), c))
    ensures Counted(h, peer, c)
  {
    ExtendIsCon(h, peer, c);
    hide Mine, Taken, IsCon, RequestPacket, TokenBytes;
  }

  lemma TakingSends(x: Transition, peer: SocketAddr, c: Caller, turn: Turn)
    requires Moves(x, peer, c, turn) && TakenAt(x, peer, c)
    ensures turn == Taking
    ensures x.event.arm.encodes ==> |Copies(x, c)| == 1
  {
    hide Mine, PacketOf;
  }

  /** An encoded CON request is sent one to five times, an encoded NON request exactly once. */
  lemma {:induction false} EncodedIsSent(h: History, peer: SocketAddr, c: Caller, i: nat)
    requires IsRun(h, peer) && CallersDistinct(h) && i < |h| && TakenAt(h[i], peer, c) && h[i].event.arm.encodes
    ensures 1 <= CopiesSent(h, c) <= 5
    ensures !h[i].event.arm.request.confirmable ==> CopiesSent(h, c) == 1
    decreases |h|
  {
    CopiesAreBounded(h, peer, c);
    var turn := LastTurn(h, peer, c);
    hide IsRun, Moves, Mine, Taken;
    if i < |h| - 1 {
      EncodedIsSent(Prefix(h), peer, c, i);
    } else {
      TakingSends(h[i], peer, c, turn);
    }
    if IsCon(h, peer, c) {
      var j :| 0 <= j < |h| && TakenAsCon(h[j], peer, c);
      assert i == j;
    }
  }

  /** Packet p is what c's request was first sent as. */
  ghost predicate IsOriginal(h: History, peer: SocketAddr, c: Caller, p: Packet) {
    exists i :: 0 <= i < |h| && Originates(h[i], peer, c) && PacketOf(h[i]) == p
  }

  ghost predicate Faithful(h: History, peer: SocketAddr, c: Caller) {
    var mine := Mine(LiveOf(Last(h)), c);
    && (mine.Some? && mine.value.backoff.Some? ==> IsOriginal(h, peer, c, mine.value.backoff.value.bytes))
    && forall i, f :: 0 <= i < |h| && f in Copies(h[i], c) ==> IsOriginal(h, peer, c, f.packet)
  }

  lemma ExtendOriginal(h: History, peer: SocketAddr, c: Caller, p: Packet)
    requires h != [] && IsOriginal(Prefix(h), peer, c, p)
    ensures IsOriginal(h, peer, c, p)
  {
    var i :| 0 <= i < |Prefix(h)| && Originates(Prefix(h)[i], peer, c) && PacketOf(Prefix(h)[i]) == p;
    assert Originates(h[i], peer, c) && PacketOf(h[i]) == p;
  }

  /** Every copy c's request is ever sent as equals the packet it was first sent as. */
  lemma {:induction false} CopiesAreFaithful(h: History, peer: SocketAddr, c: Caller)
    requires IsRun(h, peer) && CallersDistinct(h)
    ensures Faithful(h, peer, c)
    decreases |h|
  {
    if h != [] {
      var turn := LastTurn(h, peer, c);
      CopiesAreFaithful(Prefix(h), peer, c);
      hide IsRun, IsStep, Taken, IsOriginal, PacketOf, Mine, Moves;
      CopiesNow(h, peer, c, turn);
      forall i, f | 0 <= i < |h| && f in Copies(h[i], c)
        ensures IsOriginal(h, peer, c, f.packet)
      {
        if i < |h| - 1 {
          assert h[i] == Prefix(h)[i];
          ExtendOriginal(h, peer, c, f.packet);
        }
      }
    }
  }

  /** What the last step sends or keeps for c is the original. */
  lemma CopiesNow(h: History, peer: SocketAddr, c: Caller, turn: Turn)
    requires h != [] && Moves(h[|h| - 1], peer, c, turn) && Faithful(Prefix(h), peer, c)
        && h[|h| - 1].before == Last(Prefix(h))
    ensures forall f :: f in Copies(h[|h| - 1], c) ==> IsOriginal(h, peer, c, f.packet)
    ensures var mine := Mine(LiveOf(Last(h)), c);
      mine.Some? && mine.value.backoff.Some? ==> IsOriginal(h, peer, c, mine.value.backoff.value.bytes)
  {
    hide IsOriginal, PacketOf, Mine;
    var n := |h| - 1;
    var mine := Mine(LiveOf(h[n].before), c);
    if mine.Some? && mine.value.backoff.Some? {
      ExtendOriginal(h, peer, c, mine.value.backoff.value.bytes);
    }
    if turn == Taking && h[n].event.arm.encodes {
      assert Sent(PacketOf(h[n]), Copy(c, 0)) in Copies(h[n], c);
      OriginatesHere(h, peer, c, n);
    }
  }

  lemma OriginatesHere(h: History, peer: SocketAddr, c: Caller, i: nat)
    requires i < |h| && Originates(h[i], peer, c)
    ensures IsOriginal(h, peer, c, PacketOf(h[i]))
  {
  }

  /** All copies of a request sent in a run are the same packet. */
  lemma CopiesAreIdentical(h: History, peer: SocketAddr, c: Caller, i: nat, j: nat, f: Effect, g: Effect)
    requires IsRun(h, peer) && CallersDistinct(h)
    requires i < |h| && j < |h| && f in Copies(h[i], c) && g in Copies(h[j], c)
    ensures f.packet == g.packet
  {
    CopiesAreFaithful(h, peer, c);
    hide IsRun, PacketOf;
    assert IsOriginal(h, peer, c, f.packet) && IsOriginal(h, peer, c, g.packet);
    var k :| 0 <= k < |h| && Originates(h[k], peer, c) && PacketOf(h[k]) == f.packet;
    var l :| 0 <= l < |h| && Originates(h[l], peer, c) && PacketOf(h[l]) == g.packet;
    assert k == l;
  }

  // ---- Silence ----

  /** c's request was taken and nothing of it is waiting for an acknowledgement any more. */
  ghost predicate Quieted(h: History, peer: SocketAddr, c: Caller) {
    && Taken(h, peer, c)
    && var mine := Mine(LiveOf(Last(h)), c);
       mine.Some? ==> mine.value.backoff.None?
  }

  /** Once quiet, always quiet: no copy is ever sent again. */
  lemma {:induction false} QuietForever(h: History, peer: SocketAddr, c: Caller, i: nat)
    requires IsRun(h, peer) && CallersDistinct(h) && i <= |h| && Quieted(h[..i], peer, c)
    ensures Quieted(h, peer, c)
    ensures forall j :: i <= j < |h| ==> Copies(h[j], c) == {}
    decreases |h|
  {
    if i == |h| {
      assert h[..i] == h;
    } else {
      var turn := LastTurn(h, peer, c);
      assert Prefix(h)[..i] == h[..i];
      QuietForever(Prefix(h), peer, c, i);
      hide IsRun, Taken, Mine, Copies;
      assert forall j :: 0 <= j < |h| - 1 ==> Prefix(h)[j] == h[j];
      assert Moves(h[|h| - 1], peer, c, turn);
    }
  }

  /** A request is never sent again once it has ended, by a response, an RST, Timeout or otherwise. */
  lemma EndedIsQuiet(h: History, peer: SocketAddr, c: Caller, i: nat, o: Outcome)
    requires IsRun(h, peer) && CallersDistinct(h) && i < |h| && SettledAt(h[i], c, o)
    ensures forall j :: i < j < |h| ==> Copies(h[j], c) == {}
  {
    var g := h[..i + 1];
    assert IsRun(g, peer) by { PrefixOfRun(h, peer, i + 1); }
    RequestsAreConserved(g, peer);
    assert g[i] == h[i];
    EndedBy(g, i, c, o);
    assert Quieted(g, peer, c);
    QuietForever(h, peer, c, i + 1);
  }

  lemma PrefixOfRun(h: History, peer: SocketAddr, k: nat)
    requires IsRun(h, peer) && k <= |h|
    ensures IsRun(h[..k], peer)
  {
    if k < |h| { PrefixIsBefore(h, peer, k); } else { assert h[..k] == h; }
  }

  /** Within the window, an empty ACK with the MID of a request stops its retransmission for good. */
  lemma AcknowledgedIsQuiet(h: History, peer: SocketAddr, i: nat, t: Token)
    requires IsRun(h, peer) && CallersDistinct(h) && Window(h, peer) && i < |h|
    requires h[i].event.arm.PacketIn? && h[i].event.arm.peer == peer
    requires h[i].event.arm.packet.messageType.Acknowledgement? && h[i].event.arm.packet.code.Empty?
    requires t in LiveOf(h[i].before) && Holds(LiveOf(h[i].before)[t], h[i].event.arm.packet.messageId)
    ensures forall j :: i <= j < |h| ==> Copies(h[j], LiveOf(h[i].before)[t].caller) == {}
  {
    var c := LiveOf(h[i].before)[t].caller;
    AcknowledgedHere(h, peer, i, t);
    hide IsRun, CallersDistinct, Quieted, Copies, Window;
    QuietForever(h, peer, c, i + 1);
    CopiesNeedEffects(h[i], c);
  }

  lemma CopiesNeedEffects(x: Transition, c: Caller)
    ensures x.effects == {} ==> Copies(x, c) == {}
  {
  }

  lemma AcknowledgedHere(h: History, peer: SocketAddr, i: nat, t: Token)
    requires IsRun(h, peer) && CallersDistinct(h) && Window(h, peer) && i < |h|
    requires h[i].event.arm.PacketIn? && h[i].event.arm.peer == peer
    requires h[i].event.arm.packet.messageType.Acknowledgement? && h[i].event.arm.packet.code.Empty?
    requires t in LiveOf(h[i].before) && Holds(LiveOf(h[i].before)[t], h[i].event.arm.packet.messageId)
    ensures Quieted(h[..i + 1], peer, LiveOf(h[i].before)[t].caller) && h[i].effects == {}
  {
    hide IsRun, IsStep, Window, Quieted, Agrees, CallersDistinct;
    IndexAgreement(h, peer);
    PrefixIsBefore(h, peer, i);
    EmptyAckQuiets(h[i], peer, t);
    PrefixOfRun(h, peer, i + 1);
    FewerCallers(h, i + 1);
    assert h[..i + 1][i] == h[i];
    QuietedHere(h[..i + 1], peer, t);
  }

  lemma FewerCallers(h: History, k: nat)
    requires CallersDistinct(h) && k <= |h|
    ensures CallersDistinct(h[..k])
  {
  }

  lemma QuietedHere(h: History, peer: SocketAddr, t: Token)
    requires IsRun(h, peer) && CallersDistinct(h) && h != []
    requires t in LiveOf(h[|h| - 1].before)
    requires LiveOf(Last(h)) == LiveOf(h[|h| - 1].before)[t := LiveOf(h[|h| - 1].before)[t].(backoff := None)]
    ensures Quieted(h, peer, LiveOf(h[|h| - 1].before)[t].caller)
  {
    RequestsAreConserved(h, peer);
    MineIs(LiveOf(Last(h)), t);
    hide IsRun, Mine, Ended;
    assert Pending(LiveOf(Last(h)), LiveOf(h[|h| - 1].before)[t].caller);
  }

  lemma EmptyAckQuiets(x: Transition, peer: SocketAddr, t: Token)
    requires IsStep(x, peer) && x.event.arm.PacketIn? && x.event.arm.peer == peer && Agrees(x.before)
    requires x.event.arm.packet.messageType.Acknowledgement? && x.event.arm.packet.code.Empty?
    requires t in LiveOf(x.before) && Holds(LiveOf(x.before)[t], x.event.arm.packet.messageId)
    ensures LiveOf(x.after) == LiveOf(x.before)[t := LiveOf(x.before)[t].(backoff := None)] && x.effects == {}
  {
    assert x.before.value.midToToken[x.event.arm.packet.messageId] == t;
  }
}
