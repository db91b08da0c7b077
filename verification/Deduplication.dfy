/** Inbound messages: deduplication, deliveries upward, and the acknowledgements a peer is sent. */
module Deduplication {
  import opened Types
  import opened Messages
  import opened Model
  import opened Changes
  import opened Conservation
  import opened Correlation

  function Seen(o: Option<Session>): map<Mid, DedupEntry> { if o.Some? then o.value.dedup else map[] }

  function Owed(o: Option<Session>): map<Token, Mid> { if o.Some? then o.value.conMids else map[] }

  predicate Receives(x: Transition, peer: SocketAddr) {
    x.event.arm.PacketIn? && x.event.arm.peer == peer
  }

  /** A CON with MID m arrives, first copy or duplicate. */
  predicate ReceivesCon(x: Transition, peer: SocketAddr, m: Mid) {
    Receives(x, peer) && x.event.arm.packet.messageType.Confirmable? && x.event.arm.packet.messageId == m
  }

  predicate ReceivesMessage(x: Transition, peer: SocketAddr, m: Mid) {
    && Receives(x, peer)
    && (x.event.arm.packet.messageType.Confirmable? || x.event.arm.packet.messageType.NonConfirmable?)
    && x.event.arm.packet.messageId == m
  }

  /** A CON or NON with MID m arrives and is not a known duplicate. */
  predicate Accepts(x: Transition, peer: SocketAddr, m: Mid) {
    ReceivesMessage(x, peer, m) && m !in Seen(x.before)
  }

  /** The acknowledgements a step sends. */
  function Acks(x: Transition): set<Packet> {
    set f | f in x.effects && f.Sent? && !f.reason.Copy? && f.packet.messageType.Acknowledgement? :: f.packet
  }

  /** What a step does to the dedup table and the pending CON MIDs, and which ACKs it sends. */
  datatype Note =
    | Same
    | Accepted(packet: Packet, now: Millis, ack: Option<Packet>)
    | Repeated(packet: Packet)
    | Answered(token: Token, ack: Option<Packet>)
    | Aged(now: Millis)

  function WithReply(seen: map<Mid, DedupEntry>, m: Mid, reply: Option<Packet>): map<Mid, DedupEntry> {
    if reply.Some? && m in seen then seen[m := seen[m].(cached := reply)] else seen
  }

  ghost predicate Noted(note: Note, seen: map<Mid, DedupEntry>, owed: map<Token, Mid>, seen': map<Mid, DedupEntry>,
          owed': map<Token, Mid>) {
    match note
    case Same => seen' == seen && owed' == owed
    case Accepted(p, now, ack) =>
      && p.messageId !in seen
      && seen' == seen[p.messageId := DedupEntry(ack, now)]
      && owed' == if p.messageType.Confirmable? && p.code.Request? then owed[p.token := p.messageId] else owed
    case Repeated(p) => p.messageId in seen && seen' == seen && owed' == owed
    case Answered(t, ack) => t in owed && owed' == owed - {t} && seen' == WithReply(seen, owed[t], ack)
    case Aged(now) => seen' == FreshDedup(seen, now) && owed' == owed
  }

  /** The ACKs that go with a note. */
  ghost predicate Acknowledges(note: Note, seen: map<Mid, DedupEntry>, owed: map<Token, Mid>, p: Packet) {
    && p.messageType.Acknowledgement?
    && match note
       case Accepted(q, _, ack) => ack == Some(p) && q.messageType.Confirmable? && p.messageId == q.messageId
       case Repeated(q) => q.messageId in seen && q.messageType.Confirmable? && seen[q.messageId].cached == Some(p)
       case Answered(t, ack) => t in owed && ack == Some(p) && p.messageId == owed[t]
       case _ => false
  }

  ghost predicate NoteOf(x: Transition, peer: SocketAddr, note: Note) {
    && Noted(note, Seen(x.before), Owed(x.before), Seen(x.after), Owed(x.after))
    && (forall p :: p in Acks(x) <==> Acknowledges(note, Seen(x.before), Owed(x.before), p))
    && match note
       case Accepted(p, now, ack) =>
         && Accepts(x, peer, p.messageId) && p == x.event.arm.packet && now == x.event.now
         && (ack.Some? ==> ack.value == EmptyAckPacket(p.messageId)
                           && p.messageType.Confirmable? && !p.code.Request? && x.event.arm.encodes)
       case Repeated(p) => ReceivesMessage(x, peer, p.messageId) && p == x.event.arm.packet
           && LiveOf(x.after) == LiveOf(x.before)
       case Answered(t, ack) =>
         && x.event.arm.ServerResponse? && x.event.arm.peer == peer && x.event.arm.token == t
         && (ack.Some? ==>
               && t in Owed(x.before)
               && ack.value == ResponsePacket(x.event.arm.response, t, Owed(x.before)[t], Acknowledgement))
       case Aged(now) => x.event.arm.RetransmissionTimer? && now == x.event.now
       case Same => forall m :: !ReceivesMessage(x, peer, m)
  }

  lemma AcceptTables(s: Session, p: Packet, now: Millis, encodes: bool)
    requires p.messageId !in s.dedup
    ensures var a := Accept(s, p, now, encodes);
      var acks := p.messageType.Confirmable? && !p.code.Request? && encodes;
      && a.state.dedup ==
         s.dedup[p.messageId := DedupEntry(if acks then Some(EmptyAckPacket(p.messageId)) else None, now)]
      && a.state.conMids ==
          (if p.messageType.Confirmable? && p.code.Request? then s.conMids[p.token := p.messageId] else s.conMids)
      && forall f :: f in a.effects && f.Sent? <==> acks && f == Sent(EmptyAckPacket(p.messageId), Immediate)
  {
  }

  lemma AcceptNote(x: Transition, peer: SocketAddr) returns (note: Note)
    requires IsStep(x, peer) && Receives(x, peer) && Accepts(x, peer, x.event.arm.packet.messageId)
    ensures NoteOf(x, peer, note) && note.Accepted?
  {
    var p := x.event.arm.packet;
    var acks := p.messageType.Confirmable? && !p.code.Request? && x.event.arm.encodes;
    note := Accepted(p, x.event.now, if acks then Some(EmptyAckPacket(p.messageId)) else None);
    AcceptTables(Opened(x.before, x.event.arm.seeds), p, x.event.now, x.event.arm.encodes);
    hide TokenBytes, SendRequest, SendResponse, Sweep, Accept;
    assert acks ==> Sent(EmptyAckPacket(p.messageId), Immediate) in x.effects;
  }

  lemma RepeatNote(x: Transition, peer: SocketAddr) returns (note: Note)
    requires IsStep(x, peer) && Receives(x, peer) && ReceivesMessage(x, peer, x.event.arm.packet.messageId)
    requires x.event.arm.packet.messageId in Seen(x.before)
    ensures NoteOf(x, peer, note) && note.Repeated?
  {
    note := Repeated(x.event.arm.packet);
    hide TokenBytes, SendRequest, SendResponse, Sweep, Accept;
  }

  lemma ReplyNote(x: Transition, peer: SocketAddr)
    requires IsStep(x, peer) && Receives(x, peer) && !ReceivesMessage(x, peer, x.event.arm.packet.messageId)
    ensures NoteOf(x, peer, Same)
  {
    hide TokenBytes, SendRequest, SendResponse, Sweep, Accept;
  }

  lemma ResponseNote(x: Transition, peer: SocketAddr) returns (note: Note)
    requires IsStep(x, peer) && x.event.arm.ServerResponse? && x.event.arm.peer == peer
    ensures NoteOf(x, peer, note)
    ensures note == if x.event.arm.token in Owed(x.before) then Answered(x.event.arm.token, note.ack) else Same
  {
    var t := x.event.arm.token;
    hide TokenBytes, SendRequest, Receive, Sweep;
    if t in Owed(x.before) {
      var bytes := ResponsePacket(x.event.arm.response, t, Owed(x.before)[t], Acknowledgement);
      note := Answered(t, if x.event.arm.encodes then Some(bytes) else None);
      assert x.event.arm.encodes ==> Sent(bytes, Piggybacked) in x.effects;
    } else {
      note := Same;
    }
  }

  lemma OtherNote(x: Transition, peer: SocketAddr)
    requires IsStep(x, peer) && !Receives(x, peer) && !(x.event.arm.ServerResponse? && x.event.arm.peer == peer)
    ensures NoteOf(x, peer, if x.event.arm.RetransmissionTimer? then Aged(x.event.now) else Same)
  {
    hide TokenBytes, SendResponse, Receive;
  }

  lemma StepNotes(x: Transition, peer: SocketAddr) returns (note: Note)
    requires IsStep(x, peer)
    ensures NoteOf(x, peer, note)
  {
    hide IsStep, NoteOf;
    if !Receives(x, peer) {
      if x.event.arm.ServerResponse? && x.event.arm.peer == peer {
        note := ResponseNote(x, peer);
      } else {
        OtherNote(x, peer);
        note := if x.event.arm.RetransmissionTimer? then Aged(x.event.now) else Same;
      }
    } else if !ReceivesMessage(x, peer, x.event.arm.packet.messageId) {
      ReplyNote(x, peer);
      note := Same;
    } else if x.event.arm.packet.messageId in Seen(x.before) {
      note := RepeatNote(x, peer);
    } else {
      note := AcceptNote(x, peer);
    }
  }

  /** A duplicate changes nothing, is not delivered, and at most has its cached reply sent again. */
  lemma DuplicateIsInert(x: Transition, peer: SocketAddr, m: Mid)
    requires IsStep(x, peer) && ReceivesMessage(x, peer, m) && m in Seen(x.before)
    ensures x.after == x.before
    ensures forall f :: f in x.effects <==>
              && x.event.arm.packet.messageType.Confirmable?
              && Seen(x.before)[m].cached.Some?
              && f == Sent(Seen(x.before)[m].cached.value, Replayed)
  {
    hide TokenBytes, SendRequest, SendResponse, Sweep, Accept;
  }

  // ---- Dispatch separation ----

  /** A CON or NON with MID m is delivered to the server or to a waiting client. */
  ghost predicate DeliversUp(x: Transition, peer: SocketAddr, m: Mid) {
    && ReceivesMessage(x, peer, m)
    && (Dispatched(x.event.arm.packet) in x.effects || exists c, r :: SettledAt(x, c, Completed(r)))
  }

  /** Deliveries come from first copies only. */
  lemma DeliveriesAreAccepted(x: Transition, peer: SocketAddr, m: Mid)
    requires IsStep(x, peer) && DeliversUp(x, peer, m)
    ensures Accepts(x, peer, m)
  {
    if m in Seen(x.before) { DuplicateIsInert(x, peer, m); }
  }

  /** Every accepted MID is still in the table, or was accepted 247 s ago. */
  ghost predicate Remembers(h: History, peer: SocketAddr, m: Mid) {
    forall i :: 0 <= i < |h| && Accepts(h[i], peer, m) ==>
      || (m in Seen(Last(h)) && Seen(Last(h))[m].created >= h[i].event.now)
      || h[i].event.now + 247_000 <= h[|h| - 1].event.now
  }

  lemma {:induction false} RunRemembers(h: History, peer: SocketAddr, m: Mid)
    requires IsRun(h, peer)
    ensures Remembers(h, peer, m)
    decreases |h|
  {
    if h != [] {
      PrefixIsRun(h, peer);
      RunRemembers(Prefix(h), peer, m);
      hide IsRun, IsStep, Accepts;
      forall i | 0 <= i < |h| && Accepts(h[i], peer, m)
        ensures || (m in Seen(Last(h)) && Seen(Last(h))[m].created >= h[i].event.now)
                || h[i].event.now + 247_000 <= h[|h| - 1].event.now
      {
        if i < |h| - 1 { assert h[i] == Prefix(h)[i]; }
        if h[|h| - 1].event.now < h[i].event.now + 247_000 {
          KeepsEntry(h[|h| - 1], peer, m, h[i].event.now);
        }
      }
    }
  }

  /** A step keeps the entry of a MID accepted at `then`, or makes it, or drops it once it is 247 s old. */
  lemma KeepsEntry(x: Transition, peer: SocketAddr, m: Mid, accepted: Millis)
    requires IsStep(x, peer) && accepted <= x.event.now
    requires Accepts(x, peer, m) || (m in Seen(x.before) && Seen(x.before)[m].created >= accepted)
    ensures || (m in Seen(x.after) && Seen(x.after)[m].created >= accepted)
            || accepted + 247_000 <= x.event.now
  {
    var note := StepNotes(x, peer);
    hide IsStep, Acknowledges, Acks;
  }

  /** Two deliveries upward of messages with the same MID from the same peer are at least
      247 s (EXCHANGE_LIFETIME) apart, whatever the timers do and whichever sessions are evicted. */
  lemma DispatchSeparation(h: History, peer: SocketAddr, m: Mid, i: nat, j: nat)
    requires IsRun(h, peer) && i < j < |h| && DeliversUp(h[i], peer, m) && DeliversUp(h[j], peer, m)
    ensures h[i].event.now + 247_000 <= h[j].event.now
  {
    PrefixIsBefore(h, peer, j);
    assert IsStep(h[i], peer);
    DeliveriesAreAccepted(h[i], peer, m);
    DeliveriesAreAccepted(h[j], peer, m);
    RunRemembers(h[..j], peer, m);
    hide IsStep, DeliversUp;
    assert h[..j][i] == h[i] && Accepts(h[..j][i], peer, m);
    assert h[..j][j - 1] == h[j - 1];
  }

  // ---- ACK soundness ----

  ghost predicate ConSeen(h: History, peer: SocketAddr, m: Mid) {
    exists i :: 0 <= i < |h| && ReceivesCon(h[i], peer, m)
  }

  lemma ExtendConSeen(h: History, peer: SocketAddr, m: Mid)
    requires h != []
    ensures ConSeen(h, peer, m) <==> ConSeen(Prefix(h), peer, m) || ReceivesCon(h[|h| - 1], peer, m)
  {
    if ConSeen(Prefix(h), peer, m) {
      var i :| 0 <= i < |Prefix(h)| && ReceivesCon(Prefix(h)[i], peer, m);
      assert ReceivesCon(h[i], peer, m);
    }
    if ConSeen(h, peer, m) {
      var i :| 0 <= i < |h| && ReceivesCon(h[i], peer, m);
      assert i < |Prefix(h)| ==> ReceivesCon(Prefix(h)[i], peer, m);
    }
  }

  /** Every pending MID and every cached reply stem from a CON received from the peer. */
  ghost predicate Grounded(h: History, peer: SocketAddr) {
    && (forall t :: t in Owed(Last(h)) ==> ConSeen(h, peer, Owed(Last(h))[t]))
    && (forall m :: m in Seen(Last(h)) && Seen(Last(h))[m].cached.Some? ==>
          && ConSeen(h, peer, m)
          && Seen(Last(h))[m].cached.value.messageType.Acknowledgement?
          && Seen(Last(h))[m].cached.value.messageId == m)
  }

  lemma {:induction false} RunIsGrounded(h: History, peer: SocketAddr)
    requires IsRun(h, peer)
    ensures Grounded(h, peer)
    ensures h != [] ==> forall p :: p in Acks(h[|h| - 1]) ==> ConSeen(h, peer, p.messageId)
    decreases |h|
  {
    if h != [] {
      PrefixIsRun(h, peer);
      RunIsGrounded(Prefix(h), peer);
      var note := StepNotes(h[|h| - 1], peer);
      GroundStep(h, peer, note);
    }
  }

  lemma GroundStep(h: History, peer: SocketAddr, note: Note)
    requires h != [] && h[|h| - 1].before == Last(Prefix(h)) && Grounded(Prefix(h), peer)
        && NoteOf(h[|h| - 1], peer, note)
    ensures Grounded(h, peer)
    ensures forall p :: p in Acks(h[|h| - 1]) ==> ConSeen(h, peer, p.messageId)
  {
    hide Acks;
    forall m
      ensures ConSeen(h, peer, m) <==> ConSeen(Prefix(h), peer, m) || ReceivesCon(h[|h| - 1], peer, m)
    {
      ExtendConSeen(h, peer, m);
    }
    hide ConSeen;
    assert note.Accepted? && note.packet.messageType.Confirmable? ==>
        ReceivesCon(h[|h| - 1], peer, note.packet.messageId);
  }

  /** A CON request with this token and MID is accepted. */
  predicate AcceptsCon(x: Transition, peer: SocketAddr, t: Token, m: Mid) {
    Accepts(x, peer, m) && x.event.arm.packet.messageType.Confirmable?
    && x.event.arm.packet.code.Request? && x.event.arm.packet.token == t
  }

  /** The server hands over the response that q is made of. */
  predicate Produces(x: Transition, peer: SocketAddr, q: Packet) {
    && x.event.arm.ServerResponse? && x.event.arm.peer == peer
    && q == ResponsePacket(x.event.arm.response, x.event.arm.token, q.messageId, q.messageType)
  }

  ghost predicate Asked(h: History, peer: SocketAddr, t: Token, m: Mid) {
    exists i :: 0 <= i < |h| && AcceptsCon(h[i], peer, t, m)
  }

  ghost predicate Produced(h: History, peer: SocketAddr, q: Packet) {
    exists k :: 0 <= k < |h| && Produces(h[k], peer, q)
  }

  /** q is a response of the server under both the token and the MID of one CON request received. */
  ghost predicate RepliesToOne(h: History, peer: SocketAddr, q: Packet) {
    Asked(h, peer, q.token, q.messageId) && Produced(h, peer, q)
  }

  lemma ExtendAsked(h: History, peer: SocketAddr, t: Token, m: Mid)
    requires h != [] && (Asked(Prefix(h), peer, t, m) || AcceptsCon(h[|h| - 1], peer, t, m))
    ensures Asked(h, peer, t, m)
  {
    if Asked(Prefix(h), peer, t, m) {
      var i :| 0 <= i < |Prefix(h)| && AcceptsCon(Prefix(h)[i], peer, t, m);
      assert AcceptsCon(h[i], peer, t, m);
    }
  }

  lemma ExtendProduced(h: History, peer: SocketAddr, q: Packet)
    requires h != [] && (Produced(Prefix(h), peer, q) || Produces(h[|h| - 1], peer, q))
    ensures Produced(h, peer, q)
  {
    if Produced(Prefix(h), peer, q) {
      var i :| 0 <= i < |Prefix(h)| && Produces(Prefix(h)[i], peer, q);
      assert Produces(h[i], peer, q);
    }
  }

  /** Every pending MID is that of a CON request with its token; every cached reply is an empty ACK or answers one. */
  ghost predicate Matched(h: History, peer: SocketAddr) {
    && (forall t :: t in Owed(Last(h)) ==> Asked(h, peer, t, Owed(Last(h))[t]))
    && (forall m :: m in Seen(Last(h)) && Seen(Last(h))[m].cached.Some? ==>
          MatchedReply(h, peer, Seen(Last(h))[m].cached.value))
  }

  ghost predicate MatchedReply(h: History, peer: SocketAddr, q: Packet) {
    q == Packet(Acknowledgement, Empty, q.messageId, [], [], [], None, [], []) || RepliesToOne(h, peer, q)
  }

  lemma {:induction false} RunIsMatched(h: History, peer: SocketAddr)
    requires IsRun(h, peer)
    ensures Matched(h, peer)
    ensures h != [] ==> forall q :: q in Acks(h[|h| - 1]) ==> MatchedReply(h, peer, q)
    decreases |h|
  {
    if h != [] {
      PrefixIsRun(h, peer);
      RunIsMatched(Prefix(h), peer);
      var note := StepNotes(h[|h| - 1], peer);
      hide IsRun, IsStep;
      MatchStep(h, peer, note);
    }
  }

  lemma MatchStep(h: History, peer: SocketAddr, note: Note)
    requires h != [] && h[|h| - 1].before == Last(Prefix(h)) && Matched(Prefix(h), peer)
    requires NoteOf(h[|h| - 1], peer, note)
    ensures Matched(h, peer)
    ensures forall q :: q in Acks(h[|h| - 1]) ==> MatchedReply(h, peer, q)
  {
    hide Acks, Asked, Produced;
    var x := h[|h| - 1];
    forall t, m | Asked(Prefix(h), peer, t, m) || AcceptsCon(x, peer, t, m)
      ensures Asked(h, peer, t, m)
    {
      ExtendAsked(h, peer, t, m);
    }
    forall q | Produced(Prefix(h), peer, q) || Produces(x, peer, q)
      ensures Produced(h, peer, q)
    {
      ExtendProduced(h, peer, q);
    }
    if note.Answered? && note.ack.Some? { assert Produces(x, peer, note.ack.value); }
    if note.Accepted? && note.packet.messageType.Confirmable? && note.packet.code.Request? {
      assert AcceptsCon(x, peer, note.packet.token, note.packet.messageId);
    }
  }

  lemma AcksAreMatched(h: History, peer: SocketAddr, j: nat, q: Packet)
    requires IsRun(h, peer) && j < |h| && q in Acks(h[j])
    ensures MatchedReply(h[..j + 1], peer, q)
  {
    RunUpTo(h, peer, j + 1);
    hide IsRun, MatchedReply;
    assert h[..j + 1][j] == h[j];
    RunIsMatched(h[..j + 1], peer);
  }

  /** Every Acknowledgement ever sent to a peer carries the MID of a CON received from it before, on the immediate, the
      piggybacked and the replay path, and across session eviction. It is empty, or a response of the server under both
      the token and the MID of one CON request. */
  lemma AcksAreSound(h: History, peer: SocketAddr, j: nat, p: Packet, why: Reason)
    requires IsRun(h, peer) && j < |h| && Sent(p, why) in h[j].effects && p.messageType.Acknowledgement?
    ensures exists i :: 0 <= i <= j && ReceivesCon(h[i], peer, p.messageId)
    ensures MatchedReply(h[..j + 1], peer, p)
  {
    PrefixIsBefore(h, peer, j);
    var g := h[..j + 1];
    assert IsRun(g, peer) by {
      if j + 1 < |h| { PrefixIsBefore(h, peer, j + 1); } else { assert g == h; }
    }
    if why.Copy? {
      EveryExchangeBegan(h[..j], peer);
      CopiesAreRequests(h[..j], h[j], peer, p, why);
    } else {
      RunIsGrounded(g, peer);
      hide IsRun, MatchedReply;
      assert g[|g| - 1] == h[j] && p in Acks(h[j]);
      AcksAreMatched(h, peer, j, p);
      var i :| 0 <= i < |g| && ReceivesCon(g[i], peer, p.messageId);
      assert ReceivesCon(h[i], peer, p.messageId);
    }
  }

  lemma CopiesAreRequests(h: History, x: Transition, peer: SocketAddr, p: Packet, why: Reason)
    requires IsStep(x, peer) && Sent(p, why) in x.effects && why.Copy?
    requires x.before == Last(h) && forall t :: t in LiveOf(Last(h)) ==> BeganIn(h, peer, t, LiveOf(Last(h))[t])
    ensures p.code.Request? && !p.messageType.Acknowledgement?
  {
    var c := StepIsChange(x, peer);
    hide IsStep, TokenBytes;
    var live := LiveOf(x.before);
    assert Tells(live, c, Sent(p, why));
    if c.SweepAll? {
      var t :| t in live && Resends(live[t], c.now) && Sent(p, why) == ResentCopy(live[t]);
      var i :| 0 <= i < |h| && Began(h[i], peer, t, live[t]);
    }
  }

  // ---- Replay fidelity ----

  /** A CON is accepted while its MID is still pending for a request the server has not answered:
      either under another token, or the CON is acknowledged at once. */
  ghost predicate Clashes(x: Transition, peer: SocketAddr) {
    && Receives(x, peer)
    && var p := x.event.arm.packet;
       && p.messageType.Confirmable? && Accepts(x, peer, p.messageId)
       && exists t :: PendingAs(x.before, t, p.messageId) && if p.code.Request? then t != p.token
           else x.event.arm.encodes
  }

  predicate PendingAs(o: Option<Session>, t: Token, m: Mid) { t in Owed(o) && Owed(o)[t] == m }

  /** The server answers each request before its MID is accepted anew. */
  ghost predicate NoClash(h: History, peer: SocketAddr) {
    forall i :: 0 <= i < |h| ==> !Clashes(h[i], peer)
  }

  ghost predicate NoneAccepted(h: History, peer: SocketAddr, m: Mid, i: nat) {
    forall k :: i < k < |h| ==> !Accepts(h[k], peer, m)
  }

  /** ACKs for one MID with no acceptance of that MID in between are the same packet. */
  ghost predicate FaithfulReplies(h: History, peer: SocketAddr) {
    forall i, j, p, q ::
      0 <= i <= j < |h| && p in Acks(h[i]) && q in Acks(h[j]) && p.messageId == q.messageId
      && NoneAccepted(h[..j + 1], peer, p.messageId, i)
      ==> p == q
  }

  /** No MID is pending twice, none is pending while a reply for it is cached, and replies carry their MID. */
  ghost predicate Unanswered(o: Option<Session>) {
    && (forall t, u :: t in Owed(o) && u in Owed(o) && Owed(o)[t] == Owed(o)[u] ==> t == u)
    && (forall t :: t in Owed(o) && Owed(o)[t] in Seen(o) ==> Seen(o)[Owed(o)[t]].cached.None?)
    && (forall m :: m in Seen(o) && Seen(o)[m].cached.Some? ==> Seen(o)[m].cached.value.messageId == m)
  }

  /** Until its MID is accepted again, p is the only ACK that can be sent for it. */
  ghost predicate Conclusive(o: Option<Session>, p: Packet) {
    && (forall t :: !PendingAs(o, t, p.messageId))
    && (p.messageId in Seen(o) ==> Seen(o)[p.messageId].cached == Some(p))
  }

  /** Without a clash, an accepted MID is pending at most under the token it is accepted with. */
  lemma AcceptedIsFree(x: Transition, peer: SocketAddr, note: Note, t: Token)
    requires NoteOf(x, peer, note) && note.Accepted? && !Clashes(x, peer)
        && PendingAs(x.before, t, note.packet.messageId)
    ensures note.ack.None?
    ensures note.packet.messageType.Confirmable? && note.packet.code.Request? ==> t == note.packet.token
  {
    hide Acks;
  }

  lemma StepStaysUnanswered(x: Transition, peer: SocketAddr, note: Note)
    requires NoteOf(x, peer, note) && Unanswered(x.before) && !Clashes(x, peer)
    ensures Unanswered(x.after)
  {
    hide Acks, Clashes;
    if note.Accepted? {
      forall t | PendingAs(x.before, t, note.packet.messageId)
        ensures note.ack.None?
            && (note.packet.messageType.Confirmable? && note.packet.code.Request? ==> t == note.packet.token)
      {
        AcceptedIsFree(x, peer, note, t);
      }
      assert forall t :: t in Owed(x.before) && Owed(x.before)[t] == note.packet.messageId ==>
          PendingAs(x.before, t, note.packet.messageId);
    }
  }

  lemma AckConcludes(x: Transition, peer: SocketAddr, note: Note, p: Packet)
    requires NoteOf(x, peer, note) && Unanswered(x.before) && !Clashes(x, peer) && p in Acks(x)
    ensures Conclusive(x.after, p)
    ensures forall q :: q in Acks(x) ==> p == q
  {
    hide Acks, Clashes;
    assert forall t :: PendingAs(x.after, t, p.messageId) ==> PendingAs(x.before, t, p.messageId);
    if note.Accepted? {
      forall t
        ensures !PendingAs(x.before, t, note.packet.messageId)
      {
        if PendingAs(x.before, t, note.packet.messageId) { AcceptedIsFree(x, peer, note, t); }
      }
    }
  }

  lemma ConclusionStays(x: Transition, peer: SocketAddr, note: Note, p: Packet)
    requires NoteOf(x, peer, note) && Unanswered(x.before) && Conclusive(x.before, p) && !Accepts(x, peer, p.messageId)
    ensures Conclusive(x.after, p)
    ensures forall q :: q in Acks(x) && q.messageId == p.messageId ==> q == p
  {
    hide Acks;
    assert forall t :: PendingAs(x.after, t, p.messageId) ==> PendingAs(x.before, t, p.messageId);
    if note.Answered? { assert PendingAs(x.before, note.token, Owed(x.before)[note.token]); }
  }

  ghost predicate Consistent(h: History, peer: SocketAddr) {
    && Unanswered(Last(h))
    && forall i, p :: 0 <= i < |h| && p in Acks(h[i]) && NoneAccepted(h, peer, p.messageId, i) ==>
        Conclusive(Last(h), p)
  }

  /** In a run without clashes every duplicate CON is answered with the bytes of the first ACK. */
  lemma {:induction false} RepliesAreFaithful(h: History, peer: SocketAddr)
    requires IsRun(h, peer) && NoClash(h, peer)
    ensures Consistent(h, peer) && FaithfulReplies(h, peer)
    decreases |h|
  {
    if h == [] {
      NothingIsFaithful(peer);
    } else {
      hide IsRun, IsStep, Consistent, FaithfulReplies, Clashes, NoteOf;
      PrefixIsRun(h, peer);
      NoEarlierClash(h, peer);
      RepliesAreFaithful(Prefix(h), peer);
      var note := StepNotes(h[|h| - 1], peer);
      FaithStep(h, peer, note);
    }
  }

  lemma NothingIsFaithful(peer: SocketAddr)
    ensures Consistent([], peer) && FaithfulReplies([], peer)
  {
  }

  lemma NoEarlierClash(h: History, peer: SocketAddr)
    requires h != [] && NoClash(h, peer)
    ensures NoClash(Prefix(h), peer) && !Clashes(h[|h| - 1], peer)
  {
    hide Clashes;
    assert forall i :: 0 <= i < |h| - 1 ==> Prefix(h)[i] == h[i];
  }

  lemma FaithStep(h: History, peer: SocketAddr, note: Note)
    requires h != [] && h[|h| - 1].before == Last(Prefix(h)) && NoteOf(h[|h| - 1], peer, note)
        && !Clashes(h[|h| - 1], peer)
    requires Consistent(Prefix(h), peer) && FaithfulReplies(Prefix(h), peer)
    ensures Consistent(h, peer) && FaithfulReplies(h, peer)
  {
    var n := |h| - 1;
    var x := h[n];
    StepStaysUnanswered(x, peer, note);
    hide Acks, Accepts, Clashes, NoteOf, Conclusive, Unanswered;
    forall i, p | 0 <= i < |h| && p in Acks(h[i]) && NoneAccepted(h, peer, p.messageId, i)
      ensures i < n ==> Conclusive(Last(Prefix(h)), p)
      ensures Conclusive(Last(h), p)
      ensures forall q :: q in Acks(x) && q.messageId == p.messageId ==> q == p
    {
      if i < n {
        assert p in Acks(Prefix(h)[i]) && NoneAccepted(Prefix(h), peer, p.messageId, i);
        ConclusionStays(x, peer, note, p);
      } else {
        AckConcludes(x, peer, note, p);
      }
    }
    forall i, j, p, q | 0 <= i <= j < |h| && p in Acks(h[i]) && q in Acks(h[j]) && p.messageId == q.messageId
                        && NoneAccepted(h[..j + 1], peer, p.messageId, i)
      ensures p == q
    {
      if j < n {
        assert Prefix(h)[..j + 1] == h[..j + 1];
        assert p in Acks(Prefix(h)[i]) && q in Acks(Prefix(h)[j]);
      } else {
        assert h[..j + 1] == h;
      }
    }
  }

  function Answering(x: Transition, peer: SocketAddr, t: Token, r: CoapResponse): Transition {
    var e := Event(x.event.now, ServerResponse(peer, t, r, true, Seeds(0, 0)));
    var a := PeerStep(x.after, peer, e);
    Transition(x.after, e, a.session, a.effects)
  }

  lemma AnsweringAcks(x: Transition, peer: SocketAddr, t: Token, r: CoapResponse)
    requires t in Owed(x.after)
    ensures var y := Answering(x, peer, t, r);
      && IsStep(y, peer)
      && ResponsePacket(r, t, Owed(x.after)[t], Acknowledgement) in Acks(y)
      && Owed(y.after) == Owed(x.after) - {t}
      && forall m :: !Accepts(y, peer, m)
  {
    var y := Answering(x, peer, t, r);
    assert Sent(ResponsePacket(r, t, Owed(x.after)[t], Acknowledgement), Piggybacked) in y.effects;
  }

  lemma ExtendRun(h: History, peer: SocketAddr, y: Transition)
    requires IsRun(h, peer) && h != [] && IsStep(y, peer) && y.before == Last(h) && y.event.now == h[|h| - 1].event.now
    ensures IsRun(h + [y], peer)
  {
    hide IsStep;
    var g := h + [y];
    forall i | 0 < i < |g|
      ensures g[i].before == g[i - 1].after
    {
      if i < |h| { assert h[i].before == h[i - 1].after; }
    }
  }

  /** Two different ACKs for MID m, sent at steps n and n + 1 with nothing accepted at n + 1. */
  lemma TwoAcks(g: History, peer: SocketAddr, n: nat, p: Packet, q: Packet)
    requires n + 2 == |g| && p in Acks(g[n]) && q in Acks(g[n + 1]) && p.messageId == q.messageId && p != q
    requires !Accepts(g[n + 1], peer, p.messageId)
    ensures !FaithfulReplies(g, peer)
  {
    hide Acks, Accepts;
    assert g[..n + 1 + 1] == g;
    assert NoneAccepted(g[..n + 1 + 1], peer, p.messageId, n);
  }

  /** From step k on the run consists of responses of the server to the peer. */
  ghost predicate AnswersOnly(g: History, k: nat, peer: SocketAddr) {
    forall i :: k <= i < |g| ==> g[i].event.arm.ServerResponse? && g[i].event.arm.peer == peer
  }

  /** The steps from k on come at the instant of the one before them. */
  ghost predicate AtOnce(g: History, k: nat)
    requires 0 < k
  {
    forall i :: k <= i < |g| ==> g[i].event.now == g[k - 1].event.now
  }

  lemma AnswerNext(h: History, peer: SocketAddr, t: Token, r: CoapResponse) returns (g: History)
    requires IsRun(h, peer) && h != [] && t in Owed(Last(h))
    ensures IsRun(g, peer) && |g| == |h| + 1 && g[..|h|] == h && AnswersOnly(g, |h|, peer) && AtOnce(g, |h|)
    ensures ResponsePacket(r, t, Owed(Last(h))[t], Acknowledgement) in Acks(g[|h|])
    ensures Owed(Last(g)) == Owed(Last(h)) - {t}
    ensures forall m :: !Accepts(g[|h|], peer, m)
  {
    var x := h[|h| - 1];
    var y := Answering(x, peer, t, r);
    AnsweringAcks(x, peer, t, r);
    ExtendRun(h, peer, y);
    g := h + [y];
  }

  lemma TwoPending(h: History, peer: SocketAddr, t: Token, u: Token, m: Mid, r: CoapResponse) returns (g: History)
    requires IsRun(h, peer) && h != [] && PendingAs(Last(h), t, m) && PendingAs(Last(h), u, m) && t != u
    ensures h <= g && AnswersOnly(g, |h|, peer) && AtOnce(g, |h|) && IsRun(g, peer) && !FaithfulReplies(g, peer)
  {
    hide IsRun, Acks, Accepts, FaithfulReplies;
    var f := AnswerNext(h, peer, t, r);
    g := AnswerNext(f, peer, u, r);
    assert g[|h|] == f[|h|];
    TwoAcks(g, peer, |h|, ResponsePacket(r, t, m, Acknowledgement), ResponsePacket(r, u, m, Acknowledgement));
  }

  /** The condition is exact: after a clash the server needs only answer what is pending
      for two different ACKs to go out for one MID. */
  lemma ClashBreaksFidelity(h: History, peer: SocketAddr, r: CoapResponse) returns (g: History)
    requires IsRun(h, peer) && h != [] && Clashes(h[|h| - 1], peer)
    ensures h <= g && AnswersOnly(g, |h|, peer) && AtOnce(g, |h|) && IsRun(g, peer) && !FaithfulReplies(g, peer)
  {
    var x := h[|h| - 1];
    assert IsStep(x, peer);
    hide IsRun, IsStep, Acks, FaithfulReplies;
    var p := x.event.arm.packet;
    var m := p.messageId;
    var t :| PendingAs(x.before, t, m) && if p.code.Request? then t != p.token else x.event.arm.encodes;
    AcceptedOwes(x, peer, t);
    if p.code.Request? {
      g := TwoPending(h, peer, t, p.token, m, r);
    } else {
      ImmediateAck(x, peer);
      g := AnswerNext(h, peer, t, r);
      assert g[|h| - 1] == x;
      TwoAcks(g, peer, |h| - 1, EmptyAckPacket(m), ResponsePacket(r, t, m, Acknowledgement));
    }
  }

  /** g goes on from some point of h with nothing but responses of the server. */
  ghost predicate Continuation(g: History, h: History, peer: SocketAddr) {
    IsRun(g, peer) && exists k :: 0 <= k <= |h| && ContinuesFrom(g, h, k, peer)
  }

  ghost predicate ContinuesFrom(g: History, h: History, k: nat, peer: SocketAddr)
    requires k <= |h|
  {
    h[..k] <= g && AnswersOnly(g, k, peer)
  }

  /** Replies are faithful whenever and whatever the server answers if and only if the run has no clash. */
  lemma FidelityIff(h: History, peer: SocketAddr)
    requires IsRun(h, peer)
    ensures NoClash(h, peer) <==> forall g :: Continuation(g, h, peer) ==> FaithfulReplies(g, peer)
  {
    hide IsRun, FaithfulReplies, Clashes;
    if NoClash(h, peer) {
      forall g | Continuation(g, h, peer)
        ensures FaithfulReplies(g, peer)
      {
        AnswersDoNotClash(g, h, peer);
        RepliesAreFaithful(g, peer);
      }
    } else {
      var i :| 0 <= i < |h| && Clashes(h[i], peer);
      RunUpTo(h, peer, i + 1);
      var g := ClashBreaksFidelity(h[..i + 1], peer, CoapResponse(NotFound, None, []));
      assert ContinuesFrom(g, h, i + 1, peer);
    }
  }

  lemma AnswersDoNotClash(g: History, h: History, peer: SocketAddr)
    requires NoClash(h, peer) && Continuation(g, h, peer)
    ensures NoClash(g, peer)
  {
    var k :| 0 <= k <= |h| && ContinuesFrom(g, h, k, peer);
    forall i | 0 <= i < |g|
      ensures !Clashes(g[i], peer)
    {
      if i < k {
        assert g[i] == h[..k][i] == h[i];
      } else {
        assert g[i].event.arm.ServerResponse?;
      }
    }
  }

  lemma RunUpTo(h: History, peer: SocketAddr, k: nat)
    requires IsRun(h, peer) && k <= |h|
    ensures IsRun(h[..k], peer)
  {
    if k < |h| { PrefixIsBefore(h, peer, k); } else { assert h[..k] == h; }
  }

  lemma AcceptedOwes(x: Transition, peer: SocketAddr, t: Token)
    requires IsStep(x, peer) && Receives(x, peer) && Accepts(x, peer, x.event.arm.packet.messageId)
    requires x.event.arm.packet.messageType.Confirmable? && PendingAs(x.before, t, x.event.arm.packet.messageId)
    ensures PendingAs(x.after, t, x.event.arm.packet.messageId)
    ensures x.event.arm.packet.code.Request? ==>
        PendingAs(x.after, x.event.arm.packet.token, x.event.arm.packet.messageId)
  {
    var note := StepNotes(x, peer);
    hide IsStep, Acks;
  }

  lemma ImmediateAck(x: Transition, peer: SocketAddr)
    requires IsStep(x, peer) && Receives(x, peer) && Accepts(x, peer, x.event.arm.packet.messageId)
    requires x.event.arm.packet.messageType.Confirmable? && !x.event.arm.packet.code.Request? && x.event.arm.encodes
    ensures EmptyAckPacket(x.event.arm.packet.messageId) in Acks(x)
    ensures Owed(x.after) == Owed(x.before)
  {
    hide SendRequest, SendResponse, Sweep;
    assert Sent(EmptyAckPacket(x.event.arm.packet.messageId), Immediate) in x.effects;
  }
}
