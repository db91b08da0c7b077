/** What leaves the stack: every field of requests and responses, and when two requests share a name. */
module Naming {
  import opened Types
  import opened Messages
  import opened Model
  import opened Changes
  import opened Agreement
  import opened Conservation
  import opened Correlation
  import opened Retransmission
  import opened Deduplication

  lemma DigitsOf(n: TokenNumber)
    ensures n == n / 0x100_0000 * 0x100_0000 + n / 0x1_0000 % 256 * 0x1_0000 + n / 256 % 256 * 256 + n % 256
  {
    assert n / 0x1_0000 == 256 * (n / 0x100_0000) + n / 0x1_0000 % 256 && n / 256 == 256 * (n / 0x1_0000) + n / 256 % 256;
  }

  lemma FourBytesValue(a: Byte, b: Byte, c: Byte, d: Byte)
    ensures BigEndian([a, b, c, d]) == a * 0x100_0000 + b * 0x1_0000 + c * 256 + d
  {
    assert [a, b, c, d] == [a] + [b, c, d] && [b, c, d] == [b] + [c, d] && [c, d] == [c] + [d] && [d] == [d] + [];
    BigEndianFirst(a, [b, c, d]);
    BigEndianFirst(b, [c, d]);
    BigEndianFirst(c, [d]);
    BigEndianFirst(d, []);
    PowersOf256();
    hide BigEndian, Pow256;
  }

  /** A token is the 4 bytes of the counter, the most significant first. */
  lemma TokenIsBigEndian(n: TokenNumber)
    ensures |TokenBytes(n)| == 4 && BigEndian(TokenBytes(n)) == n
  {
    DigitsOf(n);
    FourBytesValue(n / 0x100_0000, n / 0x1_0000 % 256, n / 256 % 256, n % 256);
    hide BigEndian;
  }

  lemma PowersOf256()
    ensures Pow256(0) == 1 && Pow256(1) == 256 && Pow256(2) == 0x1_0000 && Pow256(3) == 0x100_0000
    ensures BigEndian([]) == 0
  {
    assert Pow256(3) == 256 * Pow256(2) && Pow256(2) == 256 * Pow256(1);
  }

  // ---- Requests ----

  /** The session in which a request of this step is named. */
  function NamedIn(x: Transition): Session
    requires x.event.arm.ClientRequest?
  {
    Opened(x.before, x.event.arm.seeds)
  }

  /** A session that is there names with its own allocators, a new one with those of its random start. */
  lemma NamedInIs(x: Transition)
    requires x.event.arm.ClientRequest?
    ensures var s := NamedIn(x);
      && s.nextMid == (if x.before.Some? then x.before.value.nextMid else x.event.arm.seeds.mid)
      && s.nextToken == (if x.before.Some? then x.before.value.nextToken else x.event.arm.seeds.token)
  {
  }

  /** q is all of the request of this step, under the allocators' token and MID. */
  predicate IsRequestOf(q: Packet, x: Transition) {
    && x.event.arm.ClientRequest?
    && |q.token| == 4 && BigEndian(q.token) == NamedIn(x).nextToken
    && CarriesRequest(q, x.event.arm.request, q.token, NamedIn(x).nextMid)
  }

  lemma OpenedPacketIs(x: Transition, peer: SocketAddr, c: Change)
    requires c.Open? && Caused(x, peer, c)
    ensures IsRequestOf(c.bytes, x) && c.bytes.token == c.token
  {
    var s := Opened(x.before, x.event.arm.seeds);
    CarriesOf(x.event.arm.request, TokenBytes(s.nextToken), s.nextMid);
    TokenIsBigEndian(s.nextToken);
    hide TokenBytes, RequestPacket;
  }

  /** The first copy of a request: whose it is, that it encoded, and every field of it. */
  lemma FirstCopyIs(x: Transition, peer: SocketAddr, c: Caller, q: Packet)
    requires IsStep(x, peer) && Sent(q, Copy(c, 0)) in x.effects
    ensures x.event.arm.ClientRequest? && x.event.arm.peer == peer && x.event.arm.caller == c && x.event.arm.encodes
    ensures IsRequestOf(q, x)
    ensures x.before.Some? ==> q.messageId == x.before.value.nextMid && BigEndian(q.token) == x.before.value.nextToken
    ensures x.before.None? ==> q.messageId == x.event.arm.seeds.mid && BigEndian(q.token) == x.event.arm.seeds.token
  {
    var change := StepIsChange(x, peer);
    hide IsStep, TokenBytes, RequestPacket;
    assert Tells(LiveOf(x.before), change, Sent(q, Copy(c, 0)));
    if change.Open? {
      OpenedPacketIs(x, peer, change);
      NamedInIs(x);
    }
  }

  /** Every encoded request leaves so. */
  lemma EncodedLeaves(x: Transition, peer: SocketAddr) returns (q: Packet)
    requires IsStep(x, peer) && x.event.arm.ClientRequest? && x.event.arm.peer == peer && x.event.arm.encodes
    ensures Sent(q, Copy(x.event.arm.caller, 0)) in x.effects && IsRequestOf(q, x)
  {
    var change := StepIsChange(x, peer);
    hide IsStep, TokenBytes, RequestPacket;
    OpenedPacketIs(x, peer, change);
    q := change.bytes;
    assert Tells(LiveOf(x.before), change, Sent(q, Copy(x.event.arm.caller, 0)));
  }

  /** Every copy ever sent is all of a request of its caller, under the names it was given. */
  lemma CopiesCarryRequest(h: History, peer: SocketAddr, i: nat, c: Caller, k: nat, q: Packet) returns (o: nat)
    requires IsRun(h, peer) && CallersDistinct(h) && i < |h| && Sent(q, Copy(c, k)) in h[i].effects
    ensures o < |h| && TakenAt(h[o], peer, c) && IsRequestOf(q, h[o])
  {
    CopiesAreFaithful(h, peer, c);
    assert Sent(q, Copy(c, k)) in Copies(h[i], c);
    hide CallersDistinct, PacketOf;
    assert IsOriginal(h, peer, c, q);
    o :| 0 <= o < |h| && Originates(h[o], peer, c) && PacketOf(h[o]) == q;
    assert IsStep(h[o], peer);
    FirstCopyIs(h[o], peer, c, q);
  }

  /** Whatever copy of a request, CON or NON, comes first to a stack that does not remember its MID is dispatched. */
  lemma RequestIsDispatched(here: History, receiver: SocketAddr, i: nat, c: Caller, k: nat, y: Transition,
          sender: SocketAddr)
    requires IsRun(here, receiver) && CallersDistinct(here) && i < |here|
    requires IsStep(y, sender) && Receives(y, sender) && Sent(y.event.arm.packet, Copy(c, k)) in here[i].effects
    requires y.event.arm.packet.messageId !in Seen(y.before)
    ensures Dispatched(y.event.arm.packet) in y.effects
  {
    var o := CopiesCarryRequest(here, receiver, i, c, k, y.event.arm.packet);
    RequestIsAccepted(y, sender);
  }

  lemma RequestIsAccepted(y: Transition, sender: SocketAddr)
    requires IsStep(y, sender) && Receives(y, sender) && y.event.arm.packet.code.Request?
    requires y.event.arm.packet.messageType.Confirmable? || y.event.arm.packet.messageType.NonConfirmable?
    requires y.event.arm.packet.messageId !in Seen(y.before)
    ensures Dispatched(y.event.arm.packet) in y.effects
  {
    hide SendRequest, SendResponse, Sweep, ReceiveAck, HandleRst, Replay;
  }

  // ---- When two requests share a name ----

  /** MIDs spent for the peer from step i up to step j. */
  function MidsSpent(h: History, peer: SocketAddr, i: nat, j: nat): nat
    requires i <= j <= |h|
  {
    if i == j then 0 else MidsSpent(h, peer, i, j - 1) + if SpendsMid(h[j - 1], peer) then 1 else 0
  }

  function TokensSpent(h: History, peer: SocketAddr, i: nat, j: nat): nat
    requires i <= j <= |h|
  {
    if i == j then 0 else TokensSpent(h, peer, i, j - 1) + if SpendsToken(h[j - 1], peer) then 1 else 0
  }

  /** The session of step i is still there at step j. */
  ghost predicate SessionLives(h: History, i: nat, j: nat)
    requires j < |h|
  {
    forall k :: i < k <= j ==> h[k].before.Some?
  }

  lemma {:induction false} NamesAfter(h: History, peer: SocketAddr, i: nat, j: nat)
    requires IsRun(h, peer) && i < j < |h| && SpendsToken(h[i], peer) && SessionLives(h, i, j)
    ensures h[j].before.value.nextMid == (NamedIn(h[i]).nextMid + MidsSpent(h, peer, i, j)) % 0x1_0000
    ensures h[j].before.value.nextToken == (NamedIn(h[i]).nextToken + TokensSpent(h, peer, i, j)) % 0x1_0000_0000
    decreases j
  {
    assert IsStep(h[j - 1], peer) && h[j].before == h[j - 1].after;
    var m, t := NamedIn(h[i]).nextMid, NamedIn(h[i]).nextToken;
    if j == i + 1 {
      hide IsRun, IsStep;
      StartsAllocators(h[i], peer);
      assert MidsSpent(h, peer, i, i) == 0 && TokensSpent(h, peer, i, i) == 0;
      CountedOn(m, t, 0, 0);
    } else {
      assert SessionLives(h, i, j - 1);
      NamesAfter(h, peer, i, j - 1);
      hide IsRun, IsStep, SpendsMid, SpendsToken, NextMid, NextToken;
      AllocatorsAdvance(h[j - 1], peer);
      CountedOn(m, t, MidsSpent(h, peer, i, j - 1), TokensSpent(h, peer, i, j - 1));
    }
  }

  /** Two requests of one session have the same MID exactly if a whole multiple of 2^16 MIDs was spent from the first to
      the second, and the same token exactly if a whole multiple of 2^32 tokens was: CON or NON makes no difference. */
  lemma SameNameIff(h: History, peer: SocketAddr, i: nat, j: nat, c: Caller, d: Caller, p: Packet, q: Packet)
    requires IsRun(h, peer) && i < j < |h| && SessionLives(h, i, j)
    requires Sent(p, Copy(c, 0)) in h[i].effects && Sent(q, Copy(d, 0)) in h[j].effects
    ensures p.messageId == q.messageId <==> MidsSpent(h, peer, i, j) % 0x1_0000 == 0
    ensures p.token == q.token <==> TokensSpent(h, peer, i, j) % 0x1_0000_0000 == 0
  {
    assert IsStep(h[i], peer) && IsStep(h[j], peer);
    hide IsStep, IsRun, MidsSpent, TokensSpent, BigEndian;
    FirstCopyIs(h[i], peer, c, p);
    FirstCopyIs(h[j], peer, d, q);
    NamesAfter(h, peer, i, j);
    CountedOn(NamedIn(h[i]).nextMid, NamedIn(h[i]).nextToken, MidsSpent(h, peer, i, j), TokensSpent(h, peer, i, j));
    if BigEndian(p.token) == BigEndian(q.token) { SameValueSameBytes(p.token, q.token); }
  }

  lemma {:induction false} SameValueSameBytes(p: Bytes, q: Bytes)
    requires |p| == |q| && BigEndian(p) == BigEndian(q)
    ensures p == q
    decreases |p|
  {
    if p != [] {
      var n := |p| - 1;
      SameValueSameBytes(p[..n], q[..n]);
      assert p == p[..n] + [p[n]] && q == q[..n] + [q[n]];
    }
  }

  lemma CountedOn(m: Mid, t: TokenNumber, n: nat, k: nat)
    ensures NextMid((m + n) % MID_SPACE) == (m + (n + 1)) % MID_SPACE
    ensures NextToken((t + k) % TOKEN_SPACE) == (t + (k + 1)) % TOKEN_SPACE
    ensures (m + n) % MID_SPACE == m <==> n % MID_SPACE == 0
    ensures (t + k) % TOKEN_SPACE == t <==> k % TOKEN_SPACE == 0
  {
  }

  // ---- Responses ----

  /** What the server's response leaves as: an ACK with the MID of its CON request while that is pending, else a NON
      with the allocator's MID; with its token and all of the response. */
  lemma ResponseLeavesAs(x: Transition, peer: SocketAddr, q: Packet, why: Reason)
    requires IsStep(x, peer) && x.event.arm.ServerResponse? && x.event.arm.peer == peer
    ensures Sent(q, why) in x.effects <==>
      && x.event.arm.encodes
      && var t, owed := x.event.arm.token, Owed(x.before);
         if t in owed then why == Piggybacked && CarriesResponse(q, x.event.arm.response, t, owed[t], Acknowledgement)
         else
           && why == Separate
           && CarriesResponse(q, x.event.arm.response, t, Opened(x.before, x.event.arm.seeds).nextMid, NonConfirmable)
  {
    hide TokenBytes, SendRequest, Receive, Sweep;
  }
}
