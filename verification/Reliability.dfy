/** Allocators and the retransmission state of one CON exchange, updated in place. */
module Reliability {
  import opened Types
  import opened Model

  /** Hands out MIDs 0 to 2^16 - 1 in turn, from anywhere on. */
  class MessageIdAllocator {
    var next: Mid

    constructor (start: Mid)
      ensures next == start
    {
      next := start;
    }

    method Allocate() returns (mid: Mid)
      modifies this
      ensures mid == old(next) && next == NextMid(mid)
    {
      mid := next;
      next := if next == MID_SPACE - 1 then 0 else next + 1;
    }
  }

  /** Per-peer token allocator: a wrapping 32-bit counter, handed out as 4 big-endian bytes. */
  class TokenAllocator {
    var next: TokenNumber

    constructor (start: TokenNumber)
      ensures next == start
    {
      next := start;
    }

    method Allocate() returns (token: Token)
      modifies this
      ensures token == TokenBytes(old(next)) && next == NextToken(old(next))
    {
      token := [next / 0x100_0000, next / 0x1_0000 % 256, next / 256 % 256, next % 256];
      next := if next == TOKEN_SPACE - 1 then 0 else next + 1;
    }
  }

  /** The backoff of one CON request: what to send, how often it was sent again, when it is due. */
  class RetransmitState {
    const packetBytes: Packet
    var retransmitCount: nat
    var currentTimeout: Millis
    var nextRetransmit: Millis

    function Abs(): Backoff
      reads this
    {
      Backoff(packetBytes, retransmitCount, currentTimeout, nextRetransmit)
    }

    constructor (bytes: Packet, initialTimeout: InitialTimeout, now: Millis)
      ensures Abs() == NewBackoff(bytes, initialTimeout, now)
    {
      packetBytes := bytes;
      retransmitCount := 0;
      currentTimeout := initialTimeout;
      nextRetransmit := now + initialTimeout;
    }

    /** Count one more retransmission and double the wait; refuse, changing nothing, after MAX_RETRANSMIT. */
    method Advance(now: Millis) returns (again: bool)
      modifies this
      ensures again <==> old(retransmitCount) < 4
      ensures Abs() == if again then Advanced(old(Abs()), now) else old(Abs())
    {
      if retransmitCount >= MAX_RETRANSMIT {
        return false;
      }
      retransmitCount := retransmitCount + 1;
      currentTimeout := currentTimeout * 2;
      nextRetransmit := now + currentTimeout;
      return true;
    }

    predicate IsDue(now: Millis)
      reads this
    {
      now >= nextRetransmit
    }
  }
}
