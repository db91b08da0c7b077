/** A request waiting for its response. */
module Exchanges {
  import opened Types
  import opened Model
  import opened Reliability

  class Exchange {
    const responseTx: Caller
    const messageId: Option<Mid>
    var retransmit: RetransmitState?
    const expiresAt: Option<Millis>

    function Abs(): Waiting
      reads this, retransmit
    {
      Waiting(responseTx, messageId, if retransmit == null then None else Some(retransmit.Abs()), expiresAt)
    }

    /** A CON request has a MID and is sent again until it is acknowledged. */
    constructor NewCon(responseTx: Caller, messageId: Mid, bytes: Packet, initialTimeout: InitialTimeout, now: Millis)
      ensures Abs() == Model.NewCon(responseTx, messageId, bytes, initialTimeout, now)
      ensures fresh(this) && fresh(retransmit)
    {
      this.responseTx := responseTx;
      this.messageId := Some(messageId);
      this.expiresAt := None;
      var state := new RetransmitState(bytes, initialTimeout, now);
      this.retransmit := state;
    }

    /** A NON request is sent once and waits NON_LIFETIME. */
    constructor NewNon(responseTx: Caller, now: Millis)
      ensures Abs() == Model.NewNon(responseTx, now)
      ensures fresh(this) && retransmit == null
    {
      this.responseTx := responseTx;
      this.messageId := None;
      this.retransmit := null;
      this.expiresAt := Some(now + NON_LIFETIME);
    }

    /** From here on only a response by token can end the exchange. */
    method CancelRetransmission()
      modifies this
      ensures Abs() == old(Abs()).(backoff := None) && retransmit == null
    {
      retransmit := null;
    }

    predicate NeedsRetransmit(now: Millis)
      reads this, retransmit
      ensures NeedsRetransmit(now) == Due(Abs(), now)
    {
      retransmit != null && retransmit.IsDue(now)
    }

    /** The packet to send once more, or None when there is nothing left to send. */
    method AdvanceRetransmit(now: Millis) returns (bytes: Option<Packet>)
      modifies retransmit
      ensures bytes == if old(Abs()).backoff.Some? && old(Abs()).backoff.value.count < MAX_RETRANSMIT
                       then Some(old(Abs()).backoff.value.bytes) else None
      ensures Abs() == if bytes.Some? then old(Abs()).(backoff := Some(Advanced(old(Abs()).backoff.value, now)))
          else old(Abs())
    {
      if retransmit == null {
        return None;
      }
      var again := retransmit.Advance(now);
      return if again then Some(retransmit.packetBytes) else None;
    }

    predicate IsExpired(now: Millis) { expiresAt.Some? && now >= expiresAt.value }

    /** One look at the exchange during a sweep: send it again, give it up, or leave it. */
    method Poll(now: Millis) returns (again: Option<Packet>, expired: bool)
      modifies retransmit
      ensures Abs() == Swept(old(Abs()), now)
      ensures again == if Resends(old(Abs()), now) then Some(old(Abs()).backoff.value.bytes) else None
      ensures expired <==> GivenUp(old(Abs()), now)
      ensures again.Some? ==> Sent(again.value, Copy(responseTx, Count())) == ResentCopy(old(Abs()))
    {
      if NeedsRetransmit(now) {
        again := AdvanceRetransmit(now);
        expired := again.None?;
      } else {
        again, expired := None, IsExpired(now);
      }
    }

    function Count(): nat
      reads this, retransmit
      ensures Count() == RetransmitCount(Abs())
    {
      if retransmit == null then 0 else retransmit.retransmitCount
    }

    /** The retransmission deadline if there is one, else the expiry deadline. */
    function SoonestDeadline(): Option<Millis>
      reads this, retransmit
      ensures SoonestDeadline() == Deadline(Abs())
    {
      if retransmit != null then Some(retransmit.nextRetransmit) else expiresAt
    }
  }
}
