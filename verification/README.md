# A verified model of coapable's message layer

coapable is a CoAP (RFC 7252) client and server library. Its core is an event loop that owns one session per peer. A
session holds the outstanding requests, an index from message IDs (MIDs) to their tokens, a deduplication table for
inbound messages, the MIDs of inbound confirmable requests whose replies can still be piggybacked, and two wrapping
allocators. This project models that loop, the trie that routes requests on the server side, and the mapping between
requests, responses and packets, and proves what they promise.

`dafny verify dfyconfig.toml` checks the whole project.

## How it is built

There are two layers.

*The program, in its own form.* `Reliability`, `Exchanges`, `Sessions`, `CoapStacks`, `EventLoop` and `RouterTrie` are
classes and loops that update tables, counters and trie nodes in place, one method per method or `select!` arm of the
source. Every one of them is proved against a function of its inputs and of the old state: `Abs()` is the value an
object stands for, and each `ensures` gives the whole new value and exactly what is sent, dispatched or settled.

*The state machine on values.* `Model` holds those functions: `Receive`, `SendRequest`, `SendResponse`, `Sweep` for
one session, `PeerStep` for one peer whose session is created on demand and evicted when idle, `StackStep` for all
peers. A run is a sequence of such steps under a clock that never goes back, from a stack without sessions.
A run of the loop is one in which, besides, each timer fires no sooner than the instant the loop set it to
(`EventLoop.IsLoopRun`). `EventLoop.Loop` proves that the loop goes through such a run and puts out exactly its effects,
each once; `EventLoop.LoopRunsAreTraces` that every such run is the loop's own for the same events; and
`Model.ProjectionIsRun` that a run of the stack is a run of every peer. All results below are about every run; nothing
bounds its length, the number of peers or the inputs.

How the source's notions appear:

- Time is a number of milliseconds. The initial ACK timeout is any number from 2000 to 3000, the allocators start
  anywhere, and both are part of the event.
- A datagram is its packet. Encoding is injective and may fail; whether it fails is part of the event.
- A one-shot response sender is a number, the *caller*. Every request has its own (`CallersDistinct`).
- Effects are `Sent` with a reason (copy number k of a caller's request, immediate, piggybacked, replayed or separate),
  `Dispatched` to the server, and `Settled` with an outcome: a response, Reset, Timeout with its count, not encodable,
  or displaced by a later request that was given the same token.
- In the runs of the model the timers may fire at any time, so that they include all runs of the loop and the safety
  results hold a fortiori. Where firing times matter they are assumptions (`Punctual`: a sweep comes at most d after the
  deadlines it handles; `Prompt`: no step of any kind finds a deadline more than d past) or part of the statement
  (`IsLoopRun`, and `Quiescence.Fires`).

## The results

- **End to end** (`EndToEnd`): two stacks joined by a network that loses, duplicates, reorders and delays by at most
  100 s. Every request is dispatched to the peer's server at most once, as long as the client's sweeps are less than
  25.5 s late. No assumption on the reuse of MIDs is needed: copies of a request are told apart from other messages
  by where they came from, and if a reused MID suppresses one, that only lowers the count.
- **Index agreement** (`Agreement`): within the allocation window the MID index is exactly the inverse of the MIDs of
  the un-acknowledged CON exchanges, after every step of every run.
- **Conservation** (`Conservation`): every request taken is pending or has ended, never both, and ends once with one
  outcome, whatever sessions come and go.
- **Refinement** (`Refinement`): within the window a peer cannot be told apart from an idealised one that is never
  evicted, keeps no index and may name its requests with any token and MID not in use.
- **Correlation** (`Correlation`): within the window whatever ends a request answers the packet that request was sent
  as; and the packets that end a live request are characterised exactly.
- **Retransmission and timing** (`Retransmission`, `Timing`): one to five identical copies, none after the request has
  ended or was acknowledged; copy k leaves (2^k - 1) initial timeouts after the first, Timeout comes after 31 of them;
  with sweeps at most d late these are upper bounds too, up to 4d and 5d. With every deadline met within d, a request
  that still waits after 93 s + 5d (CON) or 145 s + d (NON) is a CON that is not sent again any more, within the window
  one whose empty ACK has arrived.
- **Deduplication** (`Deduplication`, `Forgetting`): duplicates change nothing; deliveries of one MID are 247 s apart;
  every ACK answers a CON, by token and MID; replies to duplicates are identical to the first; a MID is remembered
  exactly from its acceptance to the first sweep 247 s later.
- **Attribution** (`Attribution`): between two connected stacks, whatever completes a caller is the server's answer to some
  request of the client, and to the caller's own exactly when it carries that request's token.
- **Quiescence** (`Quiescence`): the timer's deadline is the least one, and with no other input it stops after at most
  five firings per CON and one per NON exchange.
- **Routing** (`Routes`, `RouterTrie`, `Dispatching`): the trie looks up what narrowing the plain list of registrations
  does; and a request is answered by the last registration that gave a handler for its method, among those of the
  pattern its path ends at, with the segments in the places of that pattern's parameters; or by NotFound or
  MethodNotAllowed, each in exactly its own case.
- **Messages** (`Messages`, `Paths`, `Naming`): round trips; every field of each request and response that leaves; two
  requests of a session share a MID or token exactly when a whole multiple of 2^16 or 2^32 was spent from one to the
  other; and whichever copy of a request reaches a stack that does not remember its MID is dispatched.

The *allocation window* says that fewer than 2^32 tokens are allocated for a peer while one of its exchanges is live, and
fewer than 2^16 MIDs while one with a MID is. The wrapping counters and overwriting tables need it; `CollisionIff` shows
that nothing else makes two names meet.

Where a natural claim is false of the code, the exact condition under which it holds is proved instead, and a run of the
loop in which it fails (in `Witnesses`, whose `PlaysOut` makes each a run of the whole loop, and in `Crossing`; the last
is in `Routes`). In these runs no timer is kept waiting, names are spent on ordinary requests that come and go, and the
server answers only what it was asked:

| claim | holds exactly when | fails in |
|---|---|---|
| a new request keeps the MID index exact | its token and its MID hit the same un-acknowledged exchanges (`RequestKeepsIndexIff`) | `RegistrationBreaksIndex` |
| completing an exchange keeps the MID index exact | it is un-acknowledged, or its MID is not indexed again (`CompletionKeepsIndexIff`) | `CompletionBreaksIndex` |
| a new token or MID is unused | no live exchange is a whole multiple of 2^32 tokens or 2^16 MIDs old (`CollisionIff`) | `RegistrationBreaksIndex` |
| no request is displaced | no request is encoded while one is a whole multiple of 2^32 tokens old (`DisplacedIff`) | `RequestIsDisplaced` |
| a packet that answers a live request ends it | in an ACK or RST, the index leads from its MID to the request, so within the window until the request's empty ACK comes; in a CON or NON, its MID is not remembered (`RequestEndsIff`, `RepliesEndByMidIff`) | `LateAckIsIgnored`, `CompletionBreaksIndex`, `RepeatedMidIsIgnored` |
| the response a caller gets is the server's answer to its own request | it carries the request's token, which the client does not compare for an ACK (`CompletionIsOwnIff`); always, if no other CON request went out under its MID (`UnsharedMidIsOwn`) | `ReusedMidGetsAnothersResponse` |
| a MID is forgotten 247 s after it was accepted | a sweep comes then (`RememberedIff`); never, if the stack sends no requests of its own (`ServersNeverForget`) | `ReusedMidGetsOldReply` |
| whatever the server answers and whenever, every ACK for one accepted MID is the same | no CON is accepted while its MID is still owed a reply, under another token if it is a request (`FidelityIff`) | `RepliesGetMixedUp` |
| a path that fits a route reaches it | no segment in the place of one of its parameters is offered literally by a route that agrees with it so far (`FoundIff`) | `LookupDoesNotBacktrack` |

Two more facts shape the statements. A CON exchange whose empty ACK has arrived has no deadline any more and waits for
ever, so quiescence leaves exactly those (`Patient`). A piggybacked response is matched by its MID alone; its token is
not looked at. The comment on `AckResult::Unknown` says that the MID was not recognised, and the code also returns it,
having dropped the index entry, for a recognised MID with any other code; the model follows the code.

The set `known` of Content-Format codes that the library can represent is a parameter of the message mapping. An Accept
code survives a request's packet exactly when it is in that set and fits 16 bits (`RequestRoundTrip`); which codes there
are is up to coap-lite, whose table is not part of this model.

## Model

| member | source | states |
|---|---|---|
| Reliability.MessageIdAllocator.Allocate | coapable/src/transport/reliability.rs:38-42 | hands out the counter and moves it on by one modulo 2^16 |
| Reliability.TokenAllocator.Allocate | coapable/src/transport/reliability.rs:58-62 | hands out the counter as 4 big-endian bytes and moves it on by one modulo 2^32 |
| Reliability.RetransmitState.constructor | coapable/src/transport/reliability.rs:78-86 | no retransmission yet, the next one due an initial timeout from now |
| Reliability.RetransmitState.Advance | coapable/src/transport/reliability.rs:89-97 | true and one more retransmission with the wait doubled from now, or false and nothing changed once 4 are spent |
| Exchanges.Exchange.NewCon | coapable/src/transport/exchange.rs:19-31 | a CON exchange has its MID, a retransmission state and no expiry |
| Exchanges.Exchange.NewNon | coapable/src/transport/exchange.rs:34-44 | a NON exchange has no MID, no retransmission and expires 145 s from now |
| Exchanges.Exchange.CancelRetransmission | coapable/src/transport/exchange.rs:52-54 | drops the retransmission state and nothing else |
| Exchanges.Exchange.AdvanceRetransmit | coapable/src/transport/exchange.rs:63-70 | the packet to send again and an advanced backoff, or None and no change without a state or with 4 spent |
| Exchanges.Exchange.Poll | coapable/src/transport/session.rs:179-188 | during a sweep an exchange is sent again exactly when due with retransmissions left, and given up exactly when due without or past its expiry |
| Exchanges.Exchange.Count | coapable/src/transport/exchange.rs:88-93 | the number of retransmissions so far, 0 without a retransmission state |
| Exchanges.Exchange.SoonestDeadline | coapable/src/transport/session.rs:213-213 | the retransmission deadline if there is one, else the expiry |
| Sessions.PeerSession.constructor | coapable/src/transport/session.rs:37-47 | empty tables and allocators at their random starts |
| Sessions.PeerSession.IsIdle | coapable/src/transport/session.rs:54-59 | true exactly when all four tables are empty |
| Sessions.PeerSession.InsertExchange | coapable/src/transport/session.rs:72-74 | registers under the token; whoever was there before loses its sender |
| Sessions.PeerSession.InsertConExchange | coapable/src/transport/session.rs:77-80 | registers under token and MID alike |
| Sessions.PeerSession.CompleteExchange | coapable/src/transport/session.rs:84-95 | removes the exchange under the token with its index entry and settles its caller with the response; otherwise changes nothing |
| Sessions.PeerSession.HandleAck | coapable/src/transport/session.rs:98-118 | consumes the index entry of the MID; an empty ACK stops the retransmission of the exchange it names, a response names the token to complete |
| Sessions.PeerSession.HandleRst | coapable/src/transport/session.rs:121-129 | removes the exchange the MID names and settles its caller with Reset |
| Sessions.PeerSession.RecordInboundMid | coapable/src/transport/session.rs:137-145 | a new dedup entry without a reply |
| Sessions.PeerSession.CacheResponseForMid | coapable/src/transport/session.rs:148-152 | stores the reply if and only if the entry is still there |
| Sessions.PeerSession.TakeInboundConMid | coapable/src/transport/session.rs:169-171 | yields the pending MID of the token and removes it |
| Sessions.PeerSession.CollectRetransmissions | coapable/src/transport/session.rs:175-201 | both passes together are the sweep; every due exchange is sent again exactly once, in whatever order the table yields them |
| Sessions.PeerSession.AdvanceAll | coapable/src/transport/session.rs:179-188 | the first pass lists exactly the exchanges to give up, each once, and sends exactly those to send again, each once |
| Sessions.PeerSession.FailAll | coapable/src/transport/session.rs:190-198 | the second pass fails the listed exchanges one after the other |
| Sessions.FailingRemoves | coapable/src/transport/session.rs:190-198 | failing a list of distinct exchanges removes them and their MIDs, settles each with its own count, and touches nothing else |
| Sessions.SweepTellsOnce | coapable/src/transport/session.rs:175-201 | while callers are distinct a sweep sends nothing twice and tells no caller anything twice |
| Sessions.PassesAreSweep | coapable/src/transport/session.rs:175-201 | advancing and then failing, one at a time, equals the simultaneous sweep of all exchanges |
| Sessions.PeerSession.EvictStaleDedup | coapable/src/transport/session.rs:204-207 | keeps exactly the entries younger than 247 s |
| Sessions.PeerSession.NextRetransmitDeadline | coapable/src/transport/session.rs:210-215 | the least deadline of all exchanges, None exactly when there is none, for any iteration order |
| CoapStacks.HandleMessage | coapable/src/transport/stack.rs:134-196 | a CON or NON: a duplicate at most gets its cached reply, a first copy is noted, acknowledged and delivered |
| CoapStacks.HandleAcknowledgement | coapable/src/transport/stack.rs:197-216 | an ACK cancels, completes or is ignored |
| CoapStacks.HandleRequest | coapable/src/transport/stack.rs:232-260 | token and MID are spent even if encoding fails; otherwise the exchange is registered and copy 0 sent |
| CoapStacks.HandleResponse | coapable/src/transport/stack.rs:278-292 | piggybacked and cached if its request was CON, else a separate NON message with a fresh MID |
| CoapStacks.HandleTimer | coapable/src/transport/stack.rs:302-309 | the sweep of one session and the purge of its dedup table; nothing is sent or told twice |
| CoapStacks.CoapStack.constructor | coapable/src/transport/stack.rs:94-97 | no sessions, the first cleanup 30 s from now |
| CoapStacks.CoapStack.SessionFor | coapable/src/transport/stack.rs:129-131 | the peer's session, created on first use with no other session touched |
| CoapStacks.CoapStack.OnPacket | coapable/src/transport/stack.rs:117-221 | the inbound arm is the model's step for that peer, for unparseable bytes nothing |
| CoapStacks.CoapStack.OnClientRequest | coapable/src/transport/stack.rs:224-266 | the outbound request arm is the model's step |
| CoapStacks.CoapStack.OnServerResponse | coapable/src/transport/stack.rs:270-296 | the outbound response arm is the model's step |
| CoapStacks.CoapStack.OnRetransmissionTimer | coapable/src/transport/stack.rs:299-313 | the retransmission arm sweeps every session once, in any order, and puts out each copy and each timeout once |
| CoapStacks.CoapStack.OnCleanupTimer | coapable/src/transport/stack.rs:316-319 | the cleanup arm keeps exactly the sessions that are not idle |
| CoapStacks.CoapStack.NextDeadline | coapable/src/transport/stack.rs:101-104 | the least deadline over all live exchanges of all sessions |
| EventLoop.DeadlineDecides | coapable/src/transport/stack.rs:101-111 | some deadline has passed exactly when the least one has |
| EventLoop.IsReady | coapable/src/transport/stack.rs:101-113 | the retransmission arm is ready exactly when a live exchange's deadline has passed, the cleanup arm when its instant has, input always |
| EventLoop.TakeArm | coapable/src/transport/stack.rs:115-320 | each arm takes the object from the value of the old state to that of the model's step, and puts out exactly its effects, each once while callers are distinct |
| EventLoop.Loop | coapable/src/transport/stack.rs:93-322 | offered any events, the loop takes the arms that are ready, goes through a run of the model and puts out exactly its effects, nothing twice |
| EventLoop.TraceIsLoopRun | coapable/src/transport/stack.rs:99-321 | taking the ready arms in turn is a run of the model in which every arm was ready |
| EventLoop.LoopRunsAreTraces | coapable/src/transport/stack.rs:99-321 | every run of the model in which every arm was ready is the loop's own trace for its events |
| Model.StackStepProjects | coapable/src/transport/stack.rs:115-320 | what a step does to one peer depends on that peer alone |
| Model.ProjectionIsRun | coapable/src/transport/stack.rs:99-321 | a run of the stack is, for every peer, a run of that peer with exactly its effects |
| Changes.StepIsChange | coapable/src/transport/stack.rs:115-320 | every step does one of six things to a peer's live exchanges and tells their callers exactly what that entails |
| Agreement.StepKeepsAgreement | coapable/src/transport/session.rs:77-129 | every step keeps the index exact and live MIDs distinct, given fresh names for a new request |
| Agreement.RequestKeepsIndexIff | coapable/src/transport/session.rs:77-80 | a registration keeps the index exact if and only if its token and MID hit the same un-acknowledged exchanges |
| Agreement.CompletionKeepsIndexIff | coapable/src/transport/session.rs:84-95 | a completion keeps the index exact if and only if the exchange is un-acknowledged or its MID is not indexed again |
| Agreement.TokenBytesInjective | coapable/src/transport/reliability.rs:59-59 | different counters give different tokens |
| Agreement.RunIsAged | coapable/src/transport/reliability.rs:38-62 | every live exchange's token and MID are the allocator values of as many allocations ago as its age |
| Agreement.CollisionIff | coapable/src/transport/reliability.rs:38-62 | the next token or MID is in use by an exchange exactly when its age is a whole multiple of 2^32 or 2^16 |
| Agreement.WindowGivesFreshNames | coapable/src/transport/stack.rs:232-233 | within the window the allocators never hand out a name in use |
| Agreement.IndexAgreement | coapable/src/transport/session.rs:77-129 | in every run within the window the MID index is exact before and after every step |
| Agreement.RunIsShaped | coapable/src/transport/exchange.rs:19-44 | in every run a packet kept for retransmission carries its exchange's own token and MID, a CON exchange has a MID and no expiry, a NON exchange the reverse |
| Conservation.StepConserves | coapable/src/transport/stack.rs:224-319 | in one step a request stays pending or ends with one outcome, and nothing else becomes pending or ends |
| Conservation.RequestsAreConserved | coapable/src/transport/stack.rs:224-319 | in every run of a peer, requests taken are the disjoint union of pending and ended ones, and each ends once |
| Conservation.StackConservesRequests | coapable/src/transport/stack.rs:224-319 | the same over every run of the whole stack; a request is never pending or settled with another peer |
| Conservation.NothingIsDisplaced | coapable/src/transport/session.rs:72-80 | within the window no request is lost to a registration under its token |
| Conservation.DisplacedIff | coapable/src/transport/session.rs:72-80 | a request displaces exactly the one that is a whole multiple of 2^32 token allocations old |
| Refinement.StepRefines | coapable/src/transport/session.rs:84-129 | one step of a session with an exact index and fresh names is a step of the ideal peer with the same effects |
| Refinement.SessionsRefineIdealPeer | coapable/src/transport/stack.rs:115-320 | every run of a peer within the window is a run of the ideal peer |
| Refinement.StackRefinesIdealPeers | coapable/src/transport/stack.rs:115-320 | so is every run of the stack, for every peer |
| Refinement.CleanupIsInvisible | coapable/src/transport/stack.rs:316-319 | cleanup drops no exchange, dedup record, cached reply or pending MID, sends nothing, and evicts a session exactly when all four of its tables are empty |
| Correlation.EveryExchangeBegan | coapable/src/transport/stack.rs:232-258 | every live exchange stems from a request of its caller, sent with its token, MID and bytes |
| Correlation.AnswersMatchTheirRequest | coapable/src/transport/session.rs:84-129 | within the window whatever ends a request with a response or Reset answers, by MID or by token, the packet that request was sent as |
| Correlation.RequestEndsIff | coapable/src/transport/session.rs:84-129 | in every state a packet ends a live request if and only if it is an ACK response or RST whose MID the index leads to it from, or a CON or NON response with its token and a MID not remembered; it then ends that one alone, with its answer |
| Correlation.RepliesEndByMidIff | coapable/src/transport/session.rs:98-129 | within the window an ACK response or RST ends a live request exactly when it carries its MID and no empty ACK for it has come |
| Retransmission.StepMoves | coapable/src/transport/exchange.rs:52-70 | for every caller a step takes its request, resends it, gives it up, or sends nothing |
| Retransmission.CopiesAreBounded | coapable/src/transport/exchange.rs:63-70 | the copies sent in the whole run are at most five, one more than the backoff counts while it lives |
| Retransmission.EncodedIsSent | coapable/src/transport/stack.rs:243-260 | an encoded CON request is sent one to five times in the whole run, an encoded NON request exactly once |
| Retransmission.CopiesAreFaithful | coapable/src/transport/stack.rs:246-260 | every copy of a request equals the packet it was first sent as |
| Retransmission.CopiesAreIdentical | coapable/src/transport/stack.rs:246-260 | any two copies of a request in a run are the same packet |
| Retransmission.EndedIsQuiet | coapable/src/transport/session.rs:84-95 | a request is never sent again after its response, Reset or Timeout |
| Retransmission.AcknowledgedIsQuiet | coapable/src/transport/session.rs:104-110 | within the window a request is never sent again after its empty ACK |
| Timing.RunIsTimed | coapable/src/transport/reliability.rs:78-97 | the backoff agrees with the record of what was sent when: due one doubled wait after the last copy |
| Timing.RecordIsExact | coapable/src/transport/reliability.rs:89-97 | the record of copy k is the instant at which it was sent |
| Timing.CopyIsSentOnce | coapable/src/transport/reliability.rs:89-97 | copy k of a request is sent in at most one step of a run |
| Timing.CopyTiming | coapable/src/transport/reliability.rs:77-114 | copy k leaves (2^k - 1) initial timeouts after the request was taken, at most k sweeps' lateness later, so within 45 s + 4d |
| Timing.TimeoutTiming | coapable/src/transport/session.rs:175-201 | a CON request times out 31 initial timeouts after it was taken (at least 62 s, at most 93 s + 5d) reporting 4, a NON request after 145 s (+ d) reporting 0 |
| Timing.RequestsEndInTime | coapable/src/transport/session.rs:175-201 | with every deadline met within d, a request has ended 93 s + 5d (CON) or 145 s + d (NON) after it was taken, unless it is a CON no longer sent again; within the window an empty ACK with its MID has arrived since it was taken |
| Timing.QuietWasHeard | coapable/src/transport/session.rs:104-110 | within the window a live CON exchange that is no longer sent again has had an empty ACK with its MID |
| Timing.NeverTooSoon | coapable/src/transport/reliability.rs:107-113 | the lower bounds hold whenever the timer fires |
| Deduplication.StepNotes | coapable/src/transport/stack.rs:134-174 | every step does one of five things to the dedup table and the pending MIDs and sends exactly the ACKs that go with it |
| Deduplication.DuplicateIsInert | coapable/src/transport/stack.rs:136-147 | a duplicate changes no table, is not delivered, and gets the cached reply if it is a CON and there is one |
| Deduplication.RunRemembers | coapable/src/transport/session.rs:132-145 | every accepted MID is in the table or was accepted at least 247 s ago |
| Deduplication.DispatchSeparation | coapable/src/transport/session.rs:132-145 | two deliveries upward with the same peer and MID are at least 247 s apart |
| Deduplication.RunIsGrounded | coapable/src/transport/stack.rs:152-174 | every pending MID and every cached reply stems from a CON received from the peer |
| Deduplication.AcksAreSound | coapable/src/transport/stack.rs:136-174 | every Acknowledgement sent carries the MID of a CON received from that peer, on the immediate, piggybacked and replayed paths and across eviction; it is empty, or a response of the server under both the token and the MID of one CON request |
| Deduplication.RunIsMatched | coapable/src/transport/stack.rs:152-174 | every pending MID is that of a CON request with its token, and every cached reply is an empty ACK or answers such a request |
| Deduplication.RepliesAreFaithful | coapable/src/transport/stack.rs:136-147 | in a run without clashes all ACKs for a MID between two acceptances of it are the same packet |
| Deduplication.ClashBreaksFidelity | coapable/src/transport/stack.rs:278-292 | after any clash the server need only answer what is pending for two different ACKs to go out |
| Deduplication.FidelityIff | coapable/src/transport/stack.rs:133-292 | replies stay the same in all continuations of a run, from any point, by answers of the server if and only if the run has no clash |
| Forgetting.RememberedIff | coapable/src/transport/session.rs:204-207 | a MID is in the dedup table if and only if it was accepted and no sweep has come 247 s or more after that |
| Forgetting.ServersNeverForget | coapable/src/transport/stack.rs:101-111 | in every run of the loop without requests of its own the stack never accepts a MID from a peer twice, however much later |
| Forgetting.ServersAcceptAtMost | coapable/src/transport/stack.rs:101-111 | such a stack accepts at most 2^16 messages of one peer in any run |
| Forgetting.ServersDispatchAtMost | coapable/src/transport/stack.rs:177-195 | and dispatches at most 2^16 of its requests |
| Attribution.EverySendIsAccountedFor | coapable/src/transport/stack.rs:117-313 | whatever a stack sends is a copy of a request, an empty ACK, or a response it was handed; a response in an ACK is under the token and MID of one CON request received |
| Attribution.RequestsAreCopies | coapable/src/transport/stack.rs:177-183 | a request that reaches the server is a copy of one caller's, byte for byte |
| Attribution.CompletionIsOwnIff | coapable/src/transport/session.rs:84-118 | between two connected stacks a caller is completed with the server's answer to its own request if and only if the completing packet carries its token; it is always the answer to some caller's |
| Attribution.UnsharedMidIsOwn | coapable/src/transport/session.rs:98-118 | a caller whose MID no other CON request of the client's run had is completed with the answer to its own request |
| Naming.TokenIsBigEndian | coapable/src/transport/reliability.rs:58-62 | a token is the 4 bytes of the counter, the most significant first |
| Naming.FirstCopyIs | coapable/src/transport/stack.rs:232-260 | the first copy of a request, CON or NON alike, is sent in the step of that request and has all its fields, the MID and the token of the allocators before the step |
| Naming.EncodedLeaves | coapable/src/transport/stack.rs:232-260 | every request that encodes leaves so |
| Naming.CopiesCarryRequest | coapable/src/transport/stack.rs:243-260 | every copy ever sent carries a request of its caller, all of it, under the names it was given |
| Naming.RequestIsDispatched | coapable/src/transport/stack.rs:148-183 | whichever copy of a request, CON or NON, reaches a stack that does not remember its MID is dispatched there |
| Naming.NamesAfter | coapable/src/transport/reliability.rs:38-62 | the allocators of a session are ahead of those of an earlier request by what was spent since, modulo 2^16 and 2^32 |
| Naming.SameNameIff | coapable/src/transport/reliability.rs:38-62 | two requests of one session, CON or NON, have the same MID exactly when a whole multiple of 2^16 was spent from one to the other, the same token exactly for a multiple of 2^32 |
| Naming.ResponseLeavesAs | coapable/src/transport/stack.rs:278-292 | what leaves for a response of the server, exactly: an ACK with the MID still owed for its token, else a NON with the allocator's MID, with all of the response |
| Crossing.ReusedMidGetsAnothersResponse | coapable/src/transport/stack.rs:136-147 | for any two CON requests and any response: two runs in which an evicted session's successor draws the same MID, the server replays its old reply, and a caller gets the response to another's request while its own is never dispatched |
| EndToEnd.CopiesLeaveTogether | coapable/src/transport/reliability.rs:77-114 | any two copies of a request are the same packet and leave within 45 s + 4d of each other |
| EndToEnd.AtMostOnce | coapable/src/transport/stack.rs:133-196 | with delay and lateness small enough that 45 s + 4d + delay < 247 s a request is dispatched at most once between two peers |
| EndToEnd.RequestsAreDispatchedAtMostOnce | coapable/src/transport/stack.rs:133-196 | over any runs of two stacks, with delay up to 100 s and sweeps less than 25.5 s late, every request is dispatched at most once |
| Quiescence.SweepMeetsDeadline | coapable/src/transport/session.rs:175-215 | a sweep does nothing exactly when it comes before the deadline, and leaves every deadline in the future |
| Quiescence.FiringLowersTotal | coapable/src/transport/session.rs:175-201 | a firing at or after the deadline strictly lowers the sum of 5 - count over CON and 1 over NON exchanges |
| Quiescence.TotalIsBounded | coapable/src/transport/session.rs:175-201 | that sum is at most 5 per CON and 1 per NON exchange |
| Quiescence.FireSweepsAll | coapable/src/transport/stack.rs:302-309 | the retransmission arm sweeps the live exchanges of all peers at once |
| Quiescence.TimerRunsOut | coapable/src/transport/stack.rs:100-111 | with no other input, after that many firings exactly the exchanges that never had a deadline are left, untouched, and the timer is off |
| Quiescence.ReachableIsWellFormed | coapable/src/transport/exchange.rs:19-44 | every reachable stack satisfies what the quiescence results assume |
| RouterTrie.Router.AddRoute | coapable/src/server/router.rs:164-169 | registering grows the trie into the one for the registrations so far and this one, its path cut into segments |
| RouterTrie.Router.WalkOrCreate | coapable/src/server/router.rs:171-186 | the cursor ends at the node of the pattern; the trie gains exactly the missing prefixes and parameter names |
| RouterTrie.Router.MergeHandlers | coapable/src/server/router.rs:45-58 | merges the given handlers into those of the node; no other node changes |
| RouterTrie.Router.Lookup | coapable/src/server/router.rs:190-211 | the trie walk finds what narrowing the route list finds, with the same parameters, and nothing when it finds nothing |
| RouterTrie.Router.Handle | coapable/src/server/router.rs:215-248 | the reply the specification over the route list gives |
| RouterTrie.WalkResolves | coapable/src/server/router.rs:190-211 | on any trie that shows a route list, walking is narrowing the list |
| RouterTrie.GrownShows | coapable/src/server/router.rs:171-186 | one step of the cursor extends what the trie shows by one segment |
| Routes.ResolveLands | coapable/src/server/router.rs:190-211 | a lookup is the handlers at the pattern it ends at, and the names along that pattern paired with the segments in their places |
| Routes.FoundIff | coapable/src/server/router.rs:194-211 | a request that fits a route ends at its pattern if and only if no segment in the place of one of its parameters is offered literally by a route that agrees with it so far |
| Routes.HandlersAfter | coapable/src/server/router.rs:164-169 | a registration changes handlers where its pattern ends and nowhere else |
| Routes.NameAfter | coapable/src/server/router.rs:174-178 | a parameter keeps the name the first route to need it gave it |
| Routes.StaticRoutesAreNeverShadowed | coapable/src/server/router.rs:196-205 | a request for a registered all-static path gets that path's merged handlers and no parameters, whatever else is registered |
| Routes.SamePatternsSameHandlers | coapable/src/server/router.rs:190-211 | lists with the same patterns and handlers find the same handlers, with the same values in the same places; only names may differ |
| Routes.RegistrationsCommute | coapable/src/server/router.rs:164-186 | neighbouring registrations with different patterns may be swapped: every request finds the same handlers and the same values in the same places, up to parameter names |
| Routes.LookupDoesNotBacktrack | coapable/src/server/router.rs:195-205 | `/:y/b` matches `/a/b`, but not once `/a/c` is registered |
| Routes.RoutedAsSent | coapable/src/server/router.rs:215-221 | a request is routed after its trip over the wire as it would have been before |
| Dispatching.LastRegistrationWins | coapable/src/server/router.rs:45-58 | for each of the four methods, a pattern's handler is the one of the last registration of the pattern that gave one for it |
| Dispatching.ReplyAt | coapable/src/server/router.rs:215-248 | NotFound exactly without handlers at the end of the path; otherwise the slot of the method itself, MethodNotAllowed if it is empty and for any other method |
| Dispatching.RegistrationAnswers | coapable/src/server/router.rs:215-248 | for each reply the exact condition in terms of the registrations: which one is invoked and with which parameters, when none of the pattern gave any handler, when none gave one for the method |
| Dispatching.LeadingSlashIsIgnored | coapable/src/server/router.rs:164-169 | registering or requesting a path with a leading slash or without is the same |
| Dispatching.ParameterIff | coapable/src/server/router.rs:174-178 | a segment is a parameter exactly when it is a colon and its name |
| Dispatching.ParameterIsTold | coapable/src/server/router.rs:190-211 | a handler is told a name with a value exactly if that is the segment in the place of the last parameter so named on the pattern the path ends at |
| Dispatching.ParameterIsBound | coapable/src/server/router.rs:171-211 | `a/:y` registered for GET answers GET `/a/v` with y bound to v, POST `/a/v` with MethodNotAllowed, GET `/a` with NotFound |
| Witnesses.PlaysOut | coapable/src/transport/stack.rs:99-321 | a history of one peer in which each timer came when it was due is that peer's share of a run of the loop |
| Witnesses.RegistrationBreaksIndex | coapable/src/transport/session.rs:77-80 | a run in which a CON takes the MID of an un-acknowledged one, 2^16 answered requests later, and the index is no longer the inverse of the live MIDs |
| Witnesses.CompletionBreaksIndex | coapable/src/transport/session.rs:84-95 | a run in which a separate response removes the index entry of a later CON, which no ACK or RST can reach any more |
| Witnesses.RequestIsDisplaced | coapable/src/transport/session.rs:72-74 | a run in which an acknowledged request loses its exchange to another, 2^32 answered requests later |
| Witnesses.LateAckIsIgnored | coapable/src/transport/session.rs:98-102 | a run in which a response in an ACK comes after the empty ACK and is dropped, and the request waits without a deadline |
| Witnesses.RepeatedMidIsIgnored | coapable/src/transport/stack.rs:136-147 | a run in which a response is dropped because its MID is remembered |
| Witnesses.ReusedMidGetsOldReply | coapable/src/transport/stack.rs:136-147 | for any two CON requests with one MID, any reply and any delay: a run in which a serving stack answers the second with the reply to the first and does not deliver it |
| Witnesses.RepliesGetMixedUp | coapable/src/transport/stack.rs:278-292 | a run in which two different ACKs go out for one accepted MID |
| Messages.RequestToPacket | coapable/src/message_types.rs:293-330 | the packet built field by field is a CON or a NON as the request asks, under the given token and MID, and carries its code, segments, queries, format, Accept code and payload and nothing else |
| Messages.CarriesOf | coapable/src/message_types.rs:293-330 | the packet of a request, field by field, with the Accept code as the shortest big-endian bytes of its last 16 bits |
| Messages.ParseRequest | coapable/src/message_types.rs:199-255 | Err exactly for a packet that is no request; otherwise every field: path and queries are all the UTF-8 ones of the values, in order, the path with a slash before each; Accept is the first value read big-endian, if known |
| Messages.TextValuesAppend | coapable/src/message_types.rs:208-222 | a value among the others is kept in its place if it is UTF-8 and dropped alone if not |
| Messages.TextValuesKeepsUtf8 | coapable/src/message_types.rs:208-222 | a text option yields all its UTF-8 values, at rising indices, and nothing else |
| Messages.DecodeAccept | coapable/src/message_types.rs:231-234 | right-aligning up to 8 bytes in a zeroed buffer reads their big-endian value |
| Messages.BigEndianFirst | coapable/src/message_types.rs:231-234 | the first byte is the most significant, so that the value is the sum of bytes times powers of 256 |
| Messages.ResponseToPacket | coapable/src/message_types.rs:99-115 | the packet built field by field has the type, token and MID given and the response's code, format and payload, and nothing else |
| Messages.MinimalU16RoundTrip | coapable/src/message_types.rs:320-323 | the fewest big-endian bytes of a 16-bit value decode to it |
| Messages.MinimalU16IsShortest | coapable/src/message_types.rs:320-323 | they have no leading zero, and no fewer bytes mean the same |
| Messages.RequestRoundTrip | coapable/src/message_types.rs:199-330 | a request survives its packet with its path normalised and its segments kept; its Accept format exactly when known and 16 bits wide |
| Messages.SecondTripIsIdentity | coapable/src/message_types.rs:199-330 | a second trip changes nothing more |
| Messages.ResponseRoundTrip | coapable/src/message_types.rs:66-115 | every response comes back whole from its packet; a packet decodes to a response exactly when it is, path, query and Accept aside, what the response encodes to |
| Paths.SplitJoin | coapable/src/message_types.rs:211-211 | splitting undoes joining |
| Paths.SegmentsOfNormal | coapable/src/message_types.rs:306-308 | rebuilding a path from segments and cutting it again yields the segments |
| Paths.Utf8Segments | coapable/src/message_types.rs:306-308 | cutting UTF-8 text at slashes leaves UTF-8 text |
| Paths.SegmentsSlashFree | coapable/src/message_types.rs:306-308 | a path without a slash is one segment, none if it is empty |
| Paths.SegmentsAtSlash | coapable/src/message_types.rs:306-308 | at its first slash a path falls into the segment before it, unless empty, and the segments of the rest, in this order |
| Paths.LeadingSlash | coapable/src/server/router.rs:165-165 | a leading slash makes no difference to the segments |
| Paths.NormalIsSlashed | coapable/src/message_types.rs:208-214 | the rebuilt path is each segment with a slash before it, or a slash alone |
| Paths.Utf8Iff | coapable/src/message_types.rs:210-210 | bytes pass as text if and only if they are the UTF-8 encoding, bit by bit, of some sequence of Unicode scalar values |

## Left out

- Sockets, channels, back-pressure and shutdown (`endpoint.rs`, the channel ends in `stack.rs`): events come in, effects go out; a failed send or a closed channel ends the loop in the source.
- The order of the effects of one step: they are a set in the model and, in the classes, a list of the same effects, each once. Which exchange a sweep handles first is left open, as a hash table leaves it open.
- The choice among arms that are ready at once: `select!` picks at random, the model offers every order.
- The wire format of packets (coap-lite): datagrams are packets. Content-Format is stored and read as set; which codes are known is a parameter.
- Messages.ParseRequest: requires an Accept value of at most 8 bytes, the size of the buffer the source copies it into; CoAP allows two. A first copy of a request with a longer one makes the source panic at that subtraction or slice, which ends the event loop; in the model of the stack it is dispatched like any other.
- The request handed to the server is its packet; `ParseRequest` says what the server sees of it.
- Fractions of a millisecond: the initial timeout is a whole number of milliseconds.
- Async handlers, extensions and state of the router (`handler.rs`), the server's receive loop (`server.rs`): handlers are identities, the server is whoever produces responses.
- The fluent client and its timeout (`client.rs`): the timeout drops the receiver and changes no table.
- OSCORE: not implemented in the source beyond calls into a C library.
- Builders, getters and `MethodRouter`: they only set or read a field.
