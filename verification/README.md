# SignedPulse: a verified model

SignedPulse opens a firewall for clients that prove, with a signature over a server-chosen
nonce, who they are and that they are there now, and closes it when they stop proving it. This
project models the parts of the server, of the client and of their protocol that carry that
promise, and proves what they keep. `dafny verify dfyconfig.toml` checks all of it.

**The stores.** `SeenCache.dfy` (HELLO replays), `NonceStore.dfy` (challenge nonces),
`HelloLimits.dfy` (rate limit), `Cooldowns.dfy` (hold-down of the grant hook), `Leases.dfy`
(access leases), `Blacklists.dfy` (faulty senders, lockdown) and `Gate.dfy` (recently active
addresses, the head of the receive loop) each hold a class with the fields the server updates in
place. Every method is specified by a function of the old fields, and states its effect outright
as well; the lemmas are about whole runs of those functions, with purges anywhere.

**The handshake as a step machine.** `Handshake.dfy` runs every datagram on its own task. A
region that the server executes under one lock is one step. Steps of different tasks, purges,
lease scans, clock ticks and the signing done by clients interleave without restriction, the
network delivers any datagram any number of times, and a signature verifies only if the client
made it. `Runs.dfy` defines paths and reachable states: any finite sequence of steps in any order,
a step that is not possible changing nothing. The state also remembers what happened (HELLOs
accepted, nonces minted, claims on nonces, events); the server's decisions do not depend on it.
Proved of every reachable state:

* `Agreement.dfy`: everything done for a packet was done once, on a nonce minted for exactly that
  client and endpoint, and that client signed kind, nonce, interval, minted expiry and param.
* `HelloAgreement.dfy`: a signed HELLO is accepted at most once, for every u64 skew.
* `Conservation.dfy`: accepted packets, nonces and signed HELLOs bound each other; the pulse
  counter is exact; every lease rests on a signed RESPONSE.
* `Causality.dfy`: consumption, acceptance, lease change and hook come in that order.
* `Clients.dfy`, `Completion.dfy`: an honest client gets through, whatever happens between its
  HELLO and its answer.
* `Server.dfy`, `Refinement.dfy`: the handlers as methods over the stores, and the proof that a
  handler which nothing interrupts is its task's sequence of steps in the machine.

**Leases and the firewall.** `Firewall.dfy` joins the lease table, the cooldown and the open
addresses, with the hooks doing what the sample hook script does, and says exactly when a live
lease can lose its opening and when an opening can outlive its lease; `FirewallLink.dfy` shows that
its events are what the handlers do.

**Lockdown.** `Lockdown.dfy` compares the trimmed deques, the drop counter and the hold-down
timer with full histories. `Defence.dfy` runs the handlers, the cleanup tick, faulty packets and
packets shed at the gate together: every refusal feeds the lockdown, accepted clients pass it, and
only faulty packets block a sender.

**Wire and text.** `Codec.dfy` and `LittleEndian.dfy` (packets), `TextEncodings.dfy` (hex,
decimal, base64 as in section 4 of RFC 4648), `SigningText.dfy` (the signed texts; their
injectivity is what allows the handshake model to treat signed messages as tuples),
`Placeholders.dfy` (hook arguments), `Backoff.dfy` (retransmission, as Timer E in section
17.1.2.2 of RFC 3261). `Types.dfy` and `Finite.dfy` hold shared vocabulary.

Assumptions built into the model: clock readings never decrease; a handler's check of a HELLO's
timestamp and its insert into the replay cache are one step with one clock reading (the code reads
the clock before it takes the cache's lock: `SeenCaches.StaleHelloAcceptsIff` says exactly when a
handler delayed in between accepts a HELLO a second time); the nonce supply never repeats
(`NonceStores.ReissuedNonceIsSpendableAgain` shows why that is needed); sealing and opening are inverse, nothing more is assumed of them; a lease cap, a
window and an active-address cap of zero have been replaced by one, as the constructors do.

Where the code and its comments differ, the model follows the code:

* The comment before the lease scan describes a re-check before each revoke that the code does not
  make. `Firewall.LateRevokeIsSafeIff` shows that this re-check is exactly what a revoke hook that
  runs after its scan would need, `Firewall.ReturningClientIsLockedOut` what happens without it.
* The comment on the lease tracker has the revoke hook run only when an address is freed; the code
  always runs it and passes the count.
* The configuration means to refuse duplicate client ids, but compares texts:
  `TextEncodings.SameIdIff` says which texts are one id, and `TextEncodings.PlusTextsCollide` gives
  pairs that pass.
* The comment on the blacklist purge keeps addresses with recent faults; the code forgets all
  partial fault counts: `Gates.TripsIffOverSincePurge`.
* The comment on the HELLO text begins it with version 1; the code writes version 2:
  `SigningText.HelloTextIs`.

## Model

| member | source | states |
|---|---|---|
| Agreement.ReachableInv | crates/signedpulse-server/src/server.rs:557-843 | In every reachable state: stored nonces are bound as minted and marked used exactly when consumed, unexpired minted nonces are still stored, every claim is signed by the client it names, every event happened once and belongs to the one claim on its nonce, and no two tasks past the single-use gate hold the same nonce. |
| Agreement.PassesGate | crates/signedpulse-server/src/nonce_store.rs:91-145 | A packet passes the single-use gate only on a nonce that was minted for its client and endpoint and that nobody has consumed. |
| Agreement.EventsAreBacked | crates/signedpulse-server/src/server.rs:692-745 | Each consumption, acceptance, lease change and hook run happened once, for a nonce minted for exactly that client and endpoint, and the client signed the packet with the minted expiry. |
| Agreement.OneEffectPerNonce | crates/signedpulse-server/src/server.rs:734-745 | One nonce backs at most one effect of each sort, and all its effects belong to one packet: never a RESPONSE and a BYE both. |
| HelloAgreement.HellosAlwaysTrue | crates/signedpulse-server/src/server.rs:606-646 | In every reachable state: each accepted HELLO was accepted once, is signed by a configured client for this server, and is covered by the replay cache for as long as its timestamp can be in the window; distinct nonces answer distinct accepted HELLOs of their client. |
| HelloAgreement.AcceptedBeforeIsRefused | crates/signedpulse-server/src/server.rs:606-626 | A HELLO accepted before is refused at every later clock reading, by the window or by the cache, purges included. |
| HelloAgreement.HelloAcceptedAtMostOnce | crates/signedpulse-server/src/server.rs:606-626 | Each signed HELLO is accepted at most once over a whole run, and only if a configured client signed it for this server. |
| HelloAgreement.NoncesAnswerHellos | crates/signedpulse-server/src/server.rs:634-646 | Every minted nonce answers a HELLO that its client signed, and two nonces never answer one HELLO. |
| Conservation.Conserved | crates/signedpulse-server/src/server.rs:617-745 | For every client and at every point: effects of each sort are at most the nonces minted for it, which are at most the distinct HELLOs it signed. |
| Conservation.BooksBalance | crates/signedpulse-server/src/server.rs:758-787 | The pulse counter equals the number of accepted RESPONSEs; every lease was written for a verified RESPONSE of that client from the leased endpoint, stores the param that RESPONSE carried, and ends within the length its interval asked for; so was every lease that a revoke hook is about to be told of. |
| Conservation.LeaseIsSigned | crates/signedpulse-server/src/server.rs:774-787 | For every lease the client signed a RESPONSE on a nonce minted for it at the leased endpoint; the signed sealed param opens to the stored param and the signed interval bounds the time left. |
| Conservation.RevokeParamIsSigned | crates/signedpulse-server/src/server.rs:934-963 | When a revoke hook is about to run for a BYE, the client signed that BYE, and the param the hook gets was signed too: sealed in the BYE, or else in a RESPONSE of the leased client. |
| Causality.HooksComeLast | crates/signedpulse-server/src/server.rs:734-843 | A hook runs for a packet only after its lease change, that after its acceptance, that after its nonce was consumed. |
| Causality.GrantParamIsSigned | crates/signedpulse-server/src/server.rs:747-819 | When a grant hook is about to run, its param is the opened form of exactly the sealed param in a RESPONSE that the client signed on a nonce minted for it at that endpoint. |
| Handshake.AdmitParam | crates/signedpulse-server/src/server.rs:989-1037 | A packet without param carries none; an admitted param has no control characters and no leading dash. |
| Handshake.AdmittedIff | crates/signedpulse-server/src/server.rs:989-1037 | No param is reported exactly when none is carried; a text exactly when the param opens with the server key to at most the allowed bytes, valid UTF-8, with no character below 32 or from 127 to 159 and no leading dash; all else is refused. |
| Clients.ParamSurvivesIff | crates/signedpulse-client/src/client.rs:712-724 | Of the params the client sends, the server admits, unchanged, exactly those within its own length bound that do not start with a dash. |
| Clients.ValidatedIff | crates/signedpulse-client/src/client.rs:712-724 | The client sends exactly the params within its own length bound and without control characters. |
| Clients.DashPassesOnlyTheClient | crates/signedpulse-client/src/client.rs:712-724 | A dash passes the client's validation and is refused by the server. |
| Clients.LeaseSpansIntervals | crates/signedpulse-client/src/client.rs:566-566 | The interval the client advertises makes the server lease for exactly multiplier times it, when that is in range. |
| Clients.Answer | crates/signedpulse-client/src/client.rs:544-615 | An answer only to the own challenge: same nonce, interval saturated to 32 bits, param encoded and sealed, and a signature over exactly what is sent and the expiry in the challenge. |
| Completion.HelloIsChallenged | crates/signedpulse-server/src/server.rs:557-659 | A HELLO of a configured client within the rate limit, stamped at most the skew behind or ahead of the server clock and not in the replay cache, is answered with an unused nonce minted for that client and endpoint, valid for the configured time; the cache holds it for twice the skew; leases, events and other tasks do not change. |
| Completion.HelloIsAnsweredIff | crates/signedpulse-server/src/server.rs:557-659 | A HELLO signed by the client it names is answered if and only if those conditions hold; any other leaves everything stored but the rate table as it was. |
| Completion.ChallengeStaysOpen | crates/signedpulse-server/src/nonce_store.rs:116-156 | Whatever steps follow, the challenge can still be answered before its expiry unless the client has already answered it. |
| Completion.AnswerIsVerified | crates/signedpulse-client/src/client.rs:544-615 | From every reachable state the honest answer to an open challenge is verified and counted once, takes exactly that nonce, which nobody had taken, and leaves its server task with the very param the client sent. |
| Completion.RenewalGrants | crates/signedpulse-server/src/server.rs:768-843 | After every verified RESPONSE the lease is written, with the length the interval asks for, if the client is tracked or there is room; the grant hook runs exactly when no live lease was held, the cooldown is off or the last mark is older than it, and then the client is marked. |
| Completion.HandshakeCompletes | crates/signedpulse-client/src/client.rs:502-616 | In any reachable state that admits the HELLO by the same conditions, and after any steps in between, the RESPONSE from the same endpoint before expiry is verified, counted once, consumes the one nonce, and writes the lease (if tracked or there is room) with the param the client sent and the length its interval asks for; the grant hook runs exactly for a new session or out of cooldown. |
| Completion.ReleaseCompletes | crates/signedpulse-client/src/client.rs:502-616 | From every reachable state a BYE that answers an open challenge consumes the one nonce and releases exactly the own lease, without counting as a pulse; if there was one and a hook is configured, the hook due next is told of that lease, of the param of the BYE or else the stored one, and of the number of other live clients on the address. |
| Completion.MintedForGood | crates/signedpulse-server/src/nonce_store.rs:70-87 | No steps ever change what a nonce was minted for. |
| Servers.Server.NoteRejected | crates/signedpulse-server/src/server.rs:316-328 | One more rejected, one more replay exactly for a replay, and a rejection of the blacklist. |
| Servers.Server.NoteFaulty | crates/signedpulse-server/src/server.rs:334-339 | A packet that cannot be read is a rejection, counted, and then a fault of its sender. |
| Servers.Server.CheckHello | crates/signedpulse-server/src/server.rs:564-626 | Passes exactly within the rate limit, for a configured client, with a signature over server, client, timestamp and nonce, a timestamp at most the skew behind or ahead of the clock, and no unexpired cache entry, and then alone writes the cache; any refusal is counted, as a replay exactly when only the cache objects. |
| Servers.Server.HandleHello | crates/signedpulse-server/src/server.rs:557-659 | A CHALLENGE is sent exactly under those conditions; then the nonce is stored unused with the expiry sent, and the source is marked active; otherwise nonces, counters and active addresses stay and one more packet is rejected. |
| Servers.Server.CheckProof | crates/signedpulse-server/src/server.rs:692-745 | Passes exactly for a configured client, an unused nonce bound to it and its endpoint and unexpired at both clock readings, and a signature over kind, server, client, nonce, interval, stored expiry and param; then that nonce alone is marked used. A refusal burns nothing and is a replay exactly when the nonce was used up. |
| Servers.Server.DecryptParam | crates/signedpulse-server/src/server.rs:989-1037 | Opens and checks the param, and counts a bad one as a refusal. |
| Servers.Server.HandleResponse | crates/signedpulse-server/src/server.rs:661-843 | The new stores as a function of the old; a verified source is marked active, any refusal is counted; the grant hook runs exactly for a new session or out of cooldown, and is told the param, whether the session is new and the number of other clients live on the address. |
| Servers.ResponseEffects | crates/signedpulse-server/src/server.rs:747-819 | A verified RESPONSE marks its nonce used, counts, writes the lease if tracked or there is room, and marks the client if the hook ran; any other leaves counter, leases and marks alone. |
| Servers.GrantSpelled | crates/signedpulse-server/src/server.rs:789-811 | The hook runs exactly for a verified RESPONSE of a client without a live lease or out of cooldown; its count is the number of other clients with a live lease on the address. |
| Servers.Server.HandleBye | crates/signedpulse-server/src/server.rs:850-983 | Releases exactly the sender's own lease, or counts the refusal; the revoke hook gets that lease, the BYE's param or else the stored one, and the number of live leases left on its address, and does not run when there was no lease. |
| Servers.Server.RunLeaseScan | crates/signedpulse-server/src/server.rs:246-309 | Drains exactly the expired leases; each is reported once, unless no revoke hook is configured. |
| Servers.Server.CleanupTick | crates/signedpulse-server/src/server.rs:364-383 | Purges every store, the blacklist and the active addresses, and drains exactly the expired leases. |
| Refinement.HelloHandlerIsItsTask | crates/signedpulse-server/src/server.rs:557-659 | The uninterrupted HELLO handler does to the stores what its task's four steps do in the machine. |
| Refinement.ResponseHandlerIsItsTask | crates/signedpulse-server/src/server.rs:661-843 | The uninterrupted RESPONSE handler does to the stores what its task's seven steps do. |
| Refinement.ByeHandlerIsItsTask | crates/signedpulse-server/src/server.rs:850-983 | The uninterrupted BYE handler does to the stores what its task's five steps do. |
| Refinement.TickIsItsSteps | crates/signedpulse-server/src/server.rs:369-382 | The cleanup tick is four purges and the lease scan of the machine, in that order, and touches nothing but the stores. |
| SeenCaches.SeenCache.InsertIfAbsent | crates/signedpulse-server/src/seen_cache.rs:27-39 | Accepts a key exactly when it has no unexpired entry, and then alone writes the clamped expiry. |
| SeenCaches.SeenCache.PurgeExpired | crates/signedpulse-server/src/seen_cache.rs:42-47 | Keeps exactly the unexpired entries and counts the others. |
| SeenCaches.ExpiryCoversWindow | crates/signedpulse-server/src/server.rs:606-622 | The clamped expiry written at one in-window arrival reaches every other in-window arrival of the same timestamp, for every u64 skew. |
| SeenCaches.PurgeTransparent | crates/signedpulse-server/src/seen_cache.rs:27-47 | Purged at any times or never, the cache answers every time-ordered call sequence alike. |
| SeenCaches.ReplayKeyInjective | crates/signedpulse-server/src/server.rs:618-620 | Two HELLOs share a replay key only if they share client id and HELLO nonce. |
| SeenCaches.StaleReadingAcceptsIff | crates/signedpulse-server/src/seen_cache.rs:27-47 | If another handler inserts a key, and a purge runs, between one handler's clock reading and its own insert, that key is accepted a second time if and only if the purge or the reading lies beyond the first entry. |
| SeenCaches.StaleHelloAcceptsIff | crates/signedpulse-server/src/server.rs:608-622 | For two in-window readings of one HELLO that is so if and only if the purge comes more than the entry's whole time to live after the first insert. |
| NonceStores.Check | crates/signedpulse-server/src/nonce_store.rs:91-111 | Passes exactly an unused, unexpired entry of this client and endpoint; replay is reported before expiry. |
| NonceStores.NonceStore.Insert | crates/signedpulse-server/src/nonce_store.rs:70-87 | Stores the binding, unused, over whatever was there. |
| NonceStores.NonceStore.Validate | crates/signedpulse-server/src/nonce_store.rs:116-128 | Returns the entry or the first failing check, and marks nothing. |
| NonceStores.NonceStore.Consume | crates/signedpulse-server/src/nonce_store.rs:133-145 | Succeeds exactly when validation would, and then marks that nonce used and nothing else. |
| NonceStores.NonceStore.PurgeExpired | crates/signedpulse-server/src/nonce_store.rs:151-156 | Drops exactly the expired entries, used or not. |
| NonceStores.ConsumedAtMostOncePerIssue | crates/signedpulse-server/src/nonce_store.rs:70-156 | In every run, even with disordered clocks, a nonce is consumed at most as often as it was issued. |
| NonceStores.ReissuedNonceIsSpendableAgain | crates/signedpulse-server/src/nonce_store.rs:86-86 | Issuing a spent nonce again makes it spendable again, so the supply must not repeat. |
| NonceStores.PurgeTransparent | crates/signedpulse-server/src/nonce_store.rs:116-156 | Purging never changes which calls succeed or what they return, only the reason given for a refusal. |
| HelloLimits.HelloRateLimiter.Check | crates/signedpulse-server/src/rate_limit.rs:42-69 | Off with a zero budget, untracked when the table is full; else a running window with budget left counts the HELLO, one without refuses it and changes nothing, and any other HELLO opens a new window. |
| HelloLimits.HelloRateLimiter.PurgeStale | crates/signedpulse-server/src/rate_limit.rs:73-79 | Drops exactly the windows wholly in the past. |
| HelloLimits.PurgeTransparent | crates/signedpulse-server/src/rate_limit.rs:42-79 | Without a cap, purges at any times change no answer. |
| HelloLimits.PurgesInvisibleIff | crates/signedpulse-server/src/rate_limit.rs:42-79 | Purges at any times change no answer in any run if and only if the table is not capped or the limiter is off. |
| HelloLimits.CountedBound | crates/signedpulse-server/src/rate_limit.rs:46-79 | For every cap and with purges anywhere, any closed interval one window long counts at most twice the budget from one address; not counted are only HELLOs that pass because the table is full. |
| HelloLimits.RefusedOnlyOverBudget | crates/signedpulse-server/src/rate_limit.rs:46-79 | For every cap and with purges anywhere, a HELLO is refused only if a whole budget of HELLOs from its address was admitted less than one window before it, however often it retried. |
| HelloLimits.SlidingBound | crates/signedpulse-server/src/rate_limit.rs:46-79 | Without a cap that bounds all HELLOs admitted from the address. |
| HelloLimits.KeepsBoundIff | crates/signedpulse-server/src/rate_limit.rs:46-79 | In every run every address is kept to twice its budget per window if and only if the table is not capped; with a cap, a full table admits any number at one instant. |
| HelloLimits.SlidingBoundIsTight | crates/signedpulse-server/src/rate_limit.rs:46-69 | Twice the budget is reached. |
| Cooldowns.CooldownTracker.InCooldown | crates/signedpulse-server/src/rate_limit.rs:99-108 | True exactly when the key was last marked less than one cooldown ago; never with a zero cooldown. |
| Cooldowns.CooldownTracker.Mark | crates/signedpulse-server/src/rate_limit.rs:111-119 | Marks the key, unless the cooldown is zero. |
| Cooldowns.CooldownTracker.PurgeStale | crates/signedpulse-server/src/rate_limit.rs:122-132 | Drops exactly the marks older than the cooldown. |
| Cooldowns.PurgeTransparent | crates/signedpulse-server/src/rate_limit.rs:99-132 | Purges at any times change no answer. |
| Cooldowns.CoolingIffMarkedWithin | crates/signedpulse-server/src/rate_limit.rs:99-132 | After any run a key is cooling exactly when the full history marks it less than one cooldown ago. |
| Leases.LeaseTtl | crates/signedpulse-server/src/server.rs:774-780 | Interval times multiplier, saturating; one second for a zero product, the maximum above it, exact in between. |
| Leases.LeaseTracker.constructor | crates/signedpulse-server/src/rate_limit.rs:468-474 | An empty table whose cap is at least one. |
| Leases.LeaseTracker.Renew | crates/signedpulse-server/src/rate_limit.rs:482-519 | New exactly when the client held no live lease; overwrites its lease, or adds one if there is room. |
| Leases.LeaseTracker.Release | crates/signedpulse-server/src/rate_limit.rs:528-549 | Ends exactly the client's own lease and reports it with the number of other live leases on its address. |
| Leases.LeaseTracker.OthersOnIp | crates/signedpulse-server/src/rate_limit.rs:553-562 | Counts the other clients with a live lease on the address. |
| Leases.LeaseTracker.TakeExpired | crates/signedpulse-server/src/rate_limit.rs:566-602 | Drains exactly the expired leases, each once, each with its own data and with the number of live leases on its address. |
| Leases.DrainReportLists | crates/signedpulse-server/src/rate_limit.rs:566-602 | A client is in the drain report exactly when its lease has run out, with the data of that lease and the number of other clients with a live lease on its address. |
| Leases.LeaseTracker.ActiveCount | crates/signedpulse-server/src/rate_limit.rs:605-613 | Counts the live leases. |
| Leases.CountsAgree | crates/signedpulse-server/src/rate_limit.rs:532-602 | The count after removal, the unfiltered count after a drain and the count of other live leases on the address are one number. |
| Leases.SessionAccounting | crates/signedpulse-server/src/rate_limit.rs:493-602 | In every run, sessions started are the leases tracked plus the leases ended, and the table never exceeds its cap. |
| Leases.NewSessionBetweenEnds | crates/signedpulse-server/src/rate_limit.rs:493-602 | Between two ends of one client's leases lies a renewal that returned new. |
| Leases.KeptAlive | crates/signedpulse-server/src/rate_limit.rs:493-602 | In a time-ordered run, a client whose consecutive pulses come less than the clamped lease length apart is never drained and never flagged new again, however many scans take place and whenever. |
| Leases.SilentClientRevokedOnce | crates/signedpulse-server/src/rate_limit.rs:566-602 | A silent client is reported by exactly one operation, the first scan at or after its expiry. |
| Firewall.RevokeOrderIrrelevant | crates/signedpulse-server/src/server.rs:246-309 | In whatever order the drained leases are reported, their revoke hooks close the same addresses: those with no live lease left. |
| Firewall.StepCovers | examples/signedpulse-hook.sh:39-56 | A step keeps every live lease's address open if and only if it is not a pulse from a closed address whose grant the cooldown suppresses. |
| Firewall.LiveLeasesAreOpen | crates/signedpulse-server/src/server.rs:781-843 | In all reachable states the address of every live lease is open, given no cooldown or no address change under a live lease. |
| Firewall.StepLeaks | crates/signedpulse-server/src/rate_limit.rs:493-519 | A step keeps every open address accounted for by a tracked lease if and only if it neither moves the last tracked client off an open address nor grants an untracked one to a client the table refuses. |
| Firewall.ScanSynchronises | crates/signedpulse-server/src/rate_limit.rs:566-602 | If no tracked lease moves and the table refuses nobody, after each scan the open addresses are exactly those of live leases. |
| Firewall.MovedClientIsLockedOut | crates/signedpulse-server/src/server.rs:789-799 | A client that moves within its cooldown holds a live lease on a closed address. |
| Firewall.RefusedAddressStaysOpen | crates/signedpulse-server/src/rate_limit.rs:507-519 | An address granted to a client that the full table refuses stays open through all later events until some client is tracked on it. |
| Firewall.LateRevokeIsSafeIff | crates/signedpulse-server/src/server.rs:243-309 | A revoke hook that runs later than its scan keeps every live lease's address open if and only if it closes nothing or nobody has come back to the address. |
| Firewall.ReturningClientIsLockedOut | crates/signedpulse-server/src/server.rs:271-308 | A client that pulses again between the scan and its revoke hook ends with a live lease on a closed address. |
| FirewallLink.ResponseIsPulse | crates/signedpulse-server/src/server.rs:768-843 | A verified RESPONSE is a pulse of the firewall model: the same leases and marks, a positive lease length, and its address opened exactly when the grant hook runs. |
| FirewallLink.ByeIsBye | crates/signedpulse-server/src/server.rs:934-963 | A verified BYE closes the leased address exactly when the live leases left on it, the count its hook is given, are none. |
| FirewallLink.TickIsScan | crates/signedpulse-server/src/server.rs:246-309 | The hooks of a drain report, in whatever order, are the lease scan of the firewall model. |
| Blacklists.Blacklist.IsUnderAttack | crates/signedpulse-server/src/rate_limit.rs:209-214 | True exactly before the hold-down time, with at least one threshold set. |
| Blacklists.Blacklist.ArmLockdown | crates/signedpulse-server/src/rate_limit.rs:222-225 | Extends the hold-down to one window from now and never shortens it. |
| Blacklists.Blacklist.Trim | crates/signedpulse-server/src/rate_limit.rs:256-264 | Pops exactly the entries at the front that are older than the window. |
| Blacklists.Blacklist.NoteRejection | crates/signedpulse-server/src/rate_limit.rs:268-281 | Unless off, appends the time, trims to the window, and arms exactly when more than the threshold are left; nothing else changes. |
| Blacklists.Blacklist.NoteLockdownDrop | crates/signedpulse-server/src/rate_limit.rs:233-254 | Unless lockdown is off, opens a window more than one window after the last one, or counts and arms over the threshold: that for rejections if set, else that for blacklistings. |
| Blacklists.Blacklist.IsBlocked | crates/signedpulse-server/src/rate_limit.rs:284-297 | True exactly while the address's block lasts. |
| Blacklists.Blacklist.RecordFaulty | crates/signedpulse-server/src/rate_limit.rs:301-361 | Counts the fault, blocks over the threshold, extends a running block, restarts after one that is over, and ignores new addresses in a full table; true exactly for the packet that newly blacklists, which alone can arm lockdown. |
| Blacklists.Blacklist.PurgeStale | crates/signedpulse-server/src/rate_limit.rs:365-378 | Keeps exactly the addresses blocked now, and trims both deques. |
| Lockdown.HistoryTrue | crates/signedpulse-server/src/rate_limit.rs:233-377 | In every run the two deques are the full histories restricted to the last window, the drop counter is the number of packets shed since the current fixed window opened, and each arming had its cause. |
| Lockdown.RejectionArmsIff | crates/signedpulse-server/src/rate_limit.rs:268-281 | A rejection arms lockdown exactly when it makes more than the threshold of rejections in one window of the full history. |
| Lockdown.TripArmsIff | crates/signedpulse-server/src/rate_limit.rs:348-358 | A faulty packet arms lockdown exactly when it blacklists its sender and makes more than the threshold of blacklistings in one window. |
| Lockdown.DropArmsIff | crates/signedpulse-server/src/rate_limit.rs:233-254 | A shed packet arms lockdown exactly when it makes more than the threshold shed since the current fixed window opened. |
| Lockdown.DropArmsOnlyIf | crates/signedpulse-server/src/rate_limit.rs:233-254 | So it does only when more than the threshold were shed within one window. |
| Lockdown.LockdownIffArmed | crates/signedpulse-server/src/rate_limit.rs:209-225 | Lockdown is on exactly when some arming lies less than one window back, and each arming had more than its threshold of causes in the window before it. |
| Lockdown.QuietTurnsLockdownOff | crates/signedpulse-server/src/rate_limit.rs:209-281 | If no kind of event exceeded its threshold over the last two windows, lockdown is off. |
| Lockdown.EventsAreDistinctAddresses | crates/signedpulse-server/src/rate_limit.rs:308-361 | When blocks outlast the window, the deque of blacklistings never holds two of one address. |
| Gates.ActiveIps.Mark | crates/signedpulse-server/src/rate_limit.rs:401-408 | Refreshes a known address, takes a new one only below the cap. |
| Gates.ActiveIps.IsActive | crates/signedpulse-server/src/rate_limit.rs:414-419 | True exactly within the time to live of the last mark. |
| Gates.ActiveIps.PurgeStale | crates/signedpulse-server/src/rate_limit.rs:421-428 | Drops exactly the stale addresses. |
| Gates.StaysActive | crates/signedpulse-server/src/rate_limit.rs:401-428 | An address taken into the table stays active for its whole time to live, whatever is marked and purged meanwhile. |
| Gates.ActiveOnlyIfMarked | crates/signedpulse-server/src/rate_limit.rs:396-428 | Only addresses marked within the time to live are active, and the table never exceeds its cap. |
| Gates.Judge | crates/signedpulse-server/src/server.rs:422-443 | Dropped as blocked exactly when the sender is blocked; shed exactly when not blocked, under lockdown and not active; admitted otherwise. |
| Gates.Gate.Admit | crates/signedpulse-server/src/server.rs:422-443 | Admits exactly unblocked senders that are active or not under lockdown; only packets shed under lockdown keep it latched. |
| Gates.LockdownSparesTheActive | crates/signedpulse-server/src/server.rs:630-632 | From its accepted HELLO on, a client's packets pass any lockdown for the whole time to live unless its address is blacklisted. |
| Gates.DroppedIffFaultedWithin | crates/signedpulse-server/src/rate_limit.rs:284-377 | In every time-ordered run of faulty packets and purges a sender is dropped as blocked if and only if a packet of its own that blacklisted it, or came while it was blacklisted, lies less than one block length back. |
| Gates.TripsIffOverSincePurge | crates/signedpulse-server/src/rate_limit.rs:308-370 | From any state that holds nothing against an address, for any cap and any earlier history, a faulty packet is the first to blacklist its sender exactly when it exceeds the threshold counted since the last purge. |
| Defence.HelloDefended | crates/signedpulse-server/src/server.rs:557-632 | In every run of handler calls, ticks, faulty and shed packets: a HELLO is refused exactly for limit, client, signature, window or repetition; a refusal is a rejection of the blacklist and is counted, as a replay for a repetition alone; acceptance marks the source if there is room. |
| Defence.ProofDefended | crates/signedpulse-server/src/server.rs:692-756 | Likewise a RESPONSE or BYE is refused exactly for client, nonce at either reading, signature or param; the refusal is a rejection and is counted, as a replay when the nonce was used up; of the accepted ones only a RESPONSE marks its source. |
| Defence.RefusalsEngageLockdown | crates/signedpulse-server/src/server.rs:316-328 | More than the threshold of refused packets within one window put the server under lockdown from the one too many on, for one whole window, whatever calls follow. |
| Defence.LockdownIffRefusals | crates/signedpulse-server/src/server.rs:316-328 | Of handlers and ticks alone the server is under lockdown if and only if some refusal less than one window back was one too many in the window before it. |
| Defence.RejectedCountsRefusals | crates/signedpulse-server/src/server.rs:316-324 | In every run the counter of rejected packets is the number of refusals, and replays are at most that. |
| Defence.AcceptedIsSpared | crates/signedpulse-server/src/server.rs:422-443 | From an accepted HELLO or RESPONSE on, the gate lets its sender through for the whole time to live, whatever calls come in between, unless its address is blacklisted. |
| Defence.BlockedIffFaulty | crates/signedpulse-server/src/server.rs:330-339 | In the same runs the gate drops a sender as blocked if and only if a faulty packet of its own that starts or extends a block lies less than one block length back; refusals block nobody. |
| Codec.EncodePacket | crates/signedpulse-common/src/protocol.rs:166-205 | Appending field by field gives the packet's encoding, with the param length taken modulo 2^16. |
| Codec.DecodePacket | crates/signedpulse-common/src/protocol.rs:208-273 | Reading field by field gives what the fixed offsets say, with the same errors in the same order. |
| Codec.Reader.Take | crates/signedpulse-common/src/protocol.rs:288-296 | The next bytes and the advanced cursor, or an error that moves nothing. |
| Codec.HelloOnWire | crates/signedpulse-common/src/protocol.rs:166-176 | A HELLO is 122 bytes: 0x5A, 0x20, client id, timestamp, nonce and signature at 2, 34, 42 and 58. |
| Codec.ChallengeOnWire | crates/signedpulse-common/src/protocol.rs:177-182 | A CHALLENGE is 74 bytes: 0x5A, 0x21, client id, nonce and expiry at 2, 34 and 66. |
| Codec.ProofOnWire | crates/signedpulse-common/src/protocol.rs:183-202 | A RESPONSE or BYE is 0x5A, 0x22 or 0x23, client id, nonce, interval, the param length modulo 2^16 at 70, the param and the signature. |
| Codec.RefusedBecause | crates/signedpulse-common/src/protocol.rs:208-273 | Each error exactly for its cause: magic not 0x5A, version not 2, type above 3, too few bytes, or too many, for the length that type and length field demand. |
| Codec.EncodeThenDecode | crates/signedpulse-common/src/protocol.rs:166-273 | Decoding undoes encoding exactly for packets whose param is absent or 1 to 65535 bytes. |
| Codec.DecodeThenEncode | crates/signedpulse-common/src/protocol.rs:208-273 | Every accepted byte string is the encoding of what it decodes to, so decoding is canonical and leaves nothing over. |
| LittleEndian.IntegersRoundTrip | crates/signedpulse-common/src/protocol.rs:300-311 | The integers read back from their little-endian bytes, negative ones included. |
| LittleEndian.LeastFirst | crates/signedpulse-common/src/protocol.rs:300-311 | The first byte is the least significant; the top bit of the last byte of a 64-bit integer is its sign. |
| TextEncodings.ToHex | crates/signedpulse-common/src/protocol.rs:61-68 | The loop computes the lower-case hex form. |
| TextEncodings.HexAt | crates/signedpulse-common/src/protocol.rs:61-68 | Byte i of an id is the digits 2i and 2i+1 of 0123456789abcdef, the high one first. |
| TextEncodings.FromHex | crates/signedpulse-common/src/protocol.rs:71-82 | Trims, requires 64 characters and parses each pair, or fails. |
| TextEncodings.UnhexAcceptsIff | crates/signedpulse-common/src/protocol.rs:71-82 | A text parses exactly when it consists of hex digits of either case, with a plus sign allowed as the first of a pair. |
| TextEncodings.UnhexAt | crates/signedpulse-common/src/protocol.rs:71-82 | Each pair of digits stands for one byte, the high digit first; a plus sign in its place counts as zero. |
| TextEncodings.TrimCuts | crates/signedpulse-common/src/protocol.rs:71-82 | Trimming cuts off all blanks at both ends and nothing else. |
| TextEncodings.ParsedIdOfHex | crates/signedpulse-common/src/protocol.rs:61-82 | The hex form of every 256-bit id parses back to it. |
| TextEncodings.HexInjective | crates/signedpulse-common/src/protocol.rs:61-68 | Different ids have different hex keys. |
| TextEncodings.HexUnhexIff | crates/signedpulse-common/src/protocol.rs:61-82 | A text is the hex form of what it parses to if and only if it consists of digits and lower-case letters. |
| TextEncodings.SameIdIff | crates/signedpulse-common/src/protocol.rs:71-82 | Two accepted texts stand for one id if and only if, trimmed, in lower case and with plus signs read as zeros, they are equal. |
| TextEncodings.PlusTextsCollide | crates/signedpulse-common/src/config.rs:319-334 | For every 31 bytes, two 64-character texts that differ in lower case, as the duplicate check compares them, are accepted as one id. |
| TextEncodings.TwoTextsOneId | crates/signedpulse-common/src/config.rs:319-334 | Such a pair of texts exists. |
| TextEncodings.DecimalSays | crates/signedpulse-common/src/protocol.rs:334-413 | A decimal form reads back as its integer, has no leading zero, and a minus sign exactly for a negative one. |
| TextEncodings.DecimalInjective | crates/signedpulse-common/src/protocol.rs:334-413 | Different integers have different decimal forms. |
| TextEncodings.Base64At | crates/signedpulse-common/src/protocol.rs:334-413 | Three bytes become the four digits of their group, missing bytes being zero and their digits equals signs. |
| TextEncodings.GroupIs | crates/signedpulse-common/src/protocol.rs:334-413 | The four digits of a group are those of one number of 24 bits, the most significant first. |
| TextEncodings.Base64Injective | crates/signedpulse-common/src/protocol.rs:334-413 | Different byte strings have different padded base64 forms. |
| SigningText.HelloTextIs | crates/signedpulse-common/src/protocol.rs:399-413 | The text of a HELLO, line by line. |
| SigningText.ProofTextIs | crates/signedpulse-common/src/protocol.rs:334-390 | The texts of a RESPONSE and a BYE, line by line. |
| SigningText.HelloPayloadInjective | crates/signedpulse-common/src/protocol.rs:399-413 | Equal HELLO texts have equal fields. |
| SigningText.ProofPayloadInjective | crates/signedpulse-common/src/protocol.rs:334-390 | Equal RESPONSE or BYE texts have equal kind and equal fields. |
| SigningText.TextInjective | crates/signedpulse-common/src/protocol.rs:334-413 | Equal signed texts mean the same kind, server, client and fields, for any server id and any newline-free client key. |
| SigningText.NewlineInClientIsAmbiguous | crates/signedpulse-common/src/protocol.rs:399-413 | With a newline in the client key the texts for two servers can coincide. |
| SigningText.SignedTextIsSignedTuple | crates/signedpulse-common/src/protocol.rs:334-413 | A text is among the signed texts exactly when its message is among the signed messages. |
| Placeholders.SequentialIsSimultaneous | crates/signedpulse-server/src/command_runner.rs:69-87 | For unnested templates, replacing one placeholder after the other equals one simultaneous substitution when no value opens a placeholder replaced after its own. |
| Placeholders.OnePassIff | crates/signedpulse-server/src/command_runner.rs:69-87 | When all other values are free of opening braces, one pass is enough for every unnested template if and only if the remaining value opens no later placeholder. |
| Placeholders.HookArgumentIsOnePassIff | crates/signedpulse-server/src/command_runner.rs:69-87 | Whatever the param, the seven replaces substitute every unnested hook argument in one pass if and only if the param does not open {new}, {reason} or {ip_clients}. |
| Placeholders.ArgumentIs | crates/signedpulse-server/src/command_runner.rs:69-87 | Any argument made of the seven placeholders, in any order and number, and of text in which none of them begins, becomes exactly the values they name and that text, for every param that opens no placeholder replaced after it. |
| Placeholders.BuildArgv | crates/signedpulse-server/src/command_runner.rs:90-115 | Each template element is substituted on its own: none is split, joined or dropped; an element that is {ip}, {client_id}, {source_port}, {param}, {new}, {reason} or {ip_clients} becomes that value. |
| Placeholders.OpenedLater | crates/signedpulse-server/src/command_runner.rs:79-86 | For every value that opens a later placeholder there is an unnested template on which one pass is not enough. |
| Placeholders.NestedTemplateIsSubstitutedAgain | crates/signedpulse-server/src/command_runner.rs:79-86 | In a nested template even a brace-free value can complete an outer placeholder, which is then substituted again. |
| Backoff.RunCycle | crates/signedpulse-client/src/client.rs:480-499 | Attempts stop at the first answered one or after all of them, at least one; attempt k waits the k-th backoff. |
| Backoff.FollowsTimerEIff | crates/signedpulse-client/src/client.rs:484-488 | Every wait is Timer E's exactly when T2 <= T1 * 2^31, despite the clamped shift. |
| Backoff.WaitDoubles | crates/signedpulse-client/src/client.rs:484-488 | The first wait is T1, each of the next 31 twice the one before, all capped at T2; from the 32nd on they stay. |
| Backoff.WaitNeverShrinks | crates/signedpulse-client/src/client.rs:484-488 | Waits never get shorter. |
| Backoff.TotalBounded | crates/signedpulse-client/src/client.rs:480-499 | n attempts wait at most n * T2 and at most T1 * (2^n - 1). |

## Left out

- Cryptography (Ed25519, X25519, HKDF, XChaCha20-Poly1305, randomness): an unforgeable signature relation, an inverse pair for sealing, and nonces given as step parameters stand for it.
- Wire framing of whole datagrams, sockets, task scheduling, shutdown, process spawning, hook timeouts and output, logging, status files, service installation and the command line.
- Configuration parsing: values in the ranges the configuration enforces are parameters.
- Decoy signature checks for unknown clients: they have no effect but time.
- Hook execution: a hook either runs or cannot be run; in `Firewall` a hook succeeds within the step of its event, except for the late revokes stated there.
- The receive gate and the inflight limit in the handshake machine: they only drop datagrams, and a datagram that is never delivered is already one of the machine's runs; `Gates` states the gate on its own.
- The last-pulse and last-hook records of the status snapshot, and the rejection counted for a CHALLENGE sent to the server.
- Integer widths of the lockdown counters: deque lengths and the drop counter are unbounded here, where the server casts to 32 bits; window lengths in milliseconds do not wrap.
- HelloAgreement.HelloAcceptedAtMostOnce: takes a handler's clock reading and its cache insert as one step; `SeenCaches.StaleHelloAcceptsIff` says exactly what a delay between the two, with a purge in it, can do.
- HelloLimits.SlidingBound: is about tables without a cap; `HelloLimits.CountedBound` is its form for every cap, and `HelloLimits.KeepsBoundIff` shows that no more holds.
- HelloLimits.PurgeTransparent: is about tables without a cap; `HelloLimits.PurgesInvisibleIff` is exact.
- TextEncodings.FromHex: characters are ASCII; how slicing behaves inside a multi-byte character is not modelled.
- SigningText.TextInjective: needs newline-free client keys, which hex ids are; `SigningText.NewlineInClientIsAmbiguous` shows that the condition is needed.
- Placeholders.HookArgumentIsOnePassIff: is about unnested templates; `Placeholders.NestedTemplateIsSubstitutedAgain` shows why.
- Refinement.ResponseHandlerIsItsTask: the two wall-clock readings of an uninterrupted handler are taken to be equal, as no tick lies between its steps; `Servers.Server.HandleResponse` itself allows them to differ, and so does the handshake machine.
- The client's choice of targets, its main loop and the param command.
