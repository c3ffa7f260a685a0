# Verification of cloudflared's state machines and codecs

A Dafny model of the parts of cloudflared 2026.6.1 whose correctness depends on whole runs or on two pieces of code
undoing each other, and of the sliding-window rate limiter of the accompanying Flask application. `dafny verify
dfyconfig.toml` checks everything.

The seven subjects, one module per source file or component:

1. **Tunnel supervision** (`Supervisor`, `ProtocolFallback`, `EdgeAddresses`, `Backoff`). The supervisor's event loop as
   a state machine over running, waiting and ended tunnels and the chain of connected signals, and as a class whose
   methods make its steps; each connection's protocol fallback under static, default and remote selectors; rotation of
   edge addresses; exponential backoff in wrapping 64-bit arithmetic.
2. **ICMP** (`EchoIds`, `Funnels`, `IcmpProxy`). The cyclic echo-ID allocator over its fixed array, the registry of
   funnels with close callbacks, and both composed.
3. **UDP sessions and flows** (`Sessions`, `FlowLimiter`). The session manager's event loop with the sessions' bounded
   close channels; the flow limiter with everyone who takes slots from it.
4. **Configuration updates** (`Orchestrator`). Versioned all-or-nothing updates and their shutdown channels.
5. **Codecs** (`Headers` over `Base64`; `Identity` over `Numerals`; `Datagrams`; `Socks`).
6. **IP access policy** (`IpAccess`). First match, with bisection over port lists sorted in place.
7. **Rate limiting** (`RateLimiter`).

The pattern is the same throughout: a step or an operation is specified on values, as a function or a predicate on two
states; a class with the source's fields carries it out in place and is proved against it; and the promises are proved
about all runs of the specification. In run lemmas a run is any sequence of states linked by enabled steps, so every
interleaving is covered.

Where the code does not keep what it is meant to keep, the model follows the code, and the exact condition is proved,
mostly with an input that shows it:

- A funnel replacement releases the ID its successor is registered under. Each flow's ID being the one its own key holds
  survives a run if and only if the run contains no replacement (`IcmpProxy.RunKeepsOwn`). A request's replies find the
  requester, over its connection and until its flow is closed, if and only if the request did not join a flow of another
  source or echo ID, nor one of an earlier connection (`RepliesExactly`). Without replacement the former cannot happen;
  `MisdeliveredWitness` is a run where it does, after 131070 requests of one key with no cleanup in between. The latter
  takes no more than a reconnection (`ReconnectWitness`): the comment at ingress/icmp_posix.go:188 speaks of a different
  muxer, but the code compares connection indices, which a reconnection keeps.
- A tunnel that ends for good before it registered blocks the supervisor's grace period for the rest of the run
  (`Supervisor.StuckBegins`, `GraceBlockedForGood`, `GraceBlockedWitness`). This takes a requested shutdown or a cancelled
  context: until then nobody is left behind (`NothingLostBeforeStop`). A first tunnel that is asked to stop and ends with
  nil lets initialization succeed, if that nil is received before the request, with a counter no goroutine backs, and
  `Run` then never returns (`StrandedByNil`). `Run` may return with tunnels waiting (`ReturnOnTunnelEnd`,
  `ReturnWithWaiting`).
- `GetMaxBackoffDuration` reports a flat second once the deadline has elapsed, which bounds the draw if and only if the
  base is small enough (`Backoff.ElapsedReportExactly`, `ReportTooLow`).
- A session that ends by itself unregisters by ID, so it may close another session registered under the same ID, and the
  active gauge is off by one for each such registration (`Sessions.EndClosesOtherExactly`, `GaugeExactly`).
- Each update whose origins fail to start leaves a channel open for good (`Orchestrator.AllClosedExactly`).
- Rules whose port slices overlap in part rearrange each other's ports (`IpAccess.LayoutExactly`, `OverlapWitness`).
- After a fallback and a registration a connection returns to QUIC if and only if at least two retries are allowed
  (`ProtocolFallback.DefaultComesBack`).
- A trace ID of more than 32 bytes makes the padding panic (`Identity.NewIdentityExactly`); a field with line
  breaks may decode with trailing zero bytes (`Headers.SlackExactly`); a name of more than 255 bytes or a port outside
  16 bits does not survive a SOCKS5 reply (`Socks.AddressRoundTripExactly`).

## Model

| member | source | states |
|---|---|---|
| Supervisor.InitialInv | cloudflared-2026.6.1/supervisor/supervisor.go:138-139 | The loop starts with its books in order exactly when the first tunnel connected and at least one connection is configured; never when the first tunnel ended with nil |
| Supervisor.NextKeepsInv | cloudflared-2026.6.1/supervisor/supervisor.go:144-199 | Every case of the select keeps the invariant: census of the indices, exact counter, timer, signal chain |
| Supervisor.RunKeepsInv | cloudflared-2026.6.1/supervisor/supervisor.go:138-199 | The invariant holds in every state of every run, of any length and order of events |
| Supervisor.TunnelsAccountedFor | cloudflared-2026.6.1/supervisor/supervisor.go:138-199 | In every reachable state the counter is the number of goroutines yet to hand over an error; every index below haConnections is in exactly one place, once, and no other index anywhere; the timer is pending exactly when someone waits; Run's return ends the run, with nobody left to block on a send |
| Supervisor.SignalChain | cloudflared-2026.6.1/supervisor/supervisor.go:313-330 | In every reachable state the next signal is nil exactly when nobody is connecting, and else is the entry under nextConnectedIndex; no waiting index is connecting |
| Supervisor.ReconnectsAtOnce | cloudflared-2026.6.1/supervisor/supervisor.go:161-165 | In every run a tunnel that ends with a reconnect signal outside shutdown runs again at once: the pool is unchanged, and the tunnel is connecting under a signal made in that step, which is the next one |
| Supervisor.FailureWaits | cloudflared-2026.6.1/supervisor/supervisor.go:167-176 | In every run a tunnel that fails, neither in shutdown nor cancelled, stops running and joins the end of the waiting list with the timer pending; it is not connecting any more and everyone else still is |
| Supervisor.EndedForGood | cloudflared-2026.6.1/supervisor/supervisor.go:156-181 | In every run a tunnel that ends with nil, in shutdown, or fails with the context cancelled has ended for good, and nothing else changes |
| Supervisor.AllStartAgain | cloudflared-2026.6.1/supervisor/supervisor.go:183-189 | In every run, when the timer fires everyone who waited runs again, each connecting under a new signal of its own, the last one's being next; nobody waits and nobody else is affected |
| Supervisor.OtherEventsDoNoMore | cloudflared-2026.6.1/supervisor/supervisor.go:146-198 | In every run a connected signal takes exactly its index out of the connecting map, and cancellation ends every running tunnel and Run |
| Supervisor.ReadyExactly | cloudflared-2026.6.1/supervisor/supervisor.go:146-198 | In every state of every run: what the select may take next |
| Supervisor.InitiallyConnecting | cloudflared-2026.6.1/supervisor/supervisor.go:235-244 | After initialization exactly the indices but the first are connecting, and the last one's signal is next |
| Supervisor.StuckBegins | cloudflared-2026.6.1/supervisor/supervisor.go:156-181 | A tunnel is left behind in the connecting map exactly when it ends for good, unregistered, while its signal is awaited: with nil, during shutdown, or with the context cancelled |
| Supervisor.NothingLostBeforeStop | cloudflared-2026.6.1/supervisor/supervisor.go:156-181 | In every run, until a graceful shutdown is requested or the context cancelled, every configured index is running or waiting, everyone in the connecting map is running, so nobody is left behind, and Run has not returned |
| Supervisor.GraceBlockedForGood | cloudflared-2026.6.1/supervisor/supervisor.go:191-195 | A tunnel left behind stays so for the whole rest of the run, and from then on the grace period is never set, however often it was before |
| Supervisor.GraceBlockedWitness | cloudflared-2026.6.1/supervisor/supervisor.go:191-195 | A run of five steps after which every running tunnel has registered and nobody waits, but a tunnel asked to stop was left behind and the grace period is not set |
| Supervisor.ReturnOnTunnelEnd | cloudflared-2026.6.1/supervisor/supervisor.go:177-181 | Run returns on a tunnel's end exactly when that was the last running one and it ended with nil or during shutdown; the waiting list is left as it is |
| Supervisor.ReturnWithWaiting | cloudflared-2026.6.1/supervisor/supervisor.go:177-181 | A run of two tunnels in which Run returns, on request, while tunnel 0 still waits |
| Supervisor.StrandedByNil | cloudflared-2026.6.1/supervisor/supervisor.go:227-228 | If initialize returns the nil of a first tunnel that was asked to stop, the counter stays haConnections ahead of the goroutines and Run never returns, whatever happens |
| Supervisor.NextKeepsGap | cloudflared-2026.6.1/supervisor/supervisor.go:144-199 | No step changes by how much the counter exceeds the goroutines, and the loop returns only if it does not |
| Supervisor.GraceSetExactly | cloudflared-2026.6.1/supervisor/supervisor.go:191-195 | In every run, each time: the grace period is set exactly when the signal of the only tunnel left in the connecting map fires and nobody waits; every running tunnel has then registered since it was last started |
| Supervisor.RunKeepsFollowed | cloudflared-2026.6.1/supervisor/supervisor.go:303-330 | In every reachable state a running tunnel has registered since its latest start or is awaited under that start's own signal |
| Supervisor.NewSignalsKeep | cloudflared-2026.6.1/supervisor/supervisor.go:183-187 | Starting several tunnels in a row keeps the signal chain and adds exactly their indices to the connecting map |
| Supervisor.LaterIndicesAre | cloudflared-2026.6.1/supervisor/supervisor.go:235-244 | The first index and the ones started after it are exactly 0 to haConnections - 1, once each |
| Supervisor.EventLoop.Initialize | cloudflared-2026.6.1/supervisor/supervisor.go:205-246 | Starting indices 1 to haConnections - 1 leaves exactly the initial state of a run |
| Supervisor.EventLoop.NewConnectedTunnelSignal | cloudflared-2026.6.1/supervisor/supervisor.go:313-319 | A fresh signal becomes both the index's entry and the next one |
| Supervisor.EventLoop.StartTunnel | cloudflared-2026.6.1/supervisor/supervisor.go:303-311 | A new signal and one more running goroutine, nothing else |
| Supervisor.EventLoop.WaitForNextTunnel | cloudflared-2026.6.1/supervisor/supervisor.go:321-330 | The index is forgotten; some other connecting tunnel is next, if there is one, and the result says so |
| Supervisor.EventLoop.DrainTunnels | cloudflared-2026.6.1/supervisor/supervisor.go:148-153 | On cancellation exactly as many errors are received as the counter says, and none is left |
| Supervisor.EventLoop.WaitForRetry | cloudflared-2026.6.1/supervisor/supervisor.go:171-176 | The index goes to the end of the waiting list, the timer is pending, and the signal chain moves on |
| Supervisor.EventLoop.HandleTunnelError | cloudflared-2026.6.1/supervisor/supervisor.go:156-181 | The whole case of a tunnel error is the step of the state machine |
| Supervisor.EventLoop.HandleFailure | cloudflared-2026.6.1/supervisor/supervisor.go:159-176 | A failed tunnel is started again at once, given up or put on the waiting list |
| Supervisor.EventLoop.StartEach | cloudflared-2026.6.1/supervisor/supervisor.go:185-187 | The loop starts every given tunnel, in order |
| Supervisor.EventLoop.HandleBackoff | cloudflared-2026.6.1/supervisor/supervisor.go:183-189 | The timer's case is the step of the state machine |
| Supervisor.EventLoop.HandleConnected | cloudflared-2026.6.1/supervisor/supervisor.go:191-195 | The connected case is the step of the state machine |
| Supervisor.EventLoop.TakeCase | cloudflared-2026.6.1/supervisor/supervisor.go:145-199 | Whichever case the select takes, the object makes that step of the state machine |
| Supervisor.EventLoop.Handle | cloudflared-2026.6.1/supervisor/supervisor.go:145-199 | A turn of the loop is such a step and keeps the invariant |
| Supervisor.Run | cloudflared-2026.6.1/supervisor/supervisor.go:112-200 | Under any sequence of happenings the loop takes exactly those that are ready in the state they meet, in order, and its states form a run of these; no goroutine is left running once it returned |
| ProtocolFallback.FallbackIsHTTP2 | cloudflared-2026.6.1/supervisor/tunnel.go:296-354 | After any run of selections, registrations and ends of Serve, a connection in fallback uses HTTP2, whatever the selectors answered on the way |
| ProtocolFallback.FallbackSticks | cloudflared-2026.6.1/supervisor/tunnel.go:309-354 | From fallback on it stays on HTTP2 and in fallback until it registers |
| ProtocolFallback.StaticNeverChanges | cloudflared-2026.6.1/connection/protocol.go:110-120 | Under a static selector, or a default one for HTTP2, no run changes the protocol or enters fallback |
| ProtocolFallback.DefaultComesBack | cloudflared-2026.6.1/supervisor/tunnel.go:241-354 | Under a default selector for QUIC a connection is on HTTP2 only in fallback or after a registration; after any run, one that registers and then ends asking for another protocol is on QUIC exactly if at least two retries are allowed |
| ProtocolFallback.EveryChangeHasReason | cloudflared-2026.6.1/supervisor/tunnel.go:266-354 | Every change of protocol in every run is either the fallback from QUIC to HTTP2 that a selection called for, or follows the selector's answer outside fallback |
| ProtocolFallback.ServeFallsBackExactly | cloudflared-2026.6.1/supervisor/tunnel.go:241-354 | Exactly when the end of a tunnel costs a connection QUIC while QUIC is broken and HTTP2 on offer; a registration ends the fallback and forgets the retries |
| ProtocolFallback.RemoteExactly | cloudflared-2026.6.1/connection/protocol.go:157-195 | Until its deadline, or without a fetch, a remote selector answers what it did; the first call after it that fetches gives the first protocol above the threshold or the first of the pool, for another ttl |
| ProtocolFallback.GetProtocolExactly | cloudflared-2026.6.1/connection/protocol.go:181-195 | The protocol picked is above the threshold with none before it above; or none is above and it is the first of the pool |
| ProtocolFallback.PickProtocol | cloudflared-2026.6.1/connection/protocol.go:186-194 | The loop over the pool picks that protocol |
| ProtocolFallback.RemoteProtocolSelector.constructor | cloudflared-2026.6.1/connection/protocol.go:138-155 | The selector keeps its answer for ttl from now on |
| ProtocolFallback.RemoteProtocolSelector.CurrentProtocol | cloudflared-2026.6.1/connection/protocol.go:157-173 | The answer and the whole new state of the selector, before its deadline, on a failed fetch and on a refresh |
| ProtocolFallback.TunnelConnection.constructor | cloudflared-2026.6.1/supervisor/supervisor.go:236-241 | A new connection is out of fallback with a new backoff handler |
| ProtocolFallback.TunnelConnection.Select | cloudflared-2026.6.1/supervisor/tunnel.go:317-354 | The method makes the specified selection in place |
| ProtocolFallback.TunnelConnection.OnConnected | cloudflared-2026.6.1/supervisor/tunnel.go:304-307 | Registration resets the backoff and leaves fallback |
| EdgeAddresses.IPAddrFallback.ShouldGetNewAddress | cloudflared-2026.6.1/supervisor/tunnel.go:154-176 | The verdict in terms of all calls so far: a network error reaches the maximum exactly when it is its index's (maxRetries + 1)-st, 2 (maxRetries + 1)-st and so on; duplicate connections and idle timeouts always move on |
| EdgeAddresses.IPAddrFallback.constructor | cloudflared-2026.6.1/supervisor/tunnel.go:138-143 | Nothing is counted yet |
| EdgeAddresses.ReachedCount | cloudflared-2026.6.1/supervisor/tunnel.go:167-173 | Of the network errors of one index exactly every (maxRetries + 1)-st is reported as the maximum |
| EdgeAddresses.WhoAsks | cloudflared-2026.6.1/supervisor/tunnel.go:157-176 | Every error but the unlisted ones asks for another address; exactly dial errors count towards the maximum |
| EdgeAddresses.VerdictsStay | cloudflared-2026.6.1/supervisor/tunnel.go:154-176 | A verdict is decided by the calls up to it; later calls do not change it |
| Backoff.RetriesAreDraws | cloudflared-2026.6.1/retry/backoffhandler.go:70-85 | After any run of timers, grace periods and resets the retries are the draws since the last reset capped at maxRetries |
| Backoff.DrawBounded | cloudflared-2026.6.1/retry/backoffhandler.go:70-85 | The k-th draw since the last reset is below base * 2^min(k, maxRetries), after any run; there is no timer exactly when retries are limited and used up |
| Backoff.GraceThenTimers | cloudflared-2026.6.1/retry/backoffhandler.go:70-110 | A grace period draws a time d below base * 2^(retries + 2); timers up to d after it count on from the retries there were, and from the first later one counting starts over |
| Backoff.ResetThenTimers | cloudflared-2026.6.1/retry/backoffhandler.go:70-131 | A reset forgets the retries; timers at the same time count on from there, and from the first later one counting starts over |
| Backoff.StillFits | cloudflared-2026.6.1/retry/backoffhandler.go:70-131 | Every state of every run is one these two are about |
| Backoff.DefaultBaseDraw | cloudflared-2026.6.1/retry/backoffhandler.go:112-117 | Without a base time the first draw is below two seconds |
| Backoff.ReportBoundsDraw | cloudflared-2026.6.1/retry/backoffhandler.go:49-66 | Outside the elapsed case the reported maximum is above the draw made in the same state, and is reported exactly when there is a draw |
| Backoff.ElapsedReportExactly | cloudflared-2026.6.1/retry/backoffhandler.go:57-60 | Once the deadline has elapsed the report is one second, and it bounds every draw exactly when base * 2^min(1, maxRetries) is at most a second |
| Backoff.ReportTooLow | cloudflared-2026.6.1/retry/backoffhandler.go:57-60 | With a base of one second a wait of 1.5 seconds is drawn while one second is reported |
| Backoff.BoundsWrapped | cloudflared-2026.6.1/retry/backoffhandler.go:82-105 | The two bounds, computed in wrapping 64-bit arithmetic, are the wrapped power-of-two multiples of the base |
| Backoff.ShiftsPositive | cloudflared-2026.6.1/retry/backoffhandler.go:64-105 | No shift overflows and nothing panics, in any state, if base * 2^(maxRetries + 2) is below 2^63 |
| Backoff.NonePanicsExactly | cloudflared-2026.6.1/retry/backoffhandler.go:70-85 | The first n draws of a new handler all succeed if and only if base * 2^min(n, maxRetries) is below 2^63 |
| Backoff.BackoffHandler.constructor | cloudflared-2026.6.1/retry/backoffhandler.go:40-47 | A new handler has no retries and no deadline |
| Backoff.BackoffHandler.GetMaxBackoffDuration | cloudflared-2026.6.1/retry/backoffhandler.go:49-66 | The report, in its four cases |
| Backoff.BackoffHandler.BackoffTimer | cloudflared-2026.6.1/retry/backoffhandler.go:70-85 | The new state and the draw |
| Backoff.BackoffHandler.SetGracePeriod | cloudflared-2026.6.1/retry/backoffhandler.go:104-110 | The new deadline, a drawn time ahead |
| Backoff.BackoffHandler.Reset | cloudflared-2026.6.1/retry/backoffhandler.go:128-131 | No retries, and a deadline of now |
| EchoIds.GetOrAssignExactly | cloudflared-2026.6.1/ingress/icmp_darwin.go:56-83 | Keeps the invariant; a held key keeps its ID and nothing changes; a new key gets the free ID fewest steps on from nextAssignment, going round from 65534 to 0, and the cursor moves behind it; refusal means every ID is held |
| EchoIds.ReusedLast | cloudflared-2026.6.1/ingress/icmp_darwin.go:56-103 | In every run an ID is handed out again as late as possible: by then every other ID has been held at some time since |
| EchoIds.PassedWereHeld | cloudflared-2026.6.1/ingress/icmp_darwin.go:56-103 | In every run every ID the cursor passed since it handed one out has been held since |
| EchoIds.RunKeepsInv | cloudflared-2026.6.1/ingress/icmp_darwin.go:38-103 | The allocator's invariant holds in every state of every run of assignments and releases |
| EchoIds.RefusedIffFull | cloudflared-2026.6.1/ingress/icmp_darwin.go:56-83 | A new key is refused exactly when 65535 keys hold IDs |
| EchoIds.ReleaseExactly | cloudflared-2026.6.1/ingress/icmp_darwin.go:92-103 | Frees the ID of the key that holds it, and is without effect for any other pair |
| EchoIds.AssignThenRelease | cloudflared-2026.6.1/ingress/icmp_darwin.go:56-103 | Assigning to a new key and releasing leaves only the cursor changed |
| EchoIds.SetKeepsInv | cloudflared-2026.6.1/ingress/icmp_darwin.go:86-90 | Setting a free ID for a new key keeps the mapping injective and the array exact |
| EchoIds.FirstFree | cloudflared-2026.6.1/ingress/icmp_darwin.go:66-82 | One search loop as a function: everything before the result is taken, the result is free |
| EchoIds.EchoIDTracker.constructor | cloudflared-2026.6.1/ingress/icmp_darwin.go:49-53 | An array of 65535 free IDs and an empty map |
| EchoIds.EchoIDTracker.GetOrAssignID | cloudflared-2026.6.1/ingress/icmp_darwin.go:56-83 | The two loops over the fixed array compute the specified assignment |
| EchoIds.EchoIDTracker.SetID | cloudflared-2026.6.1/ingress/icmp_darwin.go:86-90 | Array, map and cursor after an assignment |
| EchoIds.EchoIDTracker.ReleaseID | cloudflared-2026.6.1/ingress/icmp_darwin.go:92-103 | The specified release, in place |
| IcmpProxy.OwnExactly | cloudflared-2026.6.1/ingress/icmp_darwin.go:130-168 | Every tracked flow's ID being the one its own key holds survives a step exactly when the step does not replace a funnel |
| IcmpProxy.RunKeepsOwn | cloudflared-2026.6.1/ingress/icmp_darwin.go:130-168 | A run keeps this throughout exactly when it never replaces a funnel |
| IcmpProxy.RepliesFindTheirRequester | cloudflared-2026.6.1/ingress/icmp_darwin.go:254-270 | Runs from the start without replacement: a reply under a held ID goes to the source of the key that holds it with that key's echo ID, any other is dropped, and no ID is leaked |
| IcmpProxy.RequestThenReply | cloudflared-2026.6.1/ingress/icmp_darwin.go:130-168 | In any reachable state, after replacements too: a request is refused exactly when its key is new and all IDs are held; otherwise, until its flow is closed and whatever else happens, a reply is returned to the requester, over its connection and with its echo ID, exactly if the request joined neither a flow of another source or echo ID nor one of an earlier connection |
| IcmpProxy.RepliesExactly | cloudflared-2026.6.1/ingress/icmp_darwin.go:254-270 | The same after every run; after a run without replacement no request joins a flow of another source or echo ID, so that only the connection can be wrong |
| IcmpProxy.ReconnectWitness | cloudflared-2026.6.1/ingress/icmp_posix.go:188-200 | A key that keeps asking after its tunnel reconnected under the same index: nothing is replaced, every request keeps the flow active, and all replies go to the old connection |
| IcmpProxy.MisdeliveredWitness | cloudflared-2026.6.1/ingress/icmp_posix.go:177-202 | A run in which the reply to one source is returned to another: a key alternates between two connections until the cursor is at the end of the IDs, and another source asks next |
| IcmpProxy.AlternatingAbandons | cloudflared-2026.6.1/ingress/icmp_posix.go:177-202 | What such alternation leaves, after any number of rounds: flows under IDs nobody holds |
| IcmpProxy.FlowStaysExactly | cloudflared-2026.6.1/ingress/icmp_posix.go:177-202 | A flow keeps its connection, source and echo ID through a step exactly if the step does not replace it or clean it up |
| IcmpProxy.RunKeepsLabels | cloudflared-2026.6.1/ingress/icmp_darwin.go:130-168 | In every run, replacements included, every flow is tracked under the ID it sends with |
| IcmpProxy.OwnersJoinTheirOwn | cloudflared-2026.6.1/ingress/icmp_darwin.go:130-168 | In an owned state no request joins a foreign flow |
| IcmpProxy.RequestLeavesFlow | cloudflared-2026.6.1/ingress/icmp_posix.go:95-121 | In any reachable state: the flow a request goes out on, joined or new, and that no other flow is touched |
| IcmpProxy.ReplacementFreesID | cloudflared-2026.6.1/ingress/icmp_posix.go:177-202 | After a replacement the new flow is tracked under an ID its key no longer holds and anyone may get |
| IcmpProxy.ReplacementWitness | cloudflared-2026.6.1/ingress/icmp_posix.go:177-202 | The same key asking over another connection is a replacement and loses ownership |
| IcmpProxy.CloseAllKeepsOwn | cloudflared-2026.6.1/packet/funnel.go:90-102 | Closing any funnels in any order keeps ownership |
| IcmpProxy.StepKeepsIds | cloudflared-2026.6.1/ingress/icmp_darwin.go:130-168 | The allocator's invariant holds after every step, replacements included |
| IcmpProxy.NoLeak | cloudflared-2026.6.1/ingress/icmp_darwin.go:130-168 | In an owned state there are as many held IDs as flows |
| Funnels.FunnelTracker.GetOrRegisterFunnel | cloudflared-2026.6.1/packet/funnel.go:114-135 | Who is in the registry afterwards, what is returned and who was closed, also when making the new funnel fails after the old one was closed |
| Funnels.FunnelTracker.Unregister | cloudflared-2026.6.1/packet/funnel.go:138-151 | Closes and drops the funnel under the ID exactly if it equals the given one; the result says whether the ID is free |
| Funnels.FunnelTracker.Insert | cloudflared-2026.6.1/packet/funnel.go:133-133 | The funnel is taken in under the ID |
| Funnels.FunnelTracker.Traffic | cloudflared-2026.6.1/packet/funnel.go:48-50 | Only the last activity of the funnel under the ID changes |
| Funnels.FunnelTracker.Cleanup | cloudflared-2026.6.1/packet/funnel.go:90-102 | Does what the registry's cleanup says, closing each dropped funnel once |
| Funnels.CleanupExactly | cloudflared-2026.6.1/packet/funnel.go:90-102 | In every run a cleanup drops a funnel exactly if more than the timeout has passed since it was taken in or last had traffic, as the operations tell; the others stay |
| Funnels.LastActivity | cloudflared-2026.6.1/packet/funnel.go:48-56 | Every funnel there is was activated by some operation and has been there since without traffic |
| Funnels.RegisterExactly | cloudflared-2026.6.1/packet/funnel.go:114-135 | In every run: when a funnel stays, is replaced by a new one, or goes because making that fails; other IDs are not affected |
| Funnels.UnregisterExactly | cloudflared-2026.6.1/packet/funnel.go:138-151 | In every run a funnel is unregistered exactly if it equals the given one |
| Funnels.RunExists | cloudflared-2026.6.1/packet/funnel.go:90-151 | Any operations have such a run, and it ends in what Run says |
| Funnels.FunnelTracker.CloseAndDelete | cloudflared-2026.6.1/packet/funnel.go:93-99 | Closes the one funnel and drops it |
| Funnels.FunnelTracker.CloseIfIdle | cloudflared-2026.6.1/packet/funnel.go:93-99 | One turn of the cleanup loop |
| Funnels.FunnelTracker.constructor | cloudflared-2026.6.1/packet/funnel.go:70-74 | An empty registry |
| Funnels.LeavingIsClosing | cloudflared-2026.6.1/packet/funnel.go:90-151 | An operation closes exactly the funnels it takes out of the registry, each once, and never one it takes in or one that left before |
| Funnels.ClosedExactlyOnce | cloudflared-2026.6.1/packet/funnel.go:90-151 | After any operations at any times every funnel ever taken in is still there and was never closed, or is gone and was closed exactly once |
| Funnels.AnyRun | cloudflared-2026.6.1/packet/funnel.go:90-151 | The tracker under any operations at any times, on new objects, is what the run of the registry says, and so has closed each funnel it took in as often |
| Funnels.Perform | cloudflared-2026.6.1/packet/funnel.go:90-151 | One operation on the tracker is one step of the registry |
| FlowLimiter.CounterIsHolders | cloudflared-2026.6.1/flow/limiter.go:42-64 | Over every interleaving, of any length, the counter is the number of flows admitted and not ended |
| FlowLimiter.SlotsExactly | cloudflared-2026.6.1/flow/limiter.go:42-72 | In every run a release takes exactly one off the counter, never meeting the zero guard, and a start is admitted exactly when unlimited or below the limit then in force |
| FlowLimiter.AdmittedExactly | cloudflared-2026.6.1/flow/limiter.go:42-72 | In every run a flow that starts is admitted exactly if the limit last set, by the events alone, is 0 or more than the flows in progress |
| FlowLimiter.LimitIsLastSet | cloudflared-2026.6.1/flow/limiter.go:66-72 | In every run the limit in force is the one last set |
| FlowLimiter.NeverAboveHighestLimit | cloudflared-2026.6.1/flow/limiter.go:42-72 | However the limit changes, in runs of any length, there are never more flows than the highest limit so far |
| FlowLimiter.StepCounts | cloudflared-2026.6.1/connection/quic_datagram_v2.go:122-174 | One step of any flow keeps counter and holders equal |
| FlowLimiter.LosesCountExactly | cloudflared-2026.6.1/flow/limiter.go:42-53 | They come apart exactly when an unlimited limiter admits flow number 2^64 |
| FlowLimiter.FlowLimiter.constructor | cloudflared-2026.6.1/flow/limiter.go:33-39 | Nothing admitted yet |
| FlowLimiter.FlowLimiter.AcquireSlot | cloudflared-2026.6.1/flow/limiter.go:42-53 | Succeeds exactly when there is a free slot, and then the flow is one of the holders the counter counts |
| FlowLimiter.FlowLimiter.ReleaseSlot | cloudflared-2026.6.1/flow/limiter.go:55-64 | For a flow that holds a slot exactly one less, the zero guard never being met |
| FlowLimiter.FlowLimiter.SetNewLimit | cloudflared-2026.6.1/flow/limiter.go:66-72 | The new limit; the counter is kept |
| FlowLimiter.RegisterUDPSession | cloudflared-2026.6.1/connection/quic_datagram_v2.go:122-174 | Whatever other flows do between its steps, a registration holds a slot afterwards exactly if the session was registered, and the counter still counts the holders |
| FlowLimiter.ServeThenRelease | cloudflared-2026.6.1/connection/quic_datagram_v2.go:171-174 | Whatever others do meanwhile, the slot is given back when serving ends |
| FlowLimiter.FlowLimiter.ByOthers | cloudflared-2026.6.1/flow/limiter.go:42-72 | Any calls of other flows leave a flow's slot to it, and give it none |
| FlowLimiter.ProxyTCP | cloudflared-2026.6.1/proxy/proxy.go:155-180 | Refused, failed or finished, and whatever other flows do meanwhile, it holds no slot afterwards |
| Sessions.CloseNeverBlocks | cloudflared-2026.6.1/datagramsession/session.go:52-149 | In every state of every run whoever is going to send finds room: at most two values are ever sent to one session's channel, re-registered IDs included |
| Sessions.StepsExactly | cloudflared-2026.6.1/datagramsession/session.go:52-149 | What each step of every run does to the session it is about, the others being left alone; told to stop by the remote a session asks for nothing more, after any other reason it unregisters its ID, and a shutdown tells every tracked session as if by the remote |
| Sessions.NextKeepsInv | cloudflared-2026.6.1/datagramsession/manager.go:75-180 | Every step of manager, readers and serving goroutines keeps the invariant |
| Sessions.RunKeepsInv | cloudflared-2026.6.1/datagramsession/manager.go:75-180 | The invariant holds in every state of every run |
| Sessions.GaugeExactly | cloudflared-2026.6.1/datagramsession/manager.go:128-133 | The active gauge is the number of tracked sessions, and zero after shutdown, exactly if no registration replaced a tracked session |
| Sessions.FinishedIsForgotten | cloudflared-2026.6.1/connection/quic_datagram_v2.go:195-214 | In every run a finished session is no longer tracked, unless its own request to unregister timed out or the manager has received it and is just carrying it out |
| Sessions.EndClosesOtherExactly | cloudflared-2026.6.1/connection/quic_datagram_v2.go:195-214 | When the manager carries out the request of a session that ended by itself, whatever others did since it was handed over, it closes another session exactly when the ID is tracked for another one |
| Sessions.NothingElseProcessed | cloudflared-2026.6.1/datagramsession/manager.go:75-91 | A manager that received a request does nothing else until it has carried it out, whatever the sessions do |
| Sessions.EndClosesOtherWitness | cloudflared-2026.6.1/connection/quic_datagram_v2.go:195-214 | A run of five steps in which that happens |
| Sessions.UnregisterThenShutdown | cloudflared-2026.6.1/datagramsession/manager.go:93-108 | Closing one session first makes no difference to what shutdown leaves |
| Sessions.SessionManager.constructor | cloudflared-2026.6.1/datagramsession/manager.go:57-68 | No sessions |
| Sessions.SessionManager.Register | cloudflared-2026.6.1/datagramsession/manager.go:128-133 | A new session object under the ID, replacing any other |
| Sessions.SessionManager.Close | cloudflared-2026.6.1/datagramsession/session.go:147-149 | One send, for which there must be room |
| Sessions.SessionManager.Unregister | cloudflared-2026.6.1/datagramsession/manager.go:173-180 | Forgets and closes the tracked session; its send always finds room |
| Sessions.SessionManager.Receive | cloudflared-2026.6.1/datagramsession/manager.go:87-88 | A request to unregister is received; nothing else changes |
| Sessions.SessionManager.ProcessRequest | cloudflared-2026.6.1/datagramsession/manager.go:87-88 | The received request is carried out, and the event loop is back at its select |
| Sessions.SessionManager.Shutdown | cloudflared-2026.6.1/datagramsession/manager.go:93-108 | The loop over the sessions closes every tracked one exactly once, as if by the remote |
| Orchestrator.UpdateAllOrNothing | cloudflared-2026.6.1/orchestration/orchestrator.go:78-123 | An update answers with the version in force afterwards and is taken over, as a whole, exactly if it is newer, valid and startable before shutdown; otherwise proxy, configuration, limit and version stay |
| Orchestrator.UpdateIngressExactly | cloudflared-2026.6.1/orchestration/orchestrator.go:150-201 | Exactly when an update of the ingress succeeds |
| Orchestrator.VersionsIncrease | cloudflared-2026.6.1/orchestration/orchestrator.go:78-123 | Over a run versions never go down, and two different applied updates have different ones |
| Orchestrator.ChannelsExactly | cloudflared-2026.6.1/orchestration/orchestrator.go:133-201 | In every state of every run no channel is closed twice; of those applied exactly the latest is open, and none after the final close; the limit is the stored one and, when set, the local flag's |
| Orchestrator.AllClosedExactly | cloudflared-2026.6.1/orchestration/orchestrator.go:170-196 | In the end every channel made was closed exactly if no update failed to start its origins |
| Orchestrator.FailedStartWitness | cloudflared-2026.6.1/orchestration/orchestrator.go:170-178 | A run in which a channel stays open for good |
| Orchestrator.FinalAfterShutdown | cloudflared-2026.6.1/orchestration/orchestrator.go:151-155 | From the final close of the last proxy on, no event of any run changes anything |
| Orchestrator.NewOrchestratorInv | cloudflared-2026.6.1/orchestration/orchestrator.go:51-75 | What the constructor returns satisfies the invariant |
| Orchestrator.StartsFromLocal | cloudflared-2026.6.1/orchestration/orchestrator.go:51-75 | A new orchestrator has the local rules or the default ones, the local limit or the flag's, no version and one open channel; or there is none |
| Orchestrator.StopsExactly | cloudflared-2026.6.1/orchestration/orchestrator.go:268-277 | In every run the final close closes the one open channel and changes nothing else |
| Orchestrator.UpdateKeepsInv | cloudflared-2026.6.1/orchestration/orchestrator.go:78-123 | Every update keeps it |
| Orchestrator.RunKeepsInv | cloudflared-2026.6.1/orchestration/orchestrator.go:78-123 | It holds in every state of every run |
| Orchestrator.Orchestrator.constructor | cloudflared-2026.6.1/orchestration/orchestrator.go:51-75 | The state before the constructor's own update |
| Orchestrator.Orchestrator.CloseChannel | cloudflared-2026.6.1/orchestration/orchestrator.go:196-199 | Closes a channel that has not been closed |
| Orchestrator.Orchestrator.Ingress | cloudflared-2026.6.1/orchestration/orchestrator.go:150-201 | The update in place; it never closes a channel twice |
| Orchestrator.Orchestrator.Update | cloudflared-2026.6.1/orchestration/orchestrator.go:78-123 | Version check, parsing and update in place, keeping the invariant |
| Orchestrator.Orchestrator.WaitToCloseLastProxy | cloudflared-2026.6.1/orchestration/orchestrator.go:268-277 | Closes the open channel, once |
| Headers.RoundTrip | cloudflared-2026.6.1/connection/header.go:115-147 | Reading what was written gives exactly the pairs in order, empty names and values included |
| Headers.WireFormat | cloudflared-2026.6.1/connection/header.go:100-108 | The text of two pairs, byte by byte |
| Headers.MapSurvives | cloudflared-2026.6.1/connection/header.go:69-147 | For every header map and iteration order the reader gets, for each name, exactly its values in order, and nothing for any other |
| Headers.SerializeHeaders | cloudflared-2026.6.1/connection/header.go:69-112 | The two passes, possibly in different map orders, write the text of the second pass's pairs; the scratch buffer always suffices |
| Headers.DeserializeHeaders | cloudflared-2026.6.1/connection/header.go:115-147 | The loop over the parts reads the specified pairs or fails on the first bad one |
| Headers.Measure | cloudflared-2026.6.1/connection/header.go:71-86 | The sizing pass computes the specified size and the longest single encoding |
| Headers.MeasureValues | cloudflared-2026.6.1/connection/header.go:74-86 | Its inner loop |
| Headers.SizeIsLengthPlusOne | cloudflared-2026.6.1/connection/header.go:71-88 | The computed size is the real length, plus one when there is a pair |
| Headers.SizeIsOrderFree | cloudflared-2026.6.1/connection/header.go:73-86 | Both figures are the same for every iteration order of the map |
| Headers.NoSlack | cloudflared-2026.6.1/connection/header.go:131-139 | A decode buffer of DecodedLen bytes is exactly filled by what was encoded |
| Headers.SlackExactly | cloudflared-2026.6.1/connection/header.go:131-139 | On any input the buffer is the decoding and then zero bytes; there are none exactly when dropping the line breaks does not change DecodedLen |
| Headers.SlackWitness | cloudflared-2026.6.1/connection/header.go:131-139 | A field with a line break that decodes with a zero byte nobody sent |
| Headers.AppendValues | cloudflared-2026.6.1/connection/header.go:100-108 | The inner loop of the second pass |
| Headers.AppendPair | cloudflared-2026.6.1/connection/header.go:102-107 | One pair with its delimiters |
| Headers.WriteB64 | cloudflared-2026.6.1/connection/header.go:91-98 | One encoding through the scratch buffer |
| Headers.FieldsFit | cloudflared-2026.6.1/connection/header.go:89-98 | Every field of the map fits the scratch buffer |
| Headers.TextParts | cloudflared-2026.6.1/connection/header.go:119-124 | Splitting the text at the semicolons gives the pair texts |
| Headers.PairRoundTrip | cloudflared-2026.6.1/connection/header.go:124-145 | One pair reads back |
| Headers.PairsCarryValues | cloudflared-2026.6.1/connection/header.go:100-108 | The pairs carry each name's values, once, in order |
| Headers.ErrStays | cloudflared-2026.6.1/connection/header.go:124-134 | One bad pair makes the whole reading fail |
| Base64.RoundTrip | cloudflared-2026.6.1/connection/header.go:50-50 | Decoding undoes unpadded base64 encoding (sections 3.2 and 4 of RFC 4648), for every byte string |
| Base64.EncodePlain | cloudflared-2026.6.1/connection/header.go:119-124 | An encoding contains no delimiter and no line break |
| Base64.EncodeLength | cloudflared-2026.6.1/connection/header.go:77-78 | The encoding has EncodedLen characters |
| Base64.DecodedLenOfEncoded | cloudflared-2026.6.1/connection/header.go:131-131 | DecodedLen of EncodedLen is the original length |
| Base64.DecodeLength | cloudflared-2026.6.1/connection/header.go:131-139 | A decoding has DecodedLen bytes |
| Base64.EncodeInto | cloudflared-2026.6.1/connection/header.go:95-97 | Encoding in groups of three into an array gives the specified characters |
| Base64.Vectors | cloudflared-2026.6.1/connection/header.go:50-50 | Values from section 10 of RFC 4648 without padding |
| Base64.AlphabetVectors | cloudflared-2026.6.1/connection/header.go:50-50 | Both ends of the standard alphabet |
| Text.SplitCut | cloudflared-2026.6.1/connection/header.go:119-124 | Splitting at a separator after a piece without one cuts the piece off |
| Identity.TextRoundTrip | cloudflared-2026.6.1/tracing/identity.go:26-97 | Reading a printed identity gives it back, for all values of its four fields |
| Identity.NewIdentityExactly | cloudflared-2026.6.1/tracing/identity.go:65-97 | Exactly which headers are read and, from their pieces between colons, as what numbers; it panics exactly on four pieces with a first one of more than 32 bytes |
| Identity.PaddingKeepsValue | cloudflared-2026.6.1/tracing/identity.go:99-110 | For 1 to 32 hex digits upper * 2^64 + lower is the value of the unpadded digits |
| Identity.PaddingKeepsBadDigits | cloudflared-2026.6.1/tracing/identity.go:99-110 | Padding does not make bad digits good |
| Identity.BinaryRoundTrip | cloudflared-2026.6.1/tracing/identity.go:30-63 | Marshalling and unmarshalling, with anything behind, gives the identity back |
| Identity.BinaryInjective | cloudflared-2026.6.1/tracing/identity.go:30-63 | The 25 bytes decide all four fields |
| Identity.BinaryLayout | cloudflared-2026.6.1/tracing/identity.go:30-43 | The fields' places and byte order in the binary form |
| Identity.TraceIdentity.MarshalBinary | cloudflared-2026.6.1/tracing/identity.go:30-43 | The loop writes exactly the 25 bytes |
| Identity.TraceIdentity.UnmarshalBinary | cloudflared-2026.6.1/tracing/identity.go:45-63 | Fails, changing nothing, exactly on fewer than 25 bytes; otherwise stores the identity whose binary form is the first 25 |
| Numerals.HexPaddedValue | cloudflared-2026.6.1/tracing/identity.go:27-27 | %016x has that width and value |
| Numerals.LeadingZeros | cloudflared-2026.6.1/tracing/identity.go:104-109 | Leading zeros do not change the number |
| Numerals.ValueOfAppend | cloudflared-2026.6.1/tracing/identity.go:70-80 | A numeral read in two pieces |
| Numerals.BigEndianRoundTrip | cloudflared-2026.6.1/tracing/identity.go:30-63 | Big-endian fixed-width integers read back |
| Numerals.BigEndianDigits | cloudflared-2026.6.1/tracing/identity.go:30-43 | Which byte of a number stands where, the most significant first |
| Numerals.HexVectors | cloudflared-2026.6.1/tracing/identity.go:27-27 | Some numbers in hexadecimal, in either case |
| Numerals.FromBigEndianRoundTrip | cloudflared-2026.6.1/tracing/identity.go:45-63 | And the other way round, for any bytes |
| Datagrams.SessionRoundTrip | cloudflared-2026.6.1/quic/datagramv2.go:75-95 | On both platforms a payload is sent exactly if it is within the MTU, both suffix checks then succeeding, and demultiplexes to the same session ID and payload |
| Datagrams.PacketRoundTrip | cloudflared-2026.6.1/quic/datagramv2.go:97-112 | A raw, traced or span packet is sent exactly if it fits the frame with metadata and type, and demultiplexes to itself |
| Datagrams.DemuxExactly | cloudflared-2026.6.1/quic/datagramv2.go:138-214 | Exactly which bytes are accepted; sending again what was made of them gives the same bytes |
| Datagrams.TraceSurvives | cloudflared-2026.6.1/quic/datagramv2.go:171-214 | A traced packet carries its identity through marshalling, multiplexing and unmarshalling |
| Socks.AddressRoundTripExactly | cloudflared-2026.6.1/socks/request.go:101-195 | The address part of a reply reads back as the address, using up exactly the bytes written, if and only if the name has at most 255 bytes and the port is a 16-bit number |
| Socks.CanonicalExactly | cloudflared-2026.6.1/socks/request.go:114-131 | Which addresses come back unchanged: names, 4-byte addresses and 16-byte ones that are not mapped IPv4 |
| Socks.MessageRoundTrip | cloudflared-2026.6.1/socks/request.go:75-143 | A whole reply read as a request |
| Socks.LongNameIsLost | cloudflared-2026.6.1/socks/request.go:111-114 | A name of more than 255 bytes comes back cut short |
| Socks.HostRoundTrip | cloudflared-2026.6.1/socks/request.go:147-183 | Type and address bytes read back |
| Socks.PortRoundTrip | cloudflared-2026.6.1/socks/request.go:184-193 | The port comes back modulo 2^16 |
| Socks.SendReply | cloudflared-2026.6.1/socks/request.go:101-143 | The buffer is filled with exactly the reply message, or nothing can be formatted |
| Socks.WireFormat | cloudflared-2026.6.1/socks/request.go:101-143 | Every reply byte by byte: without an address, with a name, an IPv4 address in either form, an IPv6 address; and which cannot be formatted |
| Socks.FillMessage | cloudflared-2026.6.1/socks/request.go:131-141 | The bytes of the message buffer |
| Socks.Reader.ReadAtLeast | cloudflared-2026.6.1/socks/request.go:147-195 | Either n bytes off the front or, with fewer left, failure with the stream used up |
| Socks.Reader.ReadAddrSpec | cloudflared-2026.6.1/socks/request.go:147-195 | Reads the specified address step by step, consuming exactly what was specified, also on failure |
| Socks.Reader.NewRequest | cloudflared-2026.6.1/socks/request.go:75-99 | Version, command and address, or failure |
| IpAccess.Policy.Allowed | cloudflared-2026.6.1/ipaccess/access.go:74-90 | The verdict, and the position, of the first rule whose network contains the IP and whose port list as originally written is empty or contains the port; else the default |
| IpAccess.FirstCovering | cloudflared-2026.6.1/ipaccess/access.go:74-90 | First match: the rule found covers, and none before it does |
| IpAccess.NewPolicy | cloudflared-2026.6.1/ipaccess/access.go:20-33 | A policy is made exactly if every rule is well-formed, however the rules' port slices overlap; it decides by what the rules said on entry if no two slices have only part in common |
| IpAccess.LayoutExactly | cloudflared-2026.6.1/ipaccess/access.go:57-72 | Validation leaves every rule its ports, whatever they are, if and only if any two slices have nothing in common or everything |
| IpAccess.OverlapWitness | cloudflared-2026.6.1/ipaccess/access.go:57-72 | Two overlapping slices after which the first holds other ports, out of order |
| IpAccess.ValidateRules | cloudflared-2026.6.1/ipaccess/access.go:20-33 | The loop succeeds exactly if every rule is well-formed to begin with, and then every array has had the slices sorted in order |
| IpAccess.ValidityStays | cloudflared-2026.6.1/ipaccess/access.go:57-72 | Sorting valid slices does not change which slices are valid |
| IpAccess.EachAlone | cloudflared-2026.6.1/ipaccess/access.go:57-72 | Slices that are apart are each sorted as if alone |
| IpAccess.Validate | cloudflared-2026.6.1/ipaccess/access.go:57-72 | Accepts exactly well-formed rules and sorts the ports in place as soon as there is a network |
| IpAccess.WellFormedExactly | cloudflared-2026.6.1/ipaccess/access.go:57-72 | Well-formed is having a network and only ports from 1 to 65535 |
| IpAccess.SortInts | cloudflared-2026.6.1/ipaccess/access.go:63-63 | Leaves the sorted arrangement in the array |
| IpAccess.SearchInts | cloudflared-2026.6.1/ipaccess/access.go:83-85 | Bisection finds the first position not below, so agrees with membership |
| IpAccess.SortedUnique | cloudflared-2026.6.1/ipaccess/access.go:63-63 | There is only one sorted arrangement |
| IpAccess.SortedIsSearchable | cloudflared-2026.6.1/ipaccess/access.go:63-85 | Sorting keeps the members, so searching the sorted list is searching the original |
| IpAccess.SortingKeepsValidity | cloudflared-2026.6.1/ipaccess/access.go:63-70 | The range check gives the same answer before and after sorting |
| RateLimiter.RefusedExactly | app.py:172-186 | A call is refused exactly when 20 accepted calls of its identifier lie in the last 60 seconds, and the pruned queue is exactly that part of the history |
| RateLimiter.AtMostTwentyPerWindow | app.py:167-186 | Every closed 60-second interval, wherever it lies, holds at most 20 accepted calls of an identifier |
| RateLimiter.IdentifiersIndependent | app.py:172-186 | What happens to one identifier is what would happen without the others |
| RateLimiter.RunInvariant | app.py:172-186 | After any calls the queue is a suffix of the accepted history and leaves out only outdated times |
| RateLimiter.PruneRepresents | app.py:179-180 | Pruning the queue is pruning the full history |
| RateLimiter.AcceptKeepsSpaced | app.py:182-186 | Accepting a call keeps any two accepted calls 20 apart more than a window apart |
| RateLimiter.WindowStart | app.py:179-180 | From where on the history is within the window |
| RateLimiter.Limiter.IsRateLimited | app.py:172-186 | The method with its while loop makes the specified call |

## Left out

- Supervisor.StrandedByNil: states that Run never returns from there; that initialize's select receives the nil rather than the shutdown request is a choice of the scheduler.
- FlowLimiter.CounterIsHolders: while the limiter is unlimited, for fewer than 2^64 flows at once; LosesCountExactly shows that the wrapping counter loses count at that many and at no other point.
- FlowLimiter.SlotsExactly: the same.
- FlowLimiter.AdmittedExactly: the same.
- IpAccess.SortInts: states the result of the library sort, not its algorithm.
- Headers.SerializeHeaders: the branch that grows the scratch buffer is never taken, as FieldsFit shows, and is not written out.
- IcmpProxy.RepliesExactly: a request is one atomic step; two requests interleaving inside it are not modelled.
- IcmpProxy.OwnExactly: the composed proxy is a state machine on values; update in place is modelled by its two parts, EchoIds.EchoIDTracker and Funnels.FunnelTracker.
- Sessions.CloseNeverBlocks: session objects are values in the manager's object list, and their goroutines are steps; only the manager is a class.
- Sockets, QUIC, HTTP/2, TLS, DNS, Cap'n Proto RPC, metrics other than the active-sessions gauge, and logging: their outcomes are parameters or arbitrary steps.
- edgediscovery/allregions, the datagram v3 session manager and tunnelstate are not part of this model; what they answer is a parameter.
- JSON, YAML and regular expressions: configurations are taken as parsed, with one value for "not valid".
- Clocks and randomness: integer or real times, not going backwards where that matters, and arbitrary draws below their bounds.
- The rounding of floating-point times in the rate limiter; times are reals.
- Aliasing of payload slices by append in the datagram suffixes.
- net.IPNet.Contains is any predicate on addresses; CIDR parsing and a rule's string forms.
- Retry counts are unbounded naturals; Go's uint does not matter below 2^64 retries.
- The supervisor's own backoff durations, the registration interval and the first tunnel's retry loop: the timer is pending or not, and the first tunnel connects or ends.
- How Serve comes to its result: a nil end needs a requested shutdown or a cancelled context, any other end may come at any time.
- initialize's returns on cancellation, early shutdown and a first error: Run then ends before the loop begins.
- Idle checks of sessions: that a session stops being idle is an arbitrary step; the ticker and the activity channel are left out.
- A reader that hands out zero bytes without an error, which Go discourages but permits.
- Ingress rule matching, origin configuration defaults, prechecks, features, the token lock file, HTTP proxying, diagnostics, and the rest of the Flask application: they would add only easy members or are plumbing.
