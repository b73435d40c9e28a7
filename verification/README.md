# ALL SHARE: verified models of its state machines and encodings

ALL SHARE lets a browser see and control a PC: an agent on the PC captures and encodes the
screen and injects input, a rendezvous server introduces the two, and a browser client decodes
and sends input over an unreliable channel. This project models the parts whose comments make
claims about every run, and proves those claims of the model, or shows where they stop.

A component with state has the value of its state, the functions that say what one call does to
that value, and a class that performs the calls on mutable fields and is proved against the
functions. Its theorems over whole runs are in a second file named `...Runs`, or, where they are
few, in the same one (`Injectors`, `NativeQueues`, `SleepHold`). The encodings and `Coordinates`
have no state: functions, the loops that compute them, and their laws.

- `RateLimit`, `RateLimitRuns`: the keyed token buckets of the rendezvous server and the sweep
  that forgets idle ones.
- `QualityController`, `QualityRuns`, `QualityCalls`: the controller that follows a bandwidth
  estimate down and up a ladder of sizes, and what it tells its source.
- `RvClient`, `RvClientRuns`: requests and replies over a connection that is lost and redialled,
  one critical section or channel operation at a time.
- `Hub`, `HubRuns`, `HubAnswers`, `PairingStore`, `PairingRuns`: the rendezvous tables and the pairing windows.
- `KeyBitmaps`, `Wire`, `WireVectors`, `Injectors`, `InputSession`, `InputRuns`, `ButtonRuns`,
  `InputClient`, `ClientSends`, `ChannelRuns`, `PointerRuns`: the input path from the browser's
  state through the bytes of its packets and a channel that loses, repeats and reorders them to the
  keys, the buttons and the pointer as the system sees them.
- `Basics`: an optional value, the sizes of subsets and rounding, shared by several.
- `Bytes`, `Texts`, `BitGroups`, `Base64`, `Fingerprint`, `Signing`: encodings that Go and JavaScript both
  write, and must write alike.
- `Coordinates`: pixels and positions on the wire.
- `NativeQueues`: the frame and cursor queues of the native capture thread.
- `SleepHold`: holding off sleep after a wake.

`dafny verify dfyconfig.toml` checks everything.

## Where the code and its own words part

The model follows the code. Each of these has a theorem in the table below.

- The quality controller is said to drift down and climb back rather than pump. Its rung and frame
  rate do so under every policy (`QualityRuns.NoOscillation`); the sizes it shows do exactly under
  the policies that do not match the viewport (`QualityRuns.PumpsExactly`).
- It is said to climb back deliberately; a lowered frame rate it restores exactly off the top rung:
  `QualityRuns.RestoredExactly`, with a session that loses its rate for good in
  `QualityRuns.LoweredForGood`.
- A button packet's mask is said to keep a dropped packet from leaving a button stuck. The agent
  injects only the packet's own transition and then takes the mask over, so a button can stick:
  `ButtonRuns.LostReleaseSticks`, with the exact condition in `ButtonRuns.AgreementSurvives`.
- No sequence of drops and reorders is said to leave a key down. The heartbeat repeats the key
  snapshot only while something is held, so it mends neither the loss of the last release,
  `ChannelRuns.LostLastRelease`, nor, with nothing lost, a press that is delivered after it,
  `ChannelRuns.PressAfterRelease`; the exact condition is `ChannelRuns.HeartbeatHealsExactly`.
- `fromB64` means to refuse what is not base64, but reads characters past its table as zeros, and
  texts that end in one letter too many or in bits left over: exactly what it reads that nothing is
  written as is in `Base64.EncodingExactly`.
- `DenormalizeCoord` is called the inverse of `NormalizeCoord`; it is so of exactly the pixels
  named in `Coordinates.InvertsExactly`.
- The signing input is called unambiguous; it is so exactly of parts shorter than 2^32 bytes:
  `Signing.UnambiguousExactly`.
- A `StayAwake` call that finds a hold counts on it to extend; it can exactly if that hold has been
  granted by then: `SleepHold.JoiningIsSafeExactly`. And a hold ends only when the deadlines of all
  requests have passed, refused ones included: `SleepHold.RefusedDeadlineLingers`.
- Letting go of everything does not release Pause, which is never tracked:
  `Injectors.PauseFollowsItsCalls`.
- The client cuts a text at 8192 UTF-16 units, the agent refuses one over 8192 bytes:
  `InputClient.TextTakenExactly`.
- A newer connection of an agent is said to replace the one before it; when the older one is let go
  of later it still takes the device's window: `HubRuns.LosesWindowExactly`, `HubRuns.LateDetach`.
- Publishing is said to replace the agent's own window; an entry left from a code that another
  agent has published since takes that agent's: `PairingRuns.TakenAwayExactly`.

## Model

| member | source | states |
|---|---|---|
| RateLimit.Bucket.Allow | internal/rendezvous/signal/ratelimit.go:21-39 | refills lazily up to the capacity, then takes the cost or refuses and leaves the tokens; the answer and the whole new bucket |
| RateLimit.Limiter.AllowN | internal/rendezvous/signal/ratelimit.go:65-91 | sweeps idle buckets at most once a minute, refuses a new key when the table is over its size, otherwise charges the key; the answer and the whole new table |
| RateLimit.Limiter.SweepIdle | internal/rendezvous/signal/ratelimit.go:70-78 | the deleting loop leaves exactly the buckets consulted within five minutes |
| RateLimitRuns.StepChargesOneKey | internal/rendezvous/signal/ratelimit.go:65-91 | a call takes its cost from what its own key could spend and leaves every other key alone; it is granted exactly if the key had enough and the table was not full |
| RateLimitRuns.SweepKeepsLevels | internal/rendezvous/signal/ratelimit.go:70-78 | forgetting a bucket changes what no key could spend, given that an idle bucket refills in five minutes |
| RateLimitRuns.WindowBound | internal/rendezvous/signal/ratelimit.go:14-39 | over any run of calls on all keys, with sweeps and refusals, the cost granted to a key in any window is at most capacity plus refill times the window |
| RateLimitRuns.BudgetHoldsExactly | internal/rendezvous/signal/ratelimit.go:70-78 | that bound holds of every run if and only if capacity <= 300 * refill |
| RateLimitRuns.SweepIsInvisible | internal/rendezvous/signal/ratelimit.go:65-91 | along runs that never meet a full table every call is answered as by a limiter that never forgets, and all levels stay equal |
| RateLimitRuns.InvisibleExactly | internal/rendezvous/signal/ratelimit.go:65-91 | the sweep can never be noticed if and only if capacity <= 300 * refill; otherwise two calls notice it |
| RateLimitRuns.TableIsBounded | internal/rendezvous/signal/ratelimit.go:80-88 | the table never holds more than 50,001 buckets, whatever the clock does |
| RateLimitRuns.ShippedBudgetsHold | internal/rendezvous/signal/hub.go:49-57 | the bound and the invisibility hold for each of the five shipped budgets |
| QualityController.Quality.Tick | internal/session/quality.go:165-215 | one update: viewport, bitrate within five per cent, then the ladder; the whole new state and every call on the source |
| QualityController.Quality.ApplyRequest | internal/session/quality.go:122-160 | a settings request: the fields it overwrites, the preset's step, the policy's size |
| QualityController.Quality.LowerQuality | internal/session/quality.go:218-237 | frame rate first for a desktop, then the ladder, then the frame rate down to fifteen |
| QualityController.Quality.RaiseQuality | internal/session/quality.go:239-249 | frame rate back to its maximum before the ladder goes up |
| QualityController.Quality.ApplyRung | internal/session/quality.go:252-281 | the rung and the clock move even if the source refuses the size; the timers are cleared only if it accepts |
| QualityController.Quality.ConsiderViewport | internal/session/quality.go:311-328 | matches the viewport under its policy, at most every four seconds |
| QualityRuns.UpdateIsSound | internal/session/quality.go:165-215 | the rung stays on the ladder and the frame rate within what the source takes |
| QualityRuns.ApplyIsSound | internal/session/quality.go:122-160 | so it does through every settings request |
| QualityRuns.RequestKeepsBounds | internal/session/quality.go:133-145 | minimum and maximum bitrate stay in order through a request if and only if the new maximum does not pass an old minimum, and a minimum under 100 kbps does not meet a maximum under that |
| QualityRuns.RequestMeetsPreset | internal/session/quality.go:122-160 | a game gets its frame rate, a desktop at most sixty frames and, unless the policy fixes the size, the top rung |
| QualityRuns.TopRungKeepsFrameRate | internal/session/quality.go:197-206 | on the top rung a lowered frame rate is never restored, however good the estimates |
| QualityRuns.LoweredForGood | internal/session/quality.go:197-206 | two updates take a desktop session from sixty to thirty frames on the top rung, where it stays through any later estimates above what that rung needs |
| QualityRuns.RestoredExactly | internal/session/quality.go:197-249 | over six seconds of one estimate a lowered frame rate returns to its maximum, or to the fifteen frames the source is asked for at least, if and only if the controller's rung takes the upgrade branch |
| QualityRuns.RestoredOffTheTop | internal/session/quality.go:197-249 | so with an estimate good enough for every rung, if and only if it is not on the top rung |
| QualityRuns.SteadyTick | internal/session/quality.go:165-276 | at a constant target and with no viewport to act on, under every policy, an update changes something if and only if work is left and the timers are due; then it makes one call and the work shrinks by one |
| QualityRuns.NoOscillation | internal/session/quality.go:14-18 | under a constant estimate, from any sound adapting state, under every policy, with any viewports, at any instants and with any refusals by the source, rung and frame rate move one way only, the updates that move them are at most nine, and the bitrate is set at most once |
| QualityRuns.MovesAreCalls | internal/session/quality.go:218-281 | where no viewport disturbs, each such move is one call for a size or a frame rate and there are no others |
| QualityRuns.SettledStaysQuiet | internal/session/quality.go:14-18 | once the work is done no update calls the source again |
| QualityRuns.DoneIsQuiet | internal/session/quality.go:165-276 | a run that has used up its work is settled |
| QualityRuns.ProgressInSixSeconds | internal/session/quality.go:53-71 | updates over six seconds, downwards over four, get at least one piece of the work done |
| QualityRuns.ViewportStarvesLadder | internal/session/quality.go:311-328 | under the viewport policy no time is promised: while the size there is never is the one wanted, rung and frame rate never move |
| QualityRuns.TickIsPaced | internal/session/quality.go:165-328 | at most one change of size or frame rate takes effect in an update; it waits for the dwell time and restarts it |
| QualityRuns.EffectsAreSpaced | internal/session/quality.go:53-71 | over any run of updates two changes that take effect are at least four seconds apart |
| QualityRuns.StepsNeedPersistence | internal/session/quality.go:186-215 | quality goes down only if every estimate of the last 1.5 s found it too low, up only if every one of the last 6 s found it high enough |
| QualityRuns.SizesGoOneWay | internal/session/quality.go:252-288 | where no viewport disturbs, the sizes the source accepts over a run at one estimate only shrink or only grow, in width and height |
| QualityRuns.PumpsExactly | internal/session/quality.go:14-18 | accepted widths never turn over all runs of updates at one estimate from all sound adapting controllers with a policy if and only if the policy is not the one that matches the viewport |
| QualityRuns.FitPolicyPumps | internal/session/quality.go:311-328 | the witness under that policy: at a constant low estimate accepted widths go 1440, 1920, 1152 |
| QualityCalls.BitrateFollows | internal/session/quality.go:179-182 | an update sets the bitrate to the estimate, held within its bounds, and tells the source so, if and only if that is more than a twentieth of the bitrate away; afterwards it is no further away |
| QualityCalls.KeepsWhatItTold | internal/session/quality.go:122-215 | through any updates and requests the bitrate and the frame rate kept are the last ones the source was told |
| QualityCalls.RequestTakesOver | internal/session/quality.go:126-145 | what a request leaves of every setting: what it names, held within its limits, and the rest as it was |
| QualityCalls.RequestAsksExactly | internal/session/quality.go:290-304 | the sizes a request asks for: its own to the nearest sixteen under the fixed policy, the screen's under the native one, else only the top rung for a desktop |
| QualityCalls.RequestTellsPreset | internal/session/quality.go:126-129 | a request tells the source its preset once if it names one, and else none |
| QualityCalls.ViewportAsksExactly | internal/session/quality.go:311-328 | an update asks first for the viewport's size, no larger than the screen and to the nearest sixteen, if and only if the policy matches viewports, that is not the size there is, and four seconds have passed |
| QualityCalls.SidesAreShares | internal/session/quality.go:82-91 | the sizes of the six rungs: the share of the screen's side to the nearest sixteen, but no less than the least |
| QualityCalls.MoveIsTold | internal/session/quality.go:252-288 | an update that moved the frame rate told it last, and one that moved the rung asked last for the size of the new one |
| QualityCalls.MarksExactly | internal/session/quality.go:186-215 | which timers an update leaves running: its own branch's, unless a move was accepted, and never the other's |
| RvClient.Client.Register | shared/rvclient/client.go:419-426 | a request gets a fresh number and an empty one-place channel and enters the table of waiters |
| RvClient.Client.TakeWaiter | shared/rvclient/client.go:449-464 | a reply takes its waiter out of the table before it is delivered |
| RvClient.Client.SwapWaiters | shared/rvclient/client.go:466-474 | the teardown takes the whole table and leaves an empty one |
| RvClientRuns.StepKeepsInv | shared/rvclient/client.go:286-294 | every critical section and channel operation of callers, reader and teardown keeps the invariant of the tables, the channels and each program counter |
| RvClientRuns.AtMostOneEnvelope | shared/rvclient/client.go:403-474 | under every interleaving a waiter's channel receives at most one envelope |
| RvClientRuns.SendersNeverBlock | shared/rvclient/client.go:449-474 | whoever is about to send to a waiter finds its channel empty |
| RvClientRuns.WaitersHaveALiveSession | shared/rvclient/client.go:419-447 | a caller still waiting is owed an envelope, or is in the table while the connection it wrote to has yet to fail its waiters |
| RvClientRuns.NextTeardown | shared/rvclient/client.go:286-294 | the reading goroutine always has an enabled step that brings the teardown nearer its end |
| RvClientRuns.TeardownFreesEveryWaiter | shared/rvclient/client.go:466-474 | with callers standing still the teardown runs to its end by itself, and every caller that waits then has something in its channel |
| RvClientRuns.ArrivedExactly | shared/rvclient/client.go:449-474 | after any run a request's channel holds a reply if and only if the reader took its waiter out and has sent to it, an empty envelope if and only if the teardown failed its waiter, and never two |
| RvClientRuns.WaitsExactly | shared/rvclient/client.go:403-447 | a request waits if and only if it has written and neither received nor been cancelled, is over if and only if it has removed itself, and gives up for no other reason than those in the code |
| RvClientRuns.WritesToTheLiveOne | shared/rvclient/client.go:430-436 | a request writes to the connection that is being read, and gives up if there is none |
| RvClientRuns.DoneLeavesNothing | shared/rvclient/client.go:427-428 | a request that is over is not in the table of waiters |
| Hub.Rendezvous.AttachConn | internal/rendezvous/signal/hub.go:168-193 | an agent replaces the one before it; a ninth connection of a client is turned away; the whole new tables |
| Hub.Rendezvous.DetachConn | internal/rendezvous/signal/hub.go:195-229 | the connection leaves its list, each session it lists is ended for its device, the others are told, an agent's connection, current or replaced, takes its device's pairing window with it, and the clients paired with the device are told whether it is connected |
| Hub.Rendezvous.OnConnect | internal/rendezvous/signal/hub.go:445-491 | introduces an admitted, paired client to a connected agent: session, both listings, both messages; otherwise one rejection |
| Hub.Rendezvous.OnSignal | internal/rendezvous/signal/hub.go:524-560 | passes a signal to the other party's connections, or ends the session if there is none |
| Hub.Rendezvous.EndSession | internal/rendezvous/signal/hub.go:573-607 | ends a session for a party or the server and tells every party but the one that asked |
| HubRuns.ReachableInv | internal/rendezvous/signal/hub.go:168-229 | in every reachable world only attached connections are listed, at most eight distinct ones per client, and every session rests on both connections that introduced it, which list it |
| HubRuns.LeaveEndsItsSessions | internal/rendezvous/signal/hub.go:195-229 | after detaching, a connection is in no table, every session it introduced is gone, and no session of others was touched |
| HubRuns.DetachIsFinal | internal/rendezvous/signal/hub.go:195-229 | once either introducing connection has detached the session is gone in every later world |
| HubRuns.EndedIsFinal | internal/rendezvous/signal/hub.go:573-607 | an ended session never comes back, so it is ended at most once |
| HubRuns.EndedOnlyForAParty | internal/rendezvous/signal/hub.go:562-607 | a session leaves the table only by a step of a connection of one of its two parties |
| HubRuns.ServerEndsWhenPeerIsAway | internal/rendezvous/signal/hub.go:545-560 | relaying a signal ends its session if and only if a party sent it and the other is not connected |
| HubRuns.EndIsToldExactly | internal/rendezvous/signal/hub.go:573-607 | the end of a session is told to exactly the connections of each party but the one that asked |
| HubRuns.SignalsReachTheClient | internal/rendezvous/signal/hub.go:524-560 | an agent's signal reaches every attached connection of the session's client |
| HubRuns.LateIntroduction | internal/rendezvous/signal/hub.go:464-476 | if other steps ran between looking the agent up and listing the session, the invariant holds if and only if the agent's connection is still attached |
| HubRuns.AgentLeftMeanwhile | internal/rendezvous/signal/hub.go:464-476 | a reachable world in which the agent left in between, and a session that rests on its detached connection |
| HubRuns.SignalsStayInTheSession | internal/rendezvous/signal/hub.go:524-560 | every signal goes from one party of its session to an attached connection of the other |
| HubRuns.LosesWindowExactly | internal/rendezvous/signal/hub.go:203-226 | a device that is still connected loses its window by a connection leaving if and only if that is an agent connection whose entry names it and not the device's current one; while codes are unique, if and only if it is a replaced connection of the device itself |
| HubRuns.LateDetach | internal/rendezvous/signal/hub.go:172-181 | a reachable world in which a replaced connection leaves after its successor opened a window: the device is connected and its window gone |
| HubRuns.PresenceIsToldExactly | internal/rendezvous/signal/hub.go:642-654 | when an agent's connection leaves, exactly the attached connections of the clients paired with its device are told, and told whether the device is still connected |
| HubAnswers.IntroducedExactly | internal/rendezvous/signal/hub.go:445-491 | a request introduces if and only if an admitted client asks for a connected agent it is paired with: one session of the two devices, both listings, one message to each; else one rejection with a true reason, and nothing changes |
| HubAnswers.EverySessionWasAllowed | internal/rendezvous/signal/hub.go:445-491 | in every reachable world every session was asked for by an admitted client connection paired with its agent |
| HubAnswers.SignalsAreHeardExactly | internal/rendezvous/signal/hub.go:524-560 | a signal is heard at exactly the connections of the other party: the agent's current one, or all attached ones of the client |
| HubAnswers.SignalsAreRefusedExactly | internal/rendezvous/signal/hub.go:524-560 | its sender is turned down if and only if the session is over, is not its own, or the other party is not connected, and is told which |
| HubAnswers.TurnedAwayExactly | internal/rendezvous/signal/hub.go:168-192 | a new connection is turned away if and only if it is a client's and eight others of that client are attached; an agent's becomes its device's one; nothing else changes |
| PairingStore.Pairings.PublishWindow | internal/rendezvous/pairing/store.go:66-101 | replaces the agent's window, refuses the 257th, caps the expiry at three minutes; the answer and the whole new store |
| PairingStore.Pairings.ConsumeWindow | internal/rendezvous/pairing/store.go:121-137 | marks an unexpired, unused window used and returns it, or says why not |
| PairingStore.Pairings.Collect | internal/rendezvous/pairing/store.go:156-166 | the expiry loop leaves exactly the windows not expired and drops the agent entries that named the others |
| PairingStore.Pairings.RevokeWindow | internal/rendezvous/pairing/store.go:139-147 | removes the agent's window and entry |
| PairingRuns.AlwaysConsistent | internal/rendezvous/pairing/store.go:66-166 | every stored window is the one its agent's entry names, hence one per agent, and never more than 256 |
| PairingRuns.AlwaysTraced | internal/rendezvous/pairing/store.go:66-137 | every stored window is the one its latest publication opened, and is marked used exactly if it was used since |
| PairingRuns.ShownWindowsAreFresh | internal/rendezvous/pairing/store.go:103-137 | a window that is shown has not expired, is unused, and was published at most three minutes ago |
| PairingRuns.PublicationBetweenUses | internal/rendezvous/pairing/store.go:121-137 | between two successful uses of a code lies a publication of it |
| PairingRuns.OneSubmissionPerPublication | internal/rendezvous/signal/hub.go:417-443 | at most one submission reaches an agent for each publication of the code |
| PairingRuns.ConsumeExactly | internal/rendezvous/pairing/store.go:121-137 | a use succeeds if and only if the window is stored, unused and not past its expiry, and a refusal says which it was not |
| PairingRuns.LookupExactly | internal/rendezvous/pairing/store.go:103-119 | so does a look at it, which marks nothing |
| PairingRuns.PublishExactly | internal/rendezvous/pairing/store.go:66-101 | a publication opens a window if and only if it is complete and fewer than 256 others are open; the window says what was published and closes as asked, but within three minutes |
| PairingRuns.UsableExactlyOnce | internal/rendezvous/pairing/store.go:66-137 | with unique codes, a published code that its agent lets be can be used exactly once up to the instant it expires |
| PairingRuns.CollectsExactly | internal/rendezvous/pairing/store.go:156-166 | collecting clears exactly the windows past their expiry and the entries of their agents that named them |
| PairingRuns.RevokesExactly | internal/rendezvous/pairing/store.go:139-147 | revoking clears the agent's entry and the window it names, and nothing else |
| PairingRuns.TakenAwayExactly | internal/rendezvous/pairing/store.go:66-101 | what each call takes of an open window: its own agent may revoke it, and gives it up by publishing another code or finding no room; another agent takes it if and only if its entry names the code, or it publishes the same code and the room left without its own window suffices |
| PairingRuns.RevokesOwnExactly | internal/rendezvous/pairing/store.go:139-147 | revoking takes no window but one's own if and only if every entry that names an open window names one of its own agent |
| PairingRuns.UniqueCodesAreSafe | internal/rendezvous/pairing/store.go:66-147 | which is so after every run in which no two agents publish the same code |
| PairingRuns.SharedCodeIsTaken | internal/rendezvous/pairing/store.go:75-80 | two agents publish the same code, and the first, revoking, closes the window of the second |
| PairingRuns.RevokeLeavesNone | internal/rendezvous/pairing/store.go:139-147 | revoking leaves the agent without a window and every window its entry did not name |
| KeyBitmaps.KeyBitmap.Set | shared/protocol/wire.go:107-118 | sets or clears one usage and no other; usages past the end change nothing |
| KeyBitmaps.KeyBitmap.Diff | shared/protocol/wire.go:140-154 | the callbacks are exactly the differences, in order |
| KeyBitmaps.KeyBitmap.Any | client/js/net/protocol.js:99-102 | whether anything is held |
| KeyBitmaps.WithKeySetsOne | shared/protocol/wire.go:107-125 | reading back after a write: the written usage has the new value, every other its old one |
| KeyBitmaps.DifferencesAreExact | shared/protocol/wire.go:137-154 | one transition for each usage in the symmetric difference and for no other, ascending, with the new value |
| KeyBitmaps.ReplayReachesNext | shared/protocol/wire.go:137-154 | replaying the differences turns the old bitmap into the new one |
| KeyBitmaps.SameKeysSameBitmap | shared/protocol/wire.go:104-125 | a bitmap is determined by the keys it holds |
| Wire.RoundTrip | shared/protocol/wire.go:191-455 | decoding the Go encoding of every in-range message returns it, two's-complement deltas, bitmap and text prefix included; only a text over 8192 bytes is refused; encodings have the declared size |
| Wire.ShortPayloads | shared/protocol/wire.go:201-455 | a payload is refused as short if and only if it is shorter than declared, a text as too long exactly by its prefix |
| Wire.EncodeIsInjective | shared/protocol/wire.go:45-84 | two messages are never encoded alike, across types too |
| Wire.JsMoveAbs | client/js/net/protocol.js:122-131 | the browser writes the bytes of the Go encoder |
| Wire.JsMoveRel | client/js/net/protocol.js:133-142 | the browser writes the bytes of the Go encoder for the deltas clamped to 16 bits |
| Wire.JsButton | client/js/net/protocol.js:144-153 | the browser writes the bytes of the Go encoder |
| Wire.JsWheel | client/js/net/protocol.js:155-163 | the browser writes the bytes of the Go encoder for the deltas clamped to 32 bits |
| Wire.JsKey | client/js/net/protocol.js:165-174 | the browser writes the bytes of the Go encoder |
| Wire.JsSync | client/js/net/protocol.js:176-184 | the browser writes the bytes of the Go encoder |
| Wire.JsPing | client/js/net/protocol.js:192-199 | the browser writes the bytes of the Go encoder for its time: a number rounded and not negative, or a whole number of any size, cut to 64 bits |
| Wire.JsText | client/js/net/protocol.js:201-209 | the browser writes the bytes of the Go encoder for the UTF-8 form of its text |
| Wire.DecodersAgree | client/js/net/protocol.js:304-367 | the browser's decoders, at their own offsets, read every packet as the Go ones do, but for texts over the agent's limit, and a ping if and only if its time has no bits below the 53 a browser number keeps |
| Wire.SmallPingsAgree | client/js/net/protocol.js:186-191 | a ping sent with a whole time under 2^53 both decoders read as it was meant |
| Wire.PongRoundTrip | shared/protocol/ctrl.go:263-292 | Go reads back every answer it wrote, and the browser (protocol.js:261-269) reads its two times as the numbers it has |
| Wire.MicrosAreNearest | client/js/net/protocol.js:196 | a time that is no whole number goes out as the nearest one, of two the higher, and none below zero |
| Wire.NumberIsNearest | client/js/net/protocol.js:261-269 | a time is read as the nearest number with 53 significant bits, of two the even one |
| WireVectors.MoveAbsVector | shared/protocol/testdata/vectors.json:7-18 | the encoding of the repository's mouseMoveAbs vector is its bytes |
| WireVectors.MoveRelVector | shared/protocol/testdata/vectors.json:19-30 | the same of mouseMoveRel, with a negative delta |
| WireVectors.ButtonVector | shared/protocol/testdata/vectors.json:31-42 | the same of mouseButton |
| WireVectors.WheelVector | shared/protocol/testdata/vectors.json:43-53 | the same of mouseWheel, with a negative delta |
| WireVectors.KeyVector | shared/protocol/testdata/vectors.json:54-65 | the same of key, with a bitmap of two keys |
| WireVectors.SyncVector | shared/protocol/testdata/vectors.json:66-76 | the same of keyStateSync |
| WireVectors.PingVector | shared/protocol/testdata/vectors.json:77-85 | the same of inputPing |
| WireVectors.PongVector | shared/protocol/testdata/vectors.json:112-121 | the same of pong |
| WireVectors.TextVector | shared/protocol/testdata/vectors.json:122-130 | the same of textInput, its text converted from UTF-16 |
| Injectors.WindowsInjector.Key | internal/input/input_windows.go:310-344 | tracks a usage that has a scancode and sends one event; Pause goes out untracked; other usages do nothing |
| Injectors.WindowsInjector.MouseButton | internal/input/input_windows.go:244-289 | tracks one of five buttons and sends one event; others do nothing |
| Injectors.WindowsInjector.TypeText | internal/input/input_windows.go:346-374 | types every UTF-16 unit of a text as a press and a release, batch by batch, in order; nothing for a text with a zero byte |
| Injectors.KeystrokesAt | internal/input/input_windows.go:366-370 | every unit of a text goes down and comes up, in its turn |
| Injectors.WindowsInjector.ReleaseAll | internal/input/input_windows.go:377-422 | clears both records and sends the releases of what they held |
| Injectors.AlwaysTracked | internal/input/input_windows.go:244-422 | after any history of calls whatever the system sees as down is tracked, buttons exactly |
| Injectors.ReleasesAreOnePerKey | internal/input/input_windows.go:377-400 | the batch has exactly one release per tracked key |
| Injectors.ReleasesAreOnePerButton | internal/input/input_windows.go:401-421 | and exactly one per held button, ascending |
| Injectors.ReleaseAfterAnyHistory | internal/input/input_windows.go:377-422 | from any history, letting go leaves nothing tracked and nothing down but, at most, Pause |
| Injectors.PauseFollowsItsCalls | internal/input/input_windows.go:312-322 | after any history, letting go included, Pause is down if and only if its own last call was down |
| Injectors.PauseStaysDown | internal/input/input_windows.go:377-422 | pressed and never released, Pause is down after everything was let go |
| InputSession.AgentSession.OnInputMessage | internal/session/session.go:1238-1329 | what a packet of any bytes does to a session and what is sent back: nothing without control, of an unknown type or if it does not decode; otherwise its handler, and for a ping, if the channel is open, the answer |
| InputSession.AgentSession.ApplyKeyState | internal/session/session.go:1344-1349 | injects every difference and takes the new state over |
| InputSession.AgentSession.ApplyButtons | internal/session/session.go:1351-1364 | injects the differences of five bits of the mask and takes it over |
| InputSession.AgentSession.NoteInput | internal/session/session.go:1331-1342 | moves the sequence number forward, or back by more than half the range |
| InputSession.ReadsWhatWasWritten | internal/session/session.go:1247-1329 | the agent reads back every message that either encoder wrote |
| InputSession.AnsweredExactly | internal/session/session.go:1316-1328 | a packet is answered if and only if it is a ping, the session has control and the channel is open |
| InputSession.PingComesBack | internal/session/session.go:1316-1328 | a ping sent with a whole time comes back to the browser with its number and the agent's time, and with its own time if and only if the browser has a number for it, which it has below 2^53 |
| InputSession.TypedAsMeant | internal/input/input_windows.go:346-374 | a text the browser sent is typed unit by unit, each down and up, with a replacement for every lone half of a pair; as it was meant if and only if no half is alone and there is no zero in it |
| InputRuns.KeysAlwaysAgree | internal/session/session.go:1289-1307 | after any packets the bitmap is the replay of all key calls, the held keys are those of the bitmap with a scancode, and the system agrees on every scancode of its own usage |
| InputRuns.SelfHealing | internal/session/session.go:1289-1307 | after any loss, repetition and reordering, one key-carrying packet leaves bitmap, replay, held keys and the system at exactly its state; a shared scancode follows the last call on it |
| InputRuns.CallsAlternate | internal/session/session.go:1344-1349 | of each usage the injected calls alternate, down first |
| InputRuns.SharedCodeDisagrees | shared/protocol/keys.go:101-102 | two usages with one scancode, whichever is let go: the code is lifted while the other is still held |
| InputRuns.SeenExactly | internal/session/session.go:1289-1307 | a usage with a scancode is seen by the system as it is held, after every run of packets, if and only if no other usage has its code |
| ButtonRuns.AgreementSurvives | internal/session/session.go:1253-1307 | agreement of held buttons and mask survives a message if and only if a button packet's mask is the old one with its bit set as it says; every other message keeps it |
| ButtonRuns.CoherentRunsAgree | internal/session/session.go:1253-1307 | held buttons equal the low five bits of the mask after every run whose button packets fit |
| ButtonRuns.AgreesThroughoutExactly | internal/session/session.go:1253-1307 | through a run of packets held buttons and mask agree at every moment if and only if all its button packets fit |
| ButtonRuns.SystemSeesTheMask | internal/input/input_windows.go:244-289 | and so does what the system sees of each button |
| ButtonRuns.LostReleaseSticks | shared/protocol/wire.go:250-251 | a lost release before another button's packet leaves a button down that no later snapshot lifts, whatever the comment there says |
| ButtonRuns.ClosingLetsGo | internal/session/session.go:1371-1384 | after any packets, letting go lifts every key and button they pressed, Pause aside |
| ButtonRuns.KeepsHighestExactly | internal/session/session.go:1331-1342 | through a run of packets the number kept is at every moment the highest so far if and only if none comes more than 2^31 behind the highest before it |
| ButtonRuns.LowNumbersAreKept | internal/session/session.go:1331-1342 | so it is while numbers stay within 2^31 |
| ButtonRuns.NotedTogether | internal/session/session.go:1331-1342 | the number and the clock reading kept always come from one packet |
| PointerRuns.PacketPoints | internal/session/session.go:1253-1287 | with control a packet puts the pointer where it says, moves it or scrolls by its own deltas, and no packet of another kind does any of these; without control it does nothing |
| InputClient.InputController.OnKeyDown | client/js/input/input.js:317-320 | the bitmap, the next number and one key packet with the whole state |
| InputClient.InputController.OnKeyUp | client/js/input/input.js:330-333 | the same for a release |
| InputClient.InputController.OnPointerDown | client/js/input/input.js:229-244 | the pending position first unless locked, then the button packet with the new mask |
| InputClient.InputController.OnPointerUp | client/js/input/input.js:246-253 | the button packet with the new mask |
| InputClient.InputController.SendPendingAbsolute | client/js/input/input.js:221-227 | the pending position goes out once |
| InputClient.InputController.DoReleaseAll | client/js/input/input.js:343-355 | forgets everything held and sends a snapshot in any case |
| InputClient.InputController.DoHeartbeat | client/js/input/input.js:357-362 | sends a snapshot only while something is held |
| ClientSends.KeysAreSaid | client/js/input/input.js:317-333 | a key is said in one message with what is held by then: that key or not, and all others as before |
| ClientSends.ButtonsAreSaid | client/js/input/input.js:221-253 | a button is said in one message with what is held by then; a press that is not locked says before it where the pointer is, if that was not said yet |
| ClientSends.SnapshotsAreSaid | client/js/input/input.js:335-362 | letting go sends a snapshot in any case, with nothing held; a heartbeat if and only if anything is held |
| ClientSends.MovesAreSaid | client/js/input/input.js:205-227 | a locked move is said at once unless it is none, a free one only when flushed, and then once |
| ClientSends.NumbersAreConsecutive | client/js/input/input.js:221-362 | through any events the messages are numbered one after the other, on 32 bits |
| InputClient.TextTakenExactly | client/js/input/input.js:371-377 | of a text, cut by the client to 8192 units, the agent takes what is sent if and only if it is at most 8192 bytes; one that long or longer if and only if what is sent is plain ASCII |
| InputClient.LongTextRefused | shared/protocol/wire.go:413-429 | 2731 euro signs are refused as a whole |
| Texts.Utf8Size | client/js/core/util.js:278-280 | UTF-8 takes one to three bytes a unit, and one for each if and only if the text is plain ASCII |
| Texts.ReadBack | internal/input/input_windows.go:351-356 | converting the UTF-8 bytes back gives the text with every half of a pair that stands alone replaced |
| Texts.MendedExactly | internal/input/input_windows.go:351-356 | nothing is replaced if and only if no half stands alone |
| ChannelRuns.SnapshotsAreCurrent | client/js/input/input.js:317-362 | the newest snapshot a client sent always says what it holds |
| ChannelRuns.AgentHoldsARealState | client/js/input/input.js:357-362 | through any channel the agent holds a set of keys the client really held at some moment of the run |
| ChannelRuns.NewestSnapshotHeals | internal/session/session.go:1289-1307 | one delivery of the newest snapshot mends everything, whatever was lost, repeated or reordered before |
| ChannelRuns.HeartbeatHealsExactly | client/js/input/input.js:357-362 | a delivered heartbeat mends the keys if and only if something is held or nothing was wrong |
| ChannelRuns.LostLastRelease | client/js/input/input.js:357-362 | if the packet of the last release is lost no number of heartbeats lets the key go |
| ChannelRuns.PressAfterRelease | shared/protocol/wire.go:320-324 | with nothing lost, a press delivered after its release leaves the key held through any number of heartbeats, whatever the comment there says |
| ChannelRuns.PerfectChannelMirrors | client/js/input/input.js:221-362 | with nothing lost and everything in order the agent mirrors keys, mask and held buttons after any events |
| PointerRuns.PointerFollows | client/js/input/input.js:221-253 | with nothing lost and everything in order the agent's pointer is where the client last had it, once nothing is pending, and has been moved exactly as far |
| PointerRuns.PressedWhereItWas | client/js/input/input.js:229-244 | and a press that is not locked happens with the pointer there |
| BitGroups.ThereAndBack | client/js/core/util.js:230-276 | cutting bytes into sextets and back gives the bytes |
| BitGroups.RegroupedIsUnique | client/js/core/util.js:229-248 | a stream of bits is cut into groups in one way only |
| Base64.ToB64 | client/js/core/util.js:230-248 | the loop writes the alphabet's characters of the sextets of the bytes |
| Base64.SextetsRegroup | client/js/core/util.js:230-248 | those sextets are the bits of the bytes in groups of six, filled up with zeros |
| Base64.FromB64 | client/js/core/util.js:259-276 | the loop, its accumulator wrapping at 32 bits, reads exactly the texts of which every unit before the padding is accepted, as the octets of their values |
| Base64.OctetsRegroup | client/js/core/util.js:259-276 | those octets are the bits of the values in groups of eight |
| Base64.RoundTrip | client/js/core/util.js:230-276 | fromB64(toB64(x)) == x for every byte sequence |
| Base64.WideUnitsReadAsA | client/js/core/util.js:265-266 | a unit past the 256-entry table is read as an A instead of being refused |
| Base64.EncodingExactly | client/js/core/util.js:259-276 | a text that is read is, up to plus, slash and padding, what some bytes are written as if and only if no unit is past the table, its length is not one more than a multiple of four, and what fills up its last sextet is zeros |
| Base64.SingleLetter | client/js/core/util.js:259-276 | one letter is read as no bytes at all, and two with bits left over as one byte; neither is what any bytes are written as |
| Base64.AlphabetVectors | client/js/core/util.js:224-229 | two byte sequences and the texts they are written as, among them the two characters only the URL alphabet has |
| Fingerprint.FingerprintDigits | client/js/core/identity.js:131-150 | the loop yields twelve digits of the first eight bytes of the digest |
| Fingerprint.DigitsRegroup | client/js/core/identity.js:140-148 | those digits are the bits of the bytes in groups of five |
| Fingerprint.SameAsBase32 | shared/idkey/idkey.go:134-141 | they are the first twelve of the thirteen digits base32 makes of the eight bytes |
| Fingerprint.SixtyBits | shared/idkey/idkey.go:134-141 | two fingerprints are alike if and only if the digests agree on their first sixty bits |
| Signing.GoSigningInput | shared/idkey/idkey.go:146-160 | the Go loop builds domain, zero byte and every part after its 32-bit length |
| Signing.JsSigningInput | client/js/core/identity.js:181-190 | the browser builds the same bytes |
| Signing.ConcatBytes | client/js/core/util.js:283-290 | one buffer with all chunks in order |
| Signing.SigningInputInjective | shared/idkey/idkey.go:143-160 | equal signing inputs mean equal domain and equal parts, for zero-free domains and parts under 2^32 bytes |
| Signing.DomainsSeparate | shared/idkey/idkey.go:146-160 | inputs of different zero-free domains never meet, whatever follows them |
| Signing.LongPartCollides | shared/idkey/idkey.go:154-157 | one part of 2^32 zero bytes and 2^30 + 1 empty parts sign alike |
| Signing.UnambiguousExactly | shared/idkey/idkey.go:143-160 | for zero-free domains, signing inputs of parts shorter than a limit tell everything apart if and only if the limit is at most 2^32 |
| Signing.ZeroInDomainCollides | shared/idkey/idkey.go:152-153 | a domain with zero bytes in it collides |
| Signing.SigningVector | shared/idkey/idkey.go:146-160 | the bytes of a small signing input |
| Signing.GoTranscript | shared/pair/pair.go:249-268 | the nine writes into the hash |
| Signing.JsTranscript | client/js/net/pairing.js:135-152 | the browser's nine pushes give the same bytes |
| Signing.TranscriptInputInjective | shared/pair/pair.go:232-268 | equal transcript bytes mean equal transcripts |
| Signing.TranscriptVector | shared/pair/pair.go:249-268 | the bytes of a small transcript: the domain first, then the eight fields in their order |
| Coordinates.InvertsExactly | shared/protocol/wire.go:488-507 | the Go pair gives a pixel back if and only if p * 65535 mod (size - 1) is at most 32767 |
| Coordinates.SmallSurfacesInvert | shared/protocol/wire.go:488-507 | so every pixel of a surface up to 32769 wide comes back |
| Coordinates.WideSurfaceLosesAPixel | shared/protocol/wire.go:501-507 | pixel 23408 of 32772 comes back as 23407 |
| Coordinates.NormalizeIsMonotone | shared/protocol/wire.go:488-499 | order is kept, out-of-range pixels included, and the result fits 16 bits |
| Coordinates.JsInvertsExactly | client/js/net/protocol.js:376-385 | the browser's pair gives every pixel of a surface back if and only if it is at most 65536 wide |
| Coordinates.CapturedInside | internal/input/input_windows.go:201-203 | the agent's mapping never leaves the capture rectangle |
| Coordinates.SameForEveryStream | shared/protocol/wire.go:173-178 | the position on the wire of a place on the picture does not depend on how wide the stream is |
| Coordinates.LandsNextToTheNearest | internal/input/input_windows.go:201-203 | a pointer anywhere on the picture, at any stream width, lands on the pixel of the capture rectangle nearest to it or the one before, and on the nearest exactly when the browser's rounding did not go below it |
| Coordinates.LandsNearExactly | internal/input/input_windows.go:201-203 | every pointer at every stream width lands there if and only if the rectangle is at most 65536 wide |
| NativeQueues.Session.PublishFrame | agent/native/session.cpp:291-302 | keeps one frame and adds the new one, counting what it drops |
| NativeQueues.Session.NextFrame | agent/native/session.cpp:342-363 | closed, timeout or the oldest queued frame |
| NativeQueues.Session.PublishCursor | agent/native/session.cpp:331-339 | stores the bitmap among the sixteen newest, keeps seven cursors and adds the new one |
| NativeQueues.Session.NextCursor | agent/native/session.cpp:365-371 | the oldest queued cursor, if any |
| NativeQueues.AlwaysAccounted | agent/native/session.cpp:291-371 | published frames are delivered, dropped or queued, each exactly one of these, in order, at most two queued; the store holds the newest bitmaps and at most eight cursors refer to recent ones |
| NativeQueues.NextFrameExactly | agent/native/session.cpp:342-363 | a caller that asks gets the oldest frame neither delivered nor dropped; with none left it is told closed if and only if the session has ended |
| NativeQueues.NewestTwoAreKept | agent/native/session.cpp:291-302 | neither of the newest two frames is ever dropped |
| NativeQueues.NewestCursorsQueued | agent/native/session.cpp:331-339 | of cursors published one after the other the newest eight are queued, in order, each with its own bitmap |
| NativeQueues.CursorsComeInOrder | agent/native/session.cpp:365-371 | and are handed out one by one, the oldest first |
| NativeQueues.DeliveryIsFreshAndInOrder | agent/native/session.cpp:342-363 | a delivered frame is newer than all delivered before it and one of the newest two |
| NativeQueues.ClosedWhenDrained | agent/native/session.cpp:348-349 | closed comes only when every published frame was delivered or dropped |
| NativeQueues.QueuedBitmapsStored | agent/native/session.cpp:331-339 | every queued cursor finds its bitmap in the store |
| NativeQueues.HandedBitmapLasts | agent/native/session.cpp:365-371 | and so does the caller it was handed to while at most eight more bitmaps come |
| SleepHold.Manager.StayAwakeLocked | internal/wake/wake.go:348-359 | extends the deadline and joins the current hold or starts one |
| SleepHold.Manager.TickLocked | internal/wake/wake.go:376-383 | a hold expires at a tick past the deadline |
| SleepHold.AtMostOneLoop | internal/wake/wake.go:344-390 | never two loops that hold or are about to |
| SleepHold.AskedExactly | internal/wake/wake.go:344-359 | a call for a positive time counts, with its deadline, on the one live hold: the one there is, or a new one if there is none |
| SleepHold.ExpiresExactly | internal/wake/wake.go:377-386 | a tick ends a hold if and only if every deadline ever asked for has passed, those of other holds included |
| SleepHold.RefusedDeadlineLingers | internal/wake/wake.go:349-366 | so a refused request keeps a later hold running past all deadlines that count on it |
| SleepHold.AwakeUntilTheDeadline | internal/wake/wake.go:344-390 | until a call's deadline has passed its hold has neither expired nor been released |
| SleepHold.GrantedStaysAwake | internal/wake/wake.go:344-390 | a granted hold stays in force through any later steps up to the deadline of every call that counts on it |
| SleepHold.JoiningIsSafeExactly | internal/wake/wake.go:353-356 | a call that joins the current hold can count on it, whatever comes after, if and only if the hold had been granted by then |
| SleepHold.RefusalDropsJoiners | internal/wake/wake.go:353-368 | the witness: a call that joined a hold still being asked for has none once that is refused |

## Left out

- RateLimit.Limiter.AllowN: the clock is read before the lock is taken; the model takes the instants of a run to be in the order of the calls, which `WindowBound` and `SweepIsInvisible` need and `TableIsBounded` does not.
- RateLimit.Bucket.Allow: floating-point rounding is not modelled; tokens are reals.
- QualityController.Quality.Tick: the several readings of the clock in one update are one instant, and whether the source accepts a size is a parameter.
- RvClientRuns.StepKeepsInv: handlers and the connected callback run on the reading goroutine (client.go:307-336), so a request made inside one waits for a reader that cannot read until it returns; the model keeps callers and reader apart, and its callers are other goroutines.
- RvClient.Client.Register: request numbers do not wrap, and the deadline of a write is part of its failing.
- Hub.Rendezvous.OnConnect: handlers are atomic in the runs, although the lock is taken several times in each; of the interleavings this hides only the one in which the agent leaves while being introduced is modelled, by `HubRuns.LateIntroduction`. Session ids are drawn afresh, the verdicts of limiter and registry are parameters, requests that cannot be parsed are left out, and presence on other occasions than a departure, device lists and pairing messages are left out.
- Hub.Rendezvous.DetachConn: of the presence that is broadcast, the device and whether it is connected are modelled, not its name, wake state and the like; the list of paired clients is a parameter.
- Wire.JsPing: the time is any real number; that a browser number is one of finitely many is modelled where one is read, in `Wire.ToNumber`, and not where it is passed in.
- Injectors.WindowsInjector.Key: the table of scancodes is a parameter with Pause at zero, event flags are left out, and failures of the system call are ignored as in the source.
- Injectors.WindowsInjector.TypeText: the system library's conversion to UTF-16 is represented by `Texts.Units`; that it stops the agent at a zero byte is not modelled, only that nothing is typed.
- InputSession.AgentSession.OnInputMessage: the early return of a pointer move on a desktop one pixel wide is left out. State agreement is for one session before it is closed; the injector is shared by all of them.
- InputClient.InputController.OnPointerDown: which browser event means which usage, button or position, touch gestures, sub-pixel remainders and the wheel are left out; one handler has one clock reading, and there is a session to send to.
- Base64.ToB64: the Go side is the standard library's and is represented by `BitGroups.Regrouped`, the definition of RFC 4648.
- Fingerprint.FingerprintDigits: the digest is a parameter; the alphabet of 32 characters and the two dashes, the same on both sides, are left out.
- Signing.GoSigningInput: signatures, hashes and key derivation are not modelled, only the bytes fed to them; strings are their UTF-8 bytes.
- Coordinates.JsInvertsExactly: the browser's numbers are reals, so the rounding of its divisions is not modelled.
- Coordinates.LandsNextToTheNearest: the second mapping, onto the whole virtual desktop, and the case without a capture rectangle are left out.
- NativeQueues.Session.NextFrame: the wait itself is left out; the method is what happens when it is over. The caller's pointer into a bitmap is its number.
- SleepHold.Manager.StayAwakeLocked: the manager's stop channel, which nothing closes, and a manager without a platform are left out.
- WebRTC, congestion control, WebSocket, JSON, Direct3D, Media Foundation, WASAPI, the clipboard and power configuration are foreign calls.
- The encoder's matching of pending frames: a reset leaves old entries, so the obvious claim fails across rebuilds.
- `forget -all`, which walks a slice that it filters in place, and the rest of configuration and registry persistence.
- Command line, installer, settings and display code, and the canonical form of pairing codes: input and output, or easy members only.
