# Flip10 backend — a Dafny model

Flip10 is a daily coin-flip-streak game. Players buy flip credits on chain. They
authenticate over a WebSocket by signing a nonce and flip a biased coin. The
first player to reach a streak of 10 heads ends the session. The backend
(`backend/src`) is a single process. It holds the live session, the credit
ledger, the last finished session, a per-IP connection table and the hub of
open sockets. This project models that process, keeping the source's
structure:

| file | module | models |
|---|---|---|
| `wrappers.dfy` | `Wrappers` | `Option` and `Result` |
| `digits.dfy` | `Digits` | number-to-text rendering (`String(n)`, `toString(16)`), `padStart`, ASCII `toLowerCase` |
| `allowance.dfy` | `Allowance` | `session/allowance.ts`: the ledger, as a class over a `map` |
| `probability.dfy` | `Probability` | `session/probability.ts`: the clamped heads probability |
| `flip.dfy` | `Flip` | `session/flip.ts`: hash, roll, threshold |
| `players.dfy` | `Players` | the session's player `Map`, keeping insertion order |
| `leaderboard.dfy` | `Leaderboard` | `session/leaderboard.ts`: filter, stable sort, truncation |
| `player_snapshot.dfy` | `PlayerSnapshot` | `session/playerSnapshot.ts` |
| `scheduler.dfy` | `Scheduler` | `session/scheduler.ts`: UTC-day arithmetic |
| `limits.dfy` | `Limits` | `ws/limits.ts`: the per-IP table, as a class |
| `hub.dfy` | `Hub` | `ws/hub.ts`: the socket set and broadcast with pruning, as a class |
| `session_data.dfy`, `protocol.dfy` | `SessionData`, `Protocol` | the session records and the server-to-client messages |
| `store.dfy`, `chain.dfy` | `Store`, `Chain` | the persisted session pointer and the contract calls, as one-field objects |
| `runtime.dfy` | `Runtime` | `session/runtime.ts`: the session singleton, as a class |
| `daily.dfy` | `Daily` | `session/daily.ts`: the start-hour check and one watcher tick |
| `events.dfy` | `Events` | `chain/events.ts`: purchase events and the re-entrancy guard |
| `rebuild.dfy` | `Rebuild` | `chain/rebuildAllowance.ts`: topic encoding and log replay |
| `server_rules.dfy` | `ServerRules` | the decisions of the message handler in `server.ts` as functions |
| `server.dfy` | `Server` | `server.ts`: the connection gate, the per-connection class, its handlers, the boot restore, the IP sweep timer |

The source mutates state in place in several places:

- the ledger's map;
- the IP table;
- the hub's set;
- the runtime's `session`;
- each connection's `let` variables.

These become classes whose methods carry `modifies` clauses. Each method is
proved against a pure function of the old state:

- `Credit`;
- `AfterConnect`, `AfterDisconnect` and `Expire`;
- `Survivors` and `FramesTo`;
- `FlipStep`, `FinalRecord` and `Replay`.

Lemmas then prove the source's promises about those functions.

Everything the process reads from outside becomes a parameter:

- `Date.now()`: one reading per handler call;
- `crypto.randomUUID()` and `randomBytes`;
- keccak256, as `string -> nat`;
- `verifyMessage`, as `(nonce, signature) -> Option<address>`, with `None` where it throws;
- the proof hash;
- whether a socket's `send` throws;
- the logs returned by `getLogs`;
- whether the on-chain start succeeded.

Frames sent to sockets are appended to one `Wire` log. That makes their order
and their addressees part of the postconditions.

Where the written code and its prose description differ, the model follows the
code.

- On a win, `server.ts` imports `clearSession` from `persistence/sessionStore`,
  not from `session/runtime`. The win therefore deletes the persisted pointer
  and leaves the in-memory session in place, marked finalized. It is not set
  to `null`. `EndSession` models exactly that. Because a finalized session is
  not active, the daily watcher still restarts the game on the same day
  (`Daily.RestartsAfterWinSameDay`).
- Only EOA signer recovery (`verifyMessage`) exists. There is no smart-wallet
  verification path.
- The auth nonce is not cleared after a successful `auth_verify`. Once set,
  `authenticated` stays true. A later successful verify rebinds the address.
- `hubRef` in `session/runtime.ts` is set only by `initRuntimeSession`, which
  no shown file calls. Broadcasts from the runtime happen only when it is set.

## Model

| member | source | states |
|---|---|---|
| Allowance.Credit | backend/src/session/allowance.ts:7-9 | the credited address gains exactly `flips`, every other address keeps its balance, and the key set grows by that address only |
| Allowance.CreditKeepsNonNegative | backend/src/session/allowance.ts:7-19 | adding a non-negative amount to non-negative balances keeps every balance non-negative |
| Allowance.Ledger.ResetAllowance | backend/src/session/allowance.ts:3-5 | afterwards every address reads balance 0 |
| Allowance.Ledger.AddFlips | backend/src/session/allowance.ts:7-9 | the new balances are `Credit` of the old ones; non-negativity is preserved |
| Allowance.Ledger.GetFlips | backend/src/session/allowance.ts:11-13 | 0 for an address never credited, else its stored balance |
| Allowance.Ledger.UseFlip | backend/src/session/allowance.ts:15-18 | balance ≤ 0: error `NoFlipsLeft` and nothing changes; otherwise exactly that address loses exactly 1; non-negativity is preserved |
| Probability.OrDefault | backend/src/session/probability.ts:1-3 | an unset, non-numeric or zero setting falls back to the default, any other number is used as is |
| Probability.HeadsProbability | backend/src/session/probability.ts:5-16 | never above 0.60, and equal either to the uncapped percentage / 100 or to the cap |
| Probability.MonotoneInFlips | backend/src/session/probability.ts:10-16 | with a non-negative flip rate, more flips never lower the probability |
| Probability.MonotoneInTime | backend/src/session/probability.ts:9-16 | with a non-negative time rate, a later clock never lowers the probability |
| Probability.AtSessionStart | backend/src/session/probability.ts:1-16 | at the start with no flips the result is min(base, 60)/100, i.e. 0.30 with the defaults |
| Probability.DefaultsAfterTenMinutes | backend/src/session/probability.ts:1-16 | with the defaults, 10 minutes and 100 flips give 0.307 |
| Probability.AtLeastBase | backend/src/session/probability.ts:9-16 | with non-negative rates, from the start on, the probability never drops below min(base, 60)/100 |
| Flip.Roll | backend/src/session/flip.ts:11-15 | the roll is in [0, 10000) |
| Flip.PerformFlip | backend/src/session/flip.ts:3-19 | heads exactly when the roll is strictly below floor(p·10000) |
| Flip.NeverHeadsAtZero | backend/src/session/flip.ts:15-18 | a probability ≤ 0 always gives tails |
| Flip.AlwaysHeadsAtOne | backend/src/session/flip.ts:15-18 | a probability ≥ 1 always gives heads |
| Flip.MonotoneInProbability | backend/src/session/flip.ts:16-18 | heads at p implies heads at any p' ≥ p for the same seed, player and nonce |
| Flip.ThresholdInRange | backend/src/session/flip.ts:16 | for 0 ≤ p ≤ 1 the threshold is in [0, 10000] |
| Flip.FlipMessagesDistinct | backend/src/session/flip.ts:12 | different nonces give different hashed messages |
| Digits.ToBaseRoundTrip | backend/src/session/flip.ts:12 | reading back the rendered digits gives the number: the rendering loses nothing |
| Digits.ToBaseInjective | backend/src/chain/rebuildAllowance.ts:21 | different numbers render differently |
| Digits.PadStart | backend/src/chain/rebuildAllowance.ts:21 | the result has the requested width (or the input's length), ends with the input and is filled with the pad character in front |
| Digits.LeadingZerosValue | backend/src/chain/rebuildAllowance.ts:21 | zero padding does not change a digit string's value |
| Digits.Lower | backend/src/server.ts:145 | same length, every character lower-cased one by one |
| Players.Get | backend/src/server.ts:218-220 | no entry exactly when the address is absent; a found record is that address's entry |
| Players.Put | backend/src/server.ts:247 | the table grows by one exactly when the address is new |
| Players.PutGetSame | backend/src/server.ts:247 | reading the address just written gives the written record |
| Players.PutGetOther | backend/src/server.ts:247 | writing one address leaves every other address's record unchanged |
| Players.PutKeepsOrder | backend/src/server.ts:247 | a known address is updated where it stands, a new one is appended (JavaScript `Map` order) |
| Players.PutKeepsDistinct | backend/src/server.ts:247 | addresses stay distinct; the address order is kept or extended by the new address |
| Leaderboard.ToEntries | backend/src/session/leaderboard.ts:7-11 | one entry per player, in table order, with that player's address and streak |
| Leaderboard.SortByStreak | backend/src/session/leaderboard.ts:13 | sorted by non-increasing streak and a permutation of its input |
| Leaderboard.BuildLeaderboard | backend/src/session/leaderboard.ts:3-15 | at most `limit` entries, each with streak > 0 and equal to a player's entry, sorted by streak |
| Leaderboard.BuildFinalLeaderboard | backend/src/session/leaderboard.ts:17-24 | sorted by streak and a permutation of all players' entries |
| Leaderboard.FilterSortCommute | backend/src/session/leaderboard.ts:12-13 | filtering then sorting equals sorting then filtering |
| Leaderboard.SortIsStable | backend/src/session/leaderboard.ts:23 | the players of any one streak keep their table order (stable sort) |
| Leaderboard.LeaderboardIsTopOfFinal | backend/src/session/leaderboard.ts:3-24 | the live leaderboard is the first `limit` positive-streak entries of the final leaderboard |
| Leaderboard.FinalLeaderboardListsEveryPlayerOnce | backend/src/session/leaderboard.ts:17-23 | every player appears, each address exactly once, and only players appear |
| PlayerSnapshot.BuildPlayerSnapshot | backend/src/session/playerSnapshot.ts:3-17 | the streak is copied; remaining equals the ledger balance; the cooldown is ≥ 0, ≤ 1000 once `now ≥ lastFlipAt`, 0 exactly when a second has passed, and otherwise counts down to `lastFlipAt + 1000` |
| Scheduler.DayStart | backend/src/session/scheduler.ts:4-12 | the UTC midnight at or before now, within one day, a multiple of a day |
| Scheduler.TodaySessionStart | backend/src/session/scheduler.ts:1-15 | today's UTC midnight plus h hours |
| Scheduler.NextSessionStart | backend/src/session/scheduler.ts:17-24 | today's start when now is before it, otherwise that start plus 24 h |
| Scheduler.NextStartWithinADay | backend/src/session/scheduler.ts:17-24 | for 0 ≤ h < 24 the next start is after now, at most a day away, and h hours past a UTC midnight |
| Limits.AfterConnect | backend/src/ws/limits.ts:11-28 | a new IP gets count 1; a capped IP keeps its count; an admitted known IP gains exactly 1; every entry touched gets `lastSeen = now`; other IPs are unchanged |
| Limits.AfterDisconnect | backend/src/ws/limits.ts:30-36 | no-op for an unknown IP; otherwise the count goes down by one but not below 0, with `lastSeen = now`; others are unchanged |
| Limits.Expire | backend/src/ws/limits.ts:38-45 | keeps exactly the entries seen within the last 60 s, whatever their count, unchanged |
| Limits.ConnectKeepsWithinCap | backend/src/ws/limits.ts:11-28 | if every count is ≤ 5 before, every count is ≤ 5 after |
| Limits.DisconnectNeverNegative | backend/src/ws/limits.ts:30-36 | counts never go below 0 |
| Limits.ConnectTracks | backend/src/ws/limits.ts:11-28 | while the table counts the open connections of each IP, the gate admits exactly when fewer than 5 are open, the counting continues, and an IP never has more than 5 open |
| Limits.DisconnectTracks | backend/src/ws/limits.ts:30-36 | closing a connection keeps the table counting open connections |
| Limits.ExpireBreaksTracking | backend/src/ws/limits.ts:38-45 | the sweep as written forgets an IP with 5 open connections, after which a sixth is admitted |
| Limits.ExpireIdle | backend/src/ws/limits.ts:38-45 | corrected sweep: keeps exactly the entries not both stale and without open connections |
| Limits.ExpireIdleTracks | backend/src/ws/limits.ts:38-45 | the corrected sweep keeps the table counting open connections, so the cap holds across sweeps |
| Limits.ExpireIdleKeepsCap | backend/src/ws/limits.ts:38-45 | on the same input as the counterexample, the corrected sweep keeps the entry and refuses the sixth connection |
| Limits.IpTable.CanConnect | backend/src/ws/limits.ts:11-28 | admits exactly when `Admits` holds on the old table; the new table is `AfterConnect` of the old |
| Limits.IpTable.OnDisconnect | backend/src/ws/limits.ts:30-36 | the new table is `AfterDisconnect` of the old |
| Limits.IpTable.CleanupIps | backend/src/ws/limits.ts:38-45 | the deletion loop leaves exactly `Expire` of the old table |
| Limits.IpTable.CleanupIdleIps | backend/src/ws/limits.ts:38-45 | the corrected loop leaves exactly `ExpireIdle` of the old table |
| Hub.Without | backend/src/ws/hub.ts:32-35 | the members are exactly the old ones except the removed socket |
| Hub.WithoutKeepsDistinct | backend/src/ws/hub.ts:32-35 | removal keeps members distinct |
| Hub.WithoutIdempotent | backend/src/ws/hub.ts:32-35 | removing twice is removing once |
| Hub.WithoutAbsent | backend/src/ws/hub.ts:32-35 | removing a non-member changes nothing |
| Hub.SurvivorsMembership | backend/src/ws/hub.ts:19-39 | after a broadcast the members are exactly the old members whose send did not throw; none are added |
| Hub.SurvivorsKeepDistinct | backend/src/ws/hub.ts:19-39 | pruning keeps members distinct |
| Hub.FramesToContents | backend/src/ws/hub.ts:37-38 | the i-th frame goes to the i-th member and carries the one message |
| Hub.DistinctCardinality | backend/src/ws/hub.ts:40-42 | for distinct members, the number of members is the size of their set |
| Hub.Hub.Add | backend/src/ws/hub.ts:28-31 | set semantics: adding a member changes nothing, a new socket is appended |
| Hub.Hub.Remove | backend/src/ws/hub.ts:32-35 | the members become `Without` of the old |
| Hub.Hub.Broadcast | backend/src/ws/hub.ts:19-39 | the members become the survivors of the old members, and each survivor, in order, received the message |
| Hub.Hub.Size | backend/src/ws/hub.ts:40-42 | the number of distinct members |
| Runtime.PublicSnapshotOf | backend/src/session/runtime.ts:112-144 | inactive exactly when no session is active, then carrying the last result (if any) and the next start; otherwise id, start, flips, probability, leaderboard and player count of the session |
| Runtime.SnapshotIgnoresSeed | backend/src/session/runtime.ts:132-143 | the snapshot never depends on the seed |
| Runtime.ActiveLeaderboardShape | backend/src/session/runtime.ts:132-143 | an active snapshot's leaderboard has at most 10 positive-streak entries, sorted, the top of the final standings |
| Runtime.ProofHashOf | backend/src/session/runtime.ts:146-167 | no hash exactly when the session or the last result is missing; otherwise the hash of the seed and the last result |
| Runtime.ProofHashUsesOnlySeed | backend/src/session/runtime.ts:156-162 | of the live session only the seed enters the proof hash |
| Runtime.FreshSession | backend/src/session/runtime.ts:81-88 | id = startedAt = now, not finalized, no players, no flips |
| Runtime.RestoredSession | backend/src/session/runtime.ts:68-75 | id, start and finalized copied from the pointer, no players, no flips, a new seed |
| Runtime.SessionRuntime.GetPublicSessionSnapshot | backend/src/session/runtime.ts:112-144 | equals `PublicSnapshotOf` of the runtime state |
| Runtime.SessionRuntime.ComputeSessionProofHash | backend/src/session/runtime.ts:146-167 | equals `ProofHashOf` of the runtime state |
| Runtime.SessionRuntime.SetLastFinalizedSession | backend/src/session/runtime.ts:42-46 | only the last-result slot changes |
| Runtime.SessionRuntime.ClearSession | backend/src/session/runtime.ts:104-110 | afterwards there is no session and none is active |
| Runtime.SessionRuntime.RestoreSessionFromDisk | backend/src/session/runtime.ts:61-76 | installs `RestoredSession` and empties the ledger |
| Runtime.SessionRuntime.StartNewSession | backend/src/session/runtime.ts:78-90 | empties the ledger, installs an active `FreshSession`, then issues the on-chain start, without persisting yet |
| Runtime.SessionRuntime.CompleteSessionStart | backend/src/session/runtime.ts:90-101 | after a failed on-chain start nothing more happens; otherwise the pointer `{id, startedAt, false}` is saved and `session_started` broadcast |
| Runtime.SessionRuntime.InitRuntimeSession | backend/src/session/runtime.ts:56-59 | attaches the hub and starts a session |
| Daily.LoadStartHour | backend/src/session/daily.ts:4-8 | an unset or non-numeric start hour is an error, any number is accepted |
| Daily.DailyTick | backend/src/session/daily.ts:12-24 | before today's start or with an active session nothing changes; otherwise a fresh session is started |
| Daily.RestartsAfterWinSameDay | backend/src/session/daily.ts:12-24 | after a win, a later tick on the same day starts a new session, earlier than the announced next start |
| Events.OnFlipPurchased | backend/src/chain/events.ts:14-51 | with no session or another session's id no balance changes; otherwise the buyer gains exactly `flips` and nobody else changes |
| Events.Resubscriber.RecreateProviderAndContract | backend/src/chain/events.ts:53-78 | while `recreating` it does nothing; otherwise it sets the flag, attaches a listener on success, and always schedules exactly one delayed reset |
| Events.Resubscriber.OnResetTimer | backend/src/chain/events.ts:74-76 | the delayed callback clears `recreating` |
| Events.Resubscriber.ScheduleResubscription | backend/src/chain/events.ts:80-89 | exactly one resubscription timer is armed |
| Events.Resubscriber.SubscribeToFlipPurchases | backend/src/chain/events.ts:91-99 | the whole new state in each case: while already recreating, nothing but the timer changes and the call succeeds; a successful recreation attaches one listener, schedules one reset and arms the timer; a failing one schedules the reset, attaches nothing, reports the error and leaves the timer as it was |
| Rebuild.SessionTopic | backend/src/chain/rebuildAllowance.ts:21 | starts with `0x` and is at least 66 characters long |
| Rebuild.TopicShape | backend/src/chain/rebuildAllowance.ts:21 | for ids below 16^64 the topic has length 66, its 64 characters are hex digits, and they read back as the id |
| Rebuild.TopicInjective | backend/src/chain/rebuildAllowance.ts:21 | different session ids give different topics |
| Rebuild.ApplyLog | backend/src/chain/rebuildAllowance.ts:28-32 | an unparseable log changes nothing, a parsed one credits its buyer |
| Rebuild.ReplayBalance | backend/src/chain/rebuildAllowance.ts:27-33 | each address ends with its initial balance plus the sum of its parsed purchases |
| Rebuild.ReplayAppend | backend/src/chain/rebuildAllowance.ts:27-33 | replaying two batches in turn is replaying their concatenation |
| Rebuild.SkipsUnparseable | backend/src/chain/rebuildAllowance.ts:28-29 | an unparseable log has no effect wherever it sits |
| Rebuild.ReplayOrderIndependent | backend/src/chain/rebuildAllowance.ts:27-33 | every balance is independent of the order of the logs |
| Rebuild.ReplayTwice | backend/src/chain/rebuildAllowance.ts:27-33 | replay is additive: replaying the same logs twice credits twice |
| Rebuild.ReplayKeepsNonNegative | backend/src/chain/rebuildAllowance.ts:27-33 | replay keeps balances non-negative |
| Rebuild.RebuildAllowanceFromChain | backend/src/chain/rebuildAllowance.ts:10-33 | without the event definition the ledger is unchanged; otherwise the loop leaves `Replay` of the old ledger over the session's logs |
| ServerRules.Arrive | backend/src/server.ts:100-106 | more than 1000 ms after the window start the window restarts at now with count 1; otherwise the count goes up by 1 |
| ServerRules.CountWithinWindow | backend/src/server.ts:100-106 | messages inside one window only raise the count, one each |
| ServerRules.LimitedFromTheTwentyFirst | backend/src/server.ts:100-114 | after a window restart, the newest message is limited exactly when it is at least the 21st message of that window |
| ServerRules.NonceText | backend/src/server.ts:124 | the challenge starts with `flip10:` |
| ServerRules.NonceDistinctTimes | backend/src/server.ts:124 | challenges issued at different times differ, whatever the random part |
| ServerRules.HelloSnapshot | backend/src/server.ts:178-192 | a known player gets its snapshot; an unknown address gets streak 0, its balance and no cooldown |
| ServerRules.HelloUnknownIsFresh | backend/src/server.ts:178-192 | the reply for an unknown address is the snapshot of the fresh record its first flip starts from |
| ServerRules.PlayerOrFresh | backend/src/server.ts:218-220 | the stored record, or `{0, 0, 0}` for a new player |
| ServerRules.AdmitFlipIff | backend/src/server.ts:198-230 | a flip goes through exactly when authenticated, with a live session, with credit, and a second after the last flip; it is ignored exactly when there is no live session |
| ServerRules.SnapshotCooldownMatchesGate | backend/src/session/playerSnapshot.ts:15 | the reported cooldown is 0 exactly when the flip gate lets the player's next flip through |
| ServerRules.FlipStep | backend/src/server.ts:232-247 | total flips up by exactly 1; probability read after that; the pre-flip `flips` as nonce; `lastFlipAt = now`; `flips` up by 1; streak up on heads, 0 on tails; the record written back into the table |
| ServerRules.FlipStepLeavesOthers | backend/src/server.ts:232-247 | other players' records are unchanged |
| ServerRules.NextFlipUsesNextNonce | backend/src/server.ts:236-244 | the player's next flip uses the next nonce, hence a different hashed message |
| ServerRules.WinNeedsHeads | backend/src/server.ts:245-264 | with every streak below 10, a flip wins exactly when it is heads after a streak of 9 |
| ServerRules.FlipStepKeepsSessionOk | backend/src/server.ts:232-264 | addresses stay distinct; a non-winning flip keeps every streak below 10 |
| ServerRules.FinalRecord | backend/src/server.ts:268-276 | the session id, the winner, the session's flip count, the end time and the final leaderboard |
| ServerRules.WinnerHeadsFinalLeaderboard | backend/src/server.ts:264-276 | the winner is first on the final leaderboard with its streak of 10, and everyone else is below 10 |
| Server.KnownPlayerReply | backend/src/server.ts:155-163 | a `player_state` only when a session exists and knows the address |
| Server.FlipReplies | backend/src/server.ts:250-261 | the flip result, then the player snapshot, both to the flipping socket |
| Server.FlipRepliesAfterUse | backend/src/server.ts:250-261 | both replies report one credit fewer than before, agree on the streak, and show a full one-second cooldown |
| Server.Accept | backend/src/server.ts:70-97 | the IP table becomes `AfterConnect`; refused exactly when `Admits` fails, and then closed with 1008 and nothing else; otherwise the socket joins the hub, gets fresh per-connection state and is sent the public snapshot |
| Server.Connection.Send | backend/src/server.ts:125-128 | `ws.send` on the connection's own socket: exactly one frame addressed to it is appended to the log of frames sent, and nothing else changes |
| Server.Connection.OnMessage | backend/src/server.ts:99-309 | the window advances by `Arrive`; a limited message gets only the rate-limit error; malformed and unknown messages change nothing; an unlimited `auth_request`, `auth_verify`, `hello` or `flip` has exactly its handler's effect (the new nonce and challenge; authentication and `auth_ok` plus the player state, or `auth_failed`; the hello snapshot; a rejection with no side effects, or `Played`); the hub and session invariants are kept |
| Server.Connection.HandleAuthRequest | backend/src/server.ts:120-132 | with an address a new nonce replaces the pending one and is sent; without one nothing happens |
| Server.Connection.HandleAuthVerify | backend/src/server.ts:134-170 | authenticates and binds the address exactly when the pending nonce's signer equals it ignoring case, then sends `auth_ok` and the known player's state; otherwise sends only `auth_failed` and changes nothing |
| Server.Connection.HandleHello | backend/src/server.ts:172-195 | without an address or a session nothing is sent; otherwise the `HelloSnapshot` of the address |
| Server.Connection.HandleFlip | backend/src/server.ts:197-305 | a rejection sends only its reason, an ignored flip sends nothing, and neither changes any state; an accepted flip leaves the state `Played` describes |
| Server.Connection.PlayFlip | backend/src/server.ts:232-302 | exactly one credit used; the session becomes `FlipStep`'s; the two replies in order; on a win, `EndSession`'s effects after them |
| Server.Connection.EndSession | backend/src/server.ts:264-301 | the session is finalized and kept; the last result is `FinalRecord`; finalization is submitted with the proof hash of that state; `session_ended` with the next start is broadcast; the persisted pointer is deleted |
| Server.Connection.OnClose | backend/src/server.ts:311-314 | the socket leaves the hub and the IP table becomes `AfterDisconnect` |
| Server.RestoreOnBoot | backend/src/server.ts:38-45 | a pointer to an unfinished session is reinstated and its credits replayed from the logs; otherwise nothing changes |
| Server.CleanupTick | backend/src/index.ts:5 | the periodic sweep runs `cleanupIps` as written: the table becomes `Expire` of the old one, every entry idle for more than 60 s removed whatever its open count |

## Left out

- Fastify wiring, the HTTP routes (`/health`, `/session`), the plugin registration, the port and host, and the socket's IP extraction. The IP is a parameter of `Server.Accept`.
- `session/tick.ts`, the periodic session ticker, is not part of this model.
- `persistence/sessionStore.ts` file I/O. The persisted pointer is a one-slot object, and a failing read or write is not modelled.
- `session/session.ts`, `backend/scripts/`, `frontend/` and `frontend_baseapp/` are not part of this model.
- Timers and asynchrony. Each `setInterval`/`setTimeout` callback is one method: `Daily.DailyTick`, `Server.CleanupTick`, `Events.Resubscriber.OnResetTimer`. Interleavings of awaits with other handlers are not modelled.
- Runtime.SessionRuntime.StartNewSession: modelled as two steps: the synchronous part, then `CompleteSessionStart` with the outcome as a parameter. A rejection of that promise, which nothing catches, is not modelled further.
- Server.Connection.EndSession: finalization on chain is fire-and-forget. The model records the submission with the hash computed synchronously and leaves out the later transaction and its errors.
- Server.RestoreOnBoot: the replay runs to completion before any message. What `getLogs` returns is a parameter.
- Floating point. Probabilities are exact reals, so IEEE-754 rounding of the probability and of `Math.floor(p·10000)` is not modelled.
- Clock readings. Each handler uses one `now`, where the source calls `Date.now()` several times within one synchronous run: the id and `startedAt` of a new session, `endedAt`, the nonce's timestamp, the snapshot's cooldown.
- Message fields that are not strings. The model's address and signature fields are absent, a string or an empty string. A truthy non-string value in the source behaves as follows, and nothing throws out of a handler: `auth_request` issues the nonce and sends `auth_challenge` as for any truthy address; `hello` finds no player under it and sends the fresh-player state; `auth_verify` throws inside its inner `try` (in `verifyMessage` or `toLowerCase`) and answers `auth_failed`, which is the model's failed-verification case. Such a value is not a case of the model's types.
- Digits.Lower: lower-cases ASCII only. Addresses are hex, and other characters are compared as they are.
- Server.Connection.Send: a per-connection `ws.send` is assumed not to throw. In the source such a throw would end the handler early inside its `try`.
- Events.Resubscriber.RecreateProviderAndContract: creating the provider and contract is not part of this model, and its success is a parameter. `createProvider` and `getAuthorityWallet` are not exported by `chain/base.ts`.
- Event amounts, session ids and hashes are unbounded integers. `Number(bigint)` precision loss and keccak's 256-bit width are not modelled; the roll only uses `hash mod 10000`.
- Daily.LoadStartHour: a start hour is any integer, of any size or sign; `Scheduler.TodaySessionStart` adds it as whole hours to midnight, which is what `Date.UTC` does when it carries an out-of-range hour into another day. Fractional hours (a value such as `7.5`) are not modelled. An empty `SESSION_START_HOUR` converts to 0 and is modelled as `Some(0)`, hour 0.

## Findings

| source | as written | input that shows it | evidently intended | confidence | as-written member | corrected member |
|---|---|---|---|---|---|---|
| backend/src/ws/limits.ts:38-45 | the sweep deletes every entry last seen more than 60 s ago, even when it still counts open connections | an IP opens 5 connections at time 0 and keeps them open; the sweep at 60001 deletes its entry, and a sixth connection from that IP is admitted (the cap of 5 no longer holds, and later disconnects undercount) | expire only entries that are stale and have no open connection, so the per-IP cap holds at all times | not executed | Limits.ExpireBreaksTracking | Limits.ExpireIdleTracks |
