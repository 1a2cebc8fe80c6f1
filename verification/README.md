# Verified models of the randomizer client's state machines

The repository is an in-process Archipelago client for a game. Most of it is hooks into foreign memory; its
logic sits in small state machines driven by ticks, queues and acknowledgements that may never come. This
project models those machines in Dafny and proves what their comments, tests and callers rely on.

Every component has two layers. The first is a value-level form: a datatype for the state, a function for each
operation, and lemmas over whole runs. The second is the component in the shape it has in the client: classes
with fields, loops over arrays and lists, early returns. Each method is proved to take the state exactly where
the function says; constructors establish the initial state of the runs, and the smallest setters are proved the
same way without a row of their own. What the outside world does (the game accepting a write, a player being
present, the server re-delivering its list, a reading being available) is an input of each step, so results hold
for every answer it could give. History that the client does not keep, such as why a receipt is recorded or what
was sent on which connection, is carried in ghost fields or in the specification state.

| file | module | component |
|---|---|---|
| GrantModel, GrantRuns, GrantFates, GrantPipeline | GrantModel, GrantRuns, GrantFates, GrantPipelines | inbound grants: offer, queue, apply, acknowledge |
| LinkModel, LinkRuns, LinkHistory, ApLink | LinkModel, LinkRuns, LinkHistory, ApLinks | network link: session identity, item cursor, event order |
| EndToEnd | EndToEnd | link and grants composed |
| DeathGate, DeathHooks, DeathHistory | DeathGate, DeathHookRuns, DeathHistory | deathlink gate and its driver |
| SceneWalk | SceneWalk | budgeted walk of the scene graph |
| Signatures, Carving | Signatures, Carving | masked search, carving, runtime resolving |
| Outbound, OutboundHistory | Outbound, OutboundHistory | checks sent to the server, resend gate |
| Traps, TrapHistory | Traps, TrapHistory | timed modifiers against refused writes |
| Burrow | Burrow | land/water boundary watcher |
| Banner | Banner | message banner queue |
| Chests | Chests | weak chest handles |
| Kear | Kear | key ledger |
| LoginPrefs | LoginPrefs | saved login file |
| LogRing | LogRing | log ring |
| Base64Pem | Base64Pem | certificate printer |
| CapSuffix | CapSuffix | self-replacing cap suffix |

## What is shown

The operations are specified by functions, and what those functions are worth is stated without them: over the inputs
of a run, the raw item ids and readings, and the numbers the client uses.

- **Inbound grants.** After any run of deliveries, console grants, passes, drains, releases, rebuilds and session
  ends, the in-flight set equals the duplicate-free receipts of the queue, every recorded receipt is there for
  exactly one reason, and none ran twice. What becomes of a receipt is told by its item id and its place among its
  like in the stream: one open pass and one ready drain have run what is to be handed out, as that type, and recorded
  the rest. Nothing overtakes a refused offer, and what waits keeps its turn.
- **Link.** The connected flag is what the event stream says, identity changes are announced before the connection
  that brings them, and however often the server starts its list over the game holds, at every moment, exactly a
  prefix of it, with everything delivered in it. When there is a client, when an attempt is pending, and what each
  input pushes are given by the inputs. Composed with the grants this is exactly-once from the server's list to the
  save, and whatever is delivered is handed out.
- **Deathlink.** The gate's flags are an exact function of its history of polls, bounces and kills, broadcasts and
  kills are spaced, a latched bounce runs out. A poll sends a death out, and an input kills the player, exactly when
  the history of inputs says so.
- **Scene walk.** It ends on any graph, cyclic ones included, walks depth first, and counts what it met. Whatever no
  guard or visitor ended has shown everything reachable through the part of each node it looks at, once each on a
  tree; on a small tree no guard trips.
- **Signatures.** The anchored search equals the naive scan, uniqueness is sticky while a pattern grows, and what is
  carved the runtime resolver takes back, at every load address, to what its site denotes. Anything ambiguous fails.
- **Outbound.** Which ids a save and the session fallback hold, and what each input sends, are given by what was
  collected, reported and seen before; a check collected under a save reaches the server.
- **Traps.** A countdown runs exactly as long as some arm has gameplay time left on it; the bits forced on are exactly
  those counting down, waiting for their lift, or the player's own.
- **Burrow, banner, chests, keys, printers.** An exact characterisation of when the boundary gate acts, conservation
  of messages, handles and keys, and round trips for the printers. The banner results ask for no monotone clock: the
  promotion spacing alone keeps start times apart.

## Where the code does not do what it says

Each is a lemma about the code as it is, with the exact condition under which it does.

- Rebuilding the inbound granter over a live one runs a receipt the pass offers twice exactly when it was queued
  before (`RebuildRunsTwiceIff`); released first it runs once (`ReleasedFirstRunsOnce`), which is what the caller's
  readiness guard secures.
- The gate itself never echoes, but a local death still waiting for its death screen can be sent out after an
  inbound death was applied, in the very same poll or later. It can exactly when such a wait was open before the step
  and the step does not use up its last tick (`EchoPossibleIff`); a spark revival reaches that (`EchoIsReachable`).
- Thirty settled polls separate two broadcasts exactly when the first edge fell on an advanced poll or on a broken
  streak (`EdgeSpacingIff`).
- The slot-connected handler drops the connect deadline before anything in it can throw, so the parse failure its catch
  clause means to report, and any later throw there, ends a first handshake without a report (`ThrowIsReportedIff`,
  `BadSlotDataIsSilent`).
- The resend gate misses a reconnect that no tick saw: no later tick sends anything on it, and coverage survives exactly
  when nothing is recorded (`UnseenReconnectIff`; `UnseenReconnectIsReachable` has something recorded).
- Carving without a cross-reference in range returns the longest pattern, not the minimal unique one its
  documentation names (`FallbackIsNotMinimal`). It stops at the first unique prefix exactly when no cross-reference is
  asked for, that prefix holds one, the instructions end there, or the byte limit is reached (`FallbackMinimalIff`). An
  anchored search honours a cap of at least one (`EffectiveCap` in the contract of `MatchOffsets`).
- A data reference whose displacement offset points outside the text is carved without complaint and resolves at no
  load address; inside it, it resolves to what its site denotes (`CarveEntry`, `ResolvableIff`).
- The cap suffix replaces itself exactly for non-negative caps (`AbsorbsIff`).
- Reconciling the key ledger moves the save alone: the player's mirror stays in step exactly when nothing had leaked,
  and the next lock undoes the reconciliation (`ReconcileKeepsLeadIff`).
- Holding in memory what a reload would produce is secured for values that are set; a value read from a file that ends
  it in two carriage returns changes on the next load, and only such a value (`ReloadStableIff`, `TwoReturns`).

## Model

| member | source | states |
|---|---|---|
| EndToEnd.ExactlyOnceEndToEnd | src/mth/core/inbound_granter.cpp:57-213 | for every link run, however much of its queue was taken, fed into every pipeline run: the stream is a prefix of the server's list for the session it is in, and a willing pass plus a ready drain record each entry once, for one reason, run at most once |
| EndToEnd.DeliveredIsHandedOut | src/mth/core/inbound_granter.cpp:57-213 | what a live client delivers, with the queue taken, is in the stream at its list index, and if it is to run and was not on record, an open pass and a ready drain have run it as the type its id and place call for |
| EndToEnd.HandedOutEndToEnd | src/mth/core/inbound_granter.cpp:57-213 | every entry of the list that is to be handed out and was not on record has run, as the type its item id and its place among its like call for |
| EndToEnd.StreamIsAPrefixOfTheList | src/mth/core/ap/ap_state.cpp:107-120 | at every moment the pipeline's receipt stream is a prefix of the list of the session it is in; with the queue taken that is the link's session and everything received |
| EndToEnd.FeedIsWhatTheGameHolds | src/mth/core/ap/ap_state.cpp:34-46 | the deliveries and session ends taken from the events build exactly what the game thread holds |
| EndToEnd.StreamFollowsFeed | src/mth/app/app.cpp:406-422 | interleaved with any other commands, only deliveries and session ends shape the stream |
| EndToEnd.SettledIsComplete | src/mth/features/item_granter.cpp:173-206 | after any run, a willing pass and a ready drain leave a sound ledger holding every receipt owed |
| GrantRuns.AtMostOncePerSave | src/mth/core/inbound_granter.cpp:34-55 | after any run: in-flight equals the queue's receipts without repeats while a granter lives, only console grants are queued otherwise, and each save records each receipt for one reason and ran it at most once |
| GrantFates.FatesAreMet | src/mth/core/inbound_granter.cpp:69-213 | after any run, an open pass and a ready drain bring the first receipt of each index that was not on record to its fate, told by item id and count in the stream alone: run as that game type, or recorded without running |
| GrantFates.OpenPassMeetsFate | src/mth/core/inbound_granter.cpp:69-213 | an open pass queues such a receipt as the type it is fated to be, or records it, whatever a trap elsewhere answers |
| GrantFates.StepTouchesByName | src/mth/features/item_granter.cpp:197-205 | only a ready drain runs anything, and exactly what is queued in that order; only a pass records without running, and only as a credited key, a chain receipt past its top, an answered trap, or a plain id the game has no type for |
| GrantFates.TickRecordsByName | src/mth/core/inbound_granter.cpp:81-193 | a pass records a receipt without running it only in one of those four ways, by item id |
| GrantFates.TickQueuesByFate | src/mth/core/inbound_granter.cpp:90-212 | a pass queues only what is fated to run, as the type queued |
| GrantFates.DutyIsFate | src/mth/core/inbound_granter.cpp:71-212 | the segments of the pass agree with the table of item ids, chain counts and game types |
| GrantFates.RunKeepsFates | src/mth/core/inbound_granter.cpp:48-55 | on every run each queued receipt carries the type it is fated to be |
| GrantFates.DrainRunsInOrder | src/mth/features/item_granter.cpp:197-205 | a ready drain runs everything queued with a receipt, after what ran before and in the order queued, and records nothing else |
| GrantFates.WaitingKeepTheirTurn | src/mth/features/item_granter.cpp:173-195 | short of a ready drain or a release, commands add to the queue at the back only |
| GrantFates.ConsoleJoins | src/mth/features/item_granter.cpp:136-161 | a console grant joins the queue exactly when the player is there and the game has the type |
| GrantRuns.NothingIsLost | src/mth/core/item_granter_interface.hpp:24-31 | after any run, one pass and one drain that meet no refusal record every receipt the pipeline answers for |
| GrantRuns.NoOvertaking | src/mth/core/inbound_granter.cpp:108-109 | a receipt newly handled by a pass implies every earlier receipt that can end the pass is handled, so no later tier goes out after a refused offer |
| GrantRuns.TickConsumesOnlyByName | src/mth/core/inbound_granter.cpp:81-193 | a pass runs nothing itself and records a receipt without running it only as a credited key, a tier past the top, a trap that answered, or a type the game does not have |
| GrantRuns.OfferedTypeStable | src/mth/core/inbound_granter.cpp:90-92 | later receipts never change the type an earlier one stands for |
| GrantRuns.QueuedTypesFollowTheStream | src/mth/core/inbound_granter.cpp:114-133 | on every run each queued receipt carries the type of its stream position, whatever is granted or in flight |
| GrantRuns.RebuildRunsTwiceIff | src/mth/app/grant_pipeline.cpp:29-46 | after a rebuild on the same save, a willing pass and a ready drain run every unrecorded receipt the pass offers twice if it was queued before and once if not |
| GrantRuns.ReleasedFirstRunsOnce | src/mth/app/grant_pipeline.cpp:40-46 | released before the rebuild, the same steps run each of them exactly once |
| GrantRuns.WillingTickQueues | src/mth/core/inbound_granter.cpp:202-212 | a willing pass queues an offered receipt that is not on the books exactly once more, whatever the queue holds |
| GrantRuns.ApplyTimes | src/mth/features/item_granter.cpp:197-205 | a batch runs each receipt as often as it was queued in it |
| GrantRuns.StepKeepsSound | src/mth/app/grant_pipeline.cpp:29-57 | deliveries, console grants, passes, drains, releases, session ends and builds all keep the invariant |
| GrantRuns.RunIsSound | src/mth/app/grant_pipeline.cpp:42-57 | every reachable pipeline state is sound |
| GrantRuns.TickKeepsInv | src/mth/core/inbound_granter.cpp:69-213 | a pass stopped anywhere keeps in-flight equal to the queue's receipts, disjoint from the recorded ones |
| GrantRuns.DrainKeepsInv | src/mth/features/item_granter.cpp:173-206 | a drain keeps the invariant whatever arrives meanwhile, and a ready one records exactly the receipts that were queued |
| GrantRuns.ApplyKeepsLedger | src/mth/features/item_granter.cpp:197-205 | at every point inside a batch the receipts in flight are those of its unapplied rest |
| GrantRuns.PassedMeansHandled | src/mth/core/inbound_granter.cpp:69-213 | a pass that got beyond a receipt that could end it has handled that receipt |
| GrantRuns.TickOnlyAdds | src/mth/core/inbound_granter.cpp:43-46 | no pass forgets a handled receipt |
| GrantRuns.WillingTickHandlesAll | src/mth/core/inbound_granter.cpp:69-213 | a pass that meets no refusal is never cut short and handles every receipt owed |
| GrantPipelines.StoppedStays | src/mth/core/inbound_granter.cpp:108-109 | once a pass breaks off, nothing later in the stream has any effect |
| GrantPipelines.ItemGranter.NotifyApplied | src/mth/core/item_granter_interface.hpp:39-45 | a receipt reaches the installed sink once, a console grant never, a disarmed sink records nothing |
| GrantPipelines.ItemGranter.Grant | src/mth/features/item_granter.cpp:136-161 | refused without hook or player, acknowledged unrun for a type the game lacks, queued at the back otherwise |
| GrantPipelines.ItemGranter.DiscardPending | src/mth/features/item_granter.cpp:163-171 | the queue is emptied and nothing is acknowledged |
| GrantPipelines.ItemGranter.Drain | src/mth/features/item_granter.cpp:173-206 | swap out, requeue at the front when not ready, otherwise run each item, console ones included, and acknowledge it in order |
| GrantPipelines.InboundGranter.OnApplied | src/mth/core/inbound_granter.cpp:36-41 | moves the receipt from in flight to recorded |
| GrantPipelines.InboundGranter.Offer | src/mth/core/inbound_granter.cpp:48-55 | in flight before the call, taken back out exactly on refusal, synchronous acknowledgement included |
| GrantPipelines.InboundGranter.OfferTier | src/mth/core/inbound_granter.cpp:100-111 | a tier past the top is consumed, any other offered; only a refusal ends the pass |
| GrantPipelines.InboundGranter.TickReceipt | src/mth/core/inbound_granter.cpp:71-212 | one receipt's segment, with its continue and break, is the specified step |
| GrantPipelines.InboundGranter.Tick | src/mth/core/inbound_granter.cpp:57-213 | the loop with running tallies equals the pass that recounts the stream at every position |
| GrantPipelines.GrantPipeline.ReleaseInbound | src/mth/app/grant_pipeline.cpp:40-46 | is the release step of the pipeline runs: no queue and no granter survive, the ledgers stay |
| GrantPipelines.GrantPipeline.BuildInbound | src/mth/app/grant_pipeline.cpp:29-33 | rebuilds as the pipeline runs say, and with no granter live is their build step |
| GrantPipelines.GrantPipeline.Grant | src/mth/app/grant_pipeline.cpp:23-27 | is the console step of the pipeline runs |
| GrantPipelines.GrantPipeline.Tick | src/mth/app/grant_pipeline.cpp:48-52 | is the pass step of the pipeline runs, with or without a live granter, and keeps their invariant |
| GrantPipelines.GrantPipeline.Drain | src/mth/app/grant_pipeline.cpp:54-57 | is the drain step of the pipeline runs, with or without a live granter, and keeps their invariant |
| LinkRuns.GameHoldsAPrefixOfTheList | src/mth/net/ap_link_apclient.cpp:405-415 | over any run of connects, drops, timeouts and re-deliveries the game thread holds exactly the first cursor+1 entries of the session's list |
| LinkRuns.GameHoldsAPrefixAlways | src/mth/core/ap/ap_coordinator.cpp:21-32 | after any part of the event stream the game thread holds a prefix of the list of the session that part breaks off in |
| LinkHistory.DeliveredIsHeld | src/mth/net/ap_link_apclient.cpp:405-415 | whatever a live client delivers the game thread holds once it has taken the queue |
| LinkHistory.DeliveryReaches | src/mth/net/ap_link_apclient.cpp:405-415 | a delivered item is the entry of the session's list at its index, and the cursor has passed it |
| LinkHistory.HeldStaysHeld | src/mth/net/ap_link_apclient.cpp:367-380 | and keeps it as long as the link's identity stays the same |
| LinkHistory.PushesExactly | src/mth/net/ap_link_apclient.cpp:232-403 | which events every input but a delivery pushes, in order, by whether a client is alive, an attempt pending, the link up and who authenticated last |
| LinkHistory.FlagsAreHistory | src/mth/net/ap_link_apclient.cpp:253-317 | the deadline is armed exactly while an attempt is pending, there is a client exactly while one is alive, the link is connected exactly while it is up, all by the inputs |
| LinkHistory.IdentityIsHistory | src/mth/net/ap_link_apclient.cpp:367-380 | the session is that of the last handshake of a live client that got as far as naming it |
| LinkHistory.AnsweredIff | src/mth/net/ap_link_apclient.cpp:335-403 | a live client's attempt is pending exactly while no drop, handshake or refusal has answered it |
| LinkRuns.PrefixInOrder | src/mth/net/ap_link_apclient.cpp:367-415 | in every part of the stream the items since its last session boundary are such a prefix |
| LinkRuns.SessionAtEnd | src/mth/net/ap_link_apclient.cpp:372-380 | the whole stream breaks off in the link's own session |
| LinkRuns.StepAppends | src/mth/net/ap_link_apclient.cpp:214-263 | steps only append, a session can end only in the first event of one, and a step that pushes nothing changes neither identity nor cursor |
| LinkRuns.RunInOrder | src/mth/net/ap_link_apclient.cpp:367-380 | the items since the session began are a prefix of that session's list, however often the server starts over |
| LinkRuns.ConnectedIffStreamSaysSo | src/mth/net/ap_link_apclient.cpp:374-395 | between steps the connected flag equals the last lifecycle event; every change of identity is announced before the connection that brings it; and while the last session announced stands, its identity is the link's |
| LinkRuns.RunIsSound | src/mth/net/ap_link_apclient.cpp:214-263 | every reachable link agrees with its stream, whose sessions list strictly increasing indices at every point |
| LinkRuns.StepKeeps | src/mth/net/ap_link_apclient.cpp:214-263 | only a new identity re-arms the cursor, and only item deliveries add items |
| LinkRuns.GameSeesTheStream | src/mth/core/ap/ap_state.cpp:107-120 | the game thread's own cursor never drops an item event of such a stream |
| LinkRuns.ItemsInOrder | src/mth/net/ap_link_apclient.cpp:405-415 | a re-delivered stretch of the list extends what was seen without gap, repeat or reordering |
| LinkRuns.ThrowIsReportedIff | src/mth/net/ap_link_apclient.cpp:232-252 | a throw is reported exactly when the link was up, or the deadline was armed and the slot-connected handler did not raise it, wherever in it |
| LinkRuns.BadSlotDataIsSilent | src/mth/net/ap_link_apclient.cpp:352-395 | a first handshake whose handler throws, parsing slot_data or later, ends with no report: no event at all, or the session end alone |
| LinkRuns.AuthenticateKeeps | src/mth/net/ap_link_apclient.cpp:367-395 | authenticating, or throwing on the way, keeps soundness; a changed identity that got as far as the boundary empties the session's items, everything else keeps them |
| LinkRuns.DisconnectKeeps | src/mth/net/ap_link_apclient.cpp:307-317 | tearing a client down keeps soundness and the session's items |
| LinkRuns.ConnectKeeps | src/mth/net/ap_link_apclient.cpp:265-305 | every outcome of a connect attempt keeps soundness and the session's items |
| LinkRuns.CatchThrowKeeps | src/mth/net/ap_link_apclient.cpp:238-251 | so does a throw out of the poll |
| LinkRuns.TimeoutKeeps | src/mth/net/ap_link_apclient.cpp:253-259 | so does the connect deadline |
| ApLinks.ApLink.DrainEvents | src/mth/core/ap/ap_coordinator.cpp:21-26 | hands over the whole queue in order and leaves it empty; nothing pushed is lost |
| ApLinks.ApLink.DoDisconnect | src/mth/net/ap_link_apclient.cpp:307-317 | reports a disconnect exactly when the link was up |
| ApLinks.ApLink.DoConnect | src/mth/net/ap_link_apclient.cpp:265-305 | one refusal per failed precondition, otherwise a connecting event and an armed deadline |
| ApLinks.ApLink.OnSocketDisconnected | src/mth/net/ap_link_apclient.cpp:335-341 | drops flag and deadline and reports |
| ApLinks.ApLink.OnSlotRefused | src/mth/net/ap_link_apclient.cpp:397-403 | drops flag and deadline and reports the refusal |
| ApLinks.ApLink.OnSlotConnected | src/mth/net/ap_link_apclient.cpp:352-395 | session boundary first when the identity changed, then the connection, then the flag; a throw before or after the boundary is caught around the poll |
| ApLinks.ApLink.OnItemsReceived | src/mth/net/ap_link_apclient.cpp:405-415 | exactly the items past the cursor become events, in order |
| ApLinks.ApLink.OnPollThrow | src/mth/net/ap_link_apclient.cpp:238-251 | disconnect if up, refusal if the deadline was armed, nothing otherwise |
| ApLinks.ApLink.CheckDeadline | src/mth/net/ap_link_apclient.cpp:253-259 | a passed deadline tears down and reports once |
| DeathGate.BroadcastIff | src/mth/core/death_broadcast_gate.hpp:16-20 | a poll broadcasts exactly when it reads a death and the respawn has settled since every earlier death reading and every inbound one |
| DeathGate.FlagsAreHistory | src/mth/core/death_broadcast_gate.hpp:53-117 | latch and suppression hold exactly while a death reading, respectively an inbound notice, has not been followed by a settled respawn, all of it read off the operations |
| DeathGate.SettlesIff | src/mth/core/death_broadcast_gate.hpp:24-27 | the gate lifts its flags exactly on the poll that completes thirty settled polls, unbroken on advanced polls, after every kill's grace was spent or cut |
| DeathGate.StreakIsHistory | src/mth/core/death_broadcast_gate.hpp:55-80 | the streak reaches n exactly when such a stretch of n settled polls leads up to the present |
| DeathGate.GraceIsHistory | src/mth/core/death_broadcast_gate.hpp:59-66 | what is left of the grace, by the advanced polls and death readings since each kill |
| DeathGate.NoEcho | src/mth/core/death_broadcast_gate.hpp:107-117 | from an applied death until the gate next reads stably alive nothing is broadcast, under any mix of polls, bounces and kills |
| DeathGate.EdgeSpacingIff | src/mth/core/death_broadcast_gate.hpp:55-93 | thirty settled polls before the next broadcast are guaranteed exactly for an edge on an advanced poll or a broken streak |
| DeathGate.LatchHolds | src/mth/core/death_broadcast_gate.hpp:67-87 | a latch is lifted only by settled polls that complete the streak |
| DeathGate.StableAfterKillTakes | src/mth/core/death_broadcast_gate.hpp:46-50 | stable again after a kill takes thirty settled polls, and 270 advanced ones when no dying poll cuts the grace |
| DeathGate.StreakIsEarned | src/mth/core/death_broadcast_gate.hpp:55-80 | the streak never exceeds the settled polls, and the grace is spent before it starts |
| DeathGate.AlivePolls | src/mth/core/death_broadcast_gate.hpp:67-76 | n alive polls raise the streak by n up to the threshold, where both flags lift |
| DeathGate.DeathBroadcastGate.Observe | src/mth/core/death_broadcast_gate.hpp:53-96 | one poll is the specified transition |
| DeathGate.DeathBroadcastGate.NoteInboundDeathApplied | src/mth/core/death_broadcast_gate.hpp:112-117 | suppresses, arms the grace and unsettles at once |
| DeathHookRuns.KillsAreSpaced | src/mth/features/death_hooks.cpp:143-177 | any two requested deaths of any run are thirty settled polls apart, 270 advanced ones without a dying poll between |
| DeathHistory.SendsIff | src/mth/features/death_hooks.cpp:120-138 | a poll sends a death out exactly when some earlier poll read a fresh death with no spark last held, no reset came since, every poll since read elsewhere, fewer than 720 of them, and this one reads the death screen or nothing; no other input sends |
| DeathHistory.GivenUp | src/mth/features/death_hooks.cpp:137-138 | after 720 polls elsewhere the last such death is given up, whatever comes next |
| DeathHistory.CastIsHistory | src/mth/features/death_hooks.cpp:105-138 | on every run the ticks left to a local death are given by the inputs |
| DeathHistory.DiesIff | src/mth/features/death_hooks.cpp:143-233 | an input requests a death exactly when it is a bounce, or a poll with a bounce waiting, no death is in progress, the player is settled, not frozen and not in an area change, and area and call are there, all by the inputs |
| DeathHistory.DriverIsHistory | src/mth/features/death_hooks.cpp:181-233 | on every run the gate saw the operations the inputs amount to, and the window left to a waiting bounce is 1200 less the gameplay ticks outside area changes since the first one put off |
| DeathHistory.ReadingsAreHistory | src/mth/features/death_hooks.cpp:62-103 | last clock, standing clock and sparks last held alive, by the inputs |
| DeathHistory.WaitsSnoc | src/mth/features/death_hooks.cpp:181-232 | what one input does to a waiting bounce: only the first one put off starts the wait, and what ends it |
| DeathHistory.AwaitsSnoc | src/mth/features/death_hooks.cpp:105-138 | what one input does to a death waiting for its screen |
| DeathHistory.EdgeIsFreshDeath | src/mth/features/death_hooks.cpp:105-107 | the driver sees an edge exactly when the history ends in a fresh death |
| DeathHookRuns.RunIsTrace | src/mth/features/death_hooks.cpp:81-118 | a run acts on the gate as its trace of polls, bounces and kills, and every kill starts from a stable gate |
| DeathHookRuns.LatchedBounceRunsOut | src/mth/features/death_hooks.cpp:179-202 | a latched bounce's window shrinks by exactly the advanced ticks outside area changes, so it waits fewer than 1200 of them |
| DeathHookRuns.WindowNeverExceeds | src/mth/features/death_hooks.cpp:219-232 | on no run does the window exceed 1200: further bounces never extend it |
| DeathHookRuns.EchoPossibleIff | src/mth/features/death_hooks.cpp:120-138 | a requested death can be echoed, in the requesting step or on any run before the respawn settles, exactly when a local death was waiting for its screen before the step and the step does not use that wait up |
| DeathHookRuns.EchoFromIff | src/mth/features/death_hooks.cpp:123-138 | from an unsettled suppressed gate something is sent out before it settles exactly when a wait is open |
| DeathHookRuns.NoCastFromAKill | src/mth/features/death_hooks.cpp:105-117 | with no such wait open nothing is sent until the respawn settles |
| DeathHookRuns.EchoIsReachable | src/mth/features/death_hooks.cpp:120-138 | a run from start reaches a requested death that can be echoed |
| DeathHookRuns.DeathHooks.Advance | src/mth/features/death_hooks.cpp:62-79 | advanced and stalled are told apart for pause, missing clock, moving clock and standing clock |
| DeathHookRuns.DeathHooks.TryApplyInboundDeath | src/mth/features/death_hooks.cpp:143-177 | retried without a settled player, dropped without area or call, applied and unsettled otherwise |
| DeathHookRuns.DeathHooks.DrivePending | src/mth/features/death_hooks.cpp:181-202 | served by a death in progress, applied, dropped, or aged on advanced ticks outside area changes |
| DeathHookRuns.DeathHooks.DriveBroadcast | src/mth/features/death_hooks.cpp:123-138 | sent on the death screen or without a reading, otherwise aged to silence |
| DeathHookRuns.DeathHooks.Poll | src/mth/features/death_hooks.cpp:81-118 | one poll in its order: clock, pending death, pending broadcast, detection |
| DeathHookRuns.DeathHooks.DetectLocalDeath | src/mth/features/death_hooks.cpp:86-117 | a fresh edge starts the wait only when no spark was held while last alive |
| DeathHookRuns.DeathHooks.Kill | src/mth/features/death_hooks.cpp:204-233 | suppress, then served, applied, coalesced or latched |
| SceneWalk.Walk | src/mth/features/scene_walk.hpp:62-112 | ends on every graph; visited is at most the budget plus one buffer and at least what was shown; the budget flag means exactly that it was reached without a stop; unless a guard or the visitor ended it, everything reachable through the first 8192 children of each node is shown and nothing else; on a tree once each and counted exactly; on a small tree no guard trips |
| SceneWalk.WalkFrom | src/mth/features/scene_walk.hpp:70-111 | the stack loop is some number of single expansions; visited is what was handed over plus the entities scheduled; the first wide node is reported with its true count |
| SceneWalk.PopAndScan | src/mth/features/scene_walk.hpp:73-101 | one entity is taken off the stack and its walked children sorted into stack and span |
| SceneWalk.ScanChildren | src/mth/features/scene_walk.hpp:90-101 | validated entities and validated others, each in order, each counted |
| SceneWalk.FindFirst | src/mth/features/scene_walk.hpp:165-179 | a stop means a reachable component of the type was found; quiet means there is none; on a small tree it stops exactly when there is one |
| SceneWalk.ForEach | src/mth/features/scene_walk.hpp:152-163 | called on reachable components of the type only, on all of them when quiet, once each on a tree; quiet on a small tree |
| SceneWalk.StageMeans | src/mth/features/scene_walk.hpp:38-47 | at any stage only reachable components were handed over; with an empty stack and no wide node all of them; on a tree without repeats |
| SceneWalk.WalkMeans | src/mth/features/scene_walk.hpp:70-111 | what report and last stage say together: complete over the cut scene, counted exactly on a tree, the wide flag exact, quiet on a small tree |
| SceneWalk.StageCounts | src/mth/features/scene_walk.hpp:91-101 | on a tree the count never exceeds the validated children there are, and is that number at the end |
| SceneWalk.CutMeans | src/mth/features/scene_walk.hpp:79-86 | wide nodes or not, a walk that ran out of stack has shown exactly what is reachable through the first 8192 children of each node |
| SceneWalk.CutStageAt | src/mth/features/scene_walk.hpp:79-86 | a walk is step for step a walk of the scene cut to those children |
| SceneWalk.DepthFirst | src/mth/features/scene_walk.hpp:73-74 | until everything under the entity on top is done, the entities below it stay where they are |
| SceneWalk.LastChildNext | src/mth/features/scene_walk.hpp:73-101 | a turn finishes the entity on top, puts its inner children on the stack in order and hands over its other ones |
| SceneWalk.SortedInPlace | src/mth/features/scene_walk.hpp:91-101 | each validated child goes to the stack or the span, in its place, and no other child anywhere |
| SceneWalk.FullMeans | src/mth/features/scene_walk.hpp:79-84 | the wide flag says whether a wide node was walked |
| SceneWalk.ProgressAt | src/mth/features/scene_walk.hpp:70-108 | the invariant of every stage, for any closed pair of entity and component sets |
| SceneWalk.ClosedIsComplete | src/mth/features/scene_walk.hpp:95-100 | a finished walk covers every entity path from the root |
| SceneWalk.ReachIsClosed | src/mth/features/scene_walk.hpp:95-100 | the reference sets of reachable entities and components are closed under children |
| SceneWalk.ExpandKeepsOnce | src/mth/features/scene_walk.hpp:90-101 | on a tree expanding an entity schedules and hands over nothing twice |
| SceneWalk.SeekerSeesNone | src/mth/features/scene_walk.hpp:168-178 | a search that was never stopped was shown nothing of the type |
| Signatures.FindMasked | src/mth/core/sig_scan.cpp:27-51 | found, unique and first offset exactly as in the list of all matches |
| Signatures.MatchesHere | src/mth/core/sig_scan.cpp:10-18 | the byte loop decides a masked match |
| Signatures.UniqueResolves | src/mth/core/sig_scan.cpp:53-69 | a pattern unique at an offset resolves, for every load address, to the address denoted there if its displacement lies inside the text and to the failure value if not |
| Signatures.AmbiguousFails | src/mth/core/sig_scan.cpp:53-57 | an empty pattern, one that matches nowhere and one that matches twice resolve to the failure value |
| Signatures.LinkedTargetResolves | src/mth/core/sig_scan.cpp:62-68 | a data reference whose displacement field holds the distance to a target resolves to that target, at every load address |
| Signatures.ResolvableIff | src/mth/core/sig_scan.cpp:62-68 | a unique entry resolves at some load address exactly when its displacement lies inside the text, and then fails at no two neighbouring addresses |
| Signatures.WriteOfRead | src/mth/core/sig_scan.cpp:20-24 | the four bytes read are those of the value, least significant first |
| Signatures.ReadOfWrite | src/mth/core/sig_scan.cpp:20-24 | every 32-bit value, negative ones included, is read back from its bytes |
| Signatures.UniqueIffOneListed | src/mth/core/sig_scan.cpp:45-48 | unique means exactly one listed match, which is then the start |
| Signatures.AllMatchesBelow | scripts/sigtool.py:73-76 | no match starts past the last position |
| Carving.LongestFixedRun | scripts/sigtool.py:50-63 | the first of the longest fixed runs, zero only without fixed bytes |
| Carving.MatchOffsets | scripts/sigtool.py:66-96 | for every text, pattern, mask and cap the anchored search returns the first matches of the naive list up to the cap it honours |
| Carving.AnchoredSearch | scripts/sigtool.py:82-96 | jumping from anchor to anchor misses nothing and counts nothing twice, overlapping anchors included |
| Carving.SkipToAnchor | scripts/sigtool.py:70-72 | no match starts where the search jumps over |
| Carving.WildcardMatches | scripts/sigtool.py:80-81 | a pattern without fixed bytes matches everywhere |
| Carving.CountMatches | scripts/sigtool.py:99-101 | the number of matches, capped |
| Carving.Carve | scripts/sigtool.py:120-148 | outside text exactly when the start is; a carved pattern is cut from the start, non-empty and matches nowhere else; failure exactly when the growth never is unique |
| Carving.Grow | scripts/sigtool.py:135-140 | one instruction's bytes are appended with its moving bytes masked |
| Carving.StillUnique | scripts/sigtool.py:141 | asking only until unique gives the same answer as asking every time |
| Carving.UniquenessIsSticky | scripts/sigtool.py:141 | growing keeps the start site and never gains a match |
| Carving.CarveIsShortest | scripts/sigtool.py:121-124 | no shorter prefix was unique with what was asked for |
| Carving.CarveEndsAt | scripts/sigtool.py:132-148 | a carve ends at a unique pattern the growth gets to, and at one without the cross-reference asked for only where the growth ends |
| Carving.MaskMeans | scripts/sigtool.py:135-140 | a pattern compares exactly the bytes of its instructions that do not move |
| Carving.UniqueNeverFails | scripts/sigtool.py:146-148 | once a prefix is unique the carve succeeds |
| Carving.FailedCarveMeansNoneUnique | scripts/sigtool.py:148 | a failed carve means no usable prefix is unique |
| Carving.FallbackIsNotMinimal | scripts/sigtool.py:123-124 | an input, a nop and a ret, where the fallback is longer than the minimal unique pattern |
| Carving.FallbackMinimalIff | scripts/sigtool.py:141-147 | where the first m instructions are the first to be unique and can be reached, the carve stops there, minimal, exactly when no cross-reference is asked for, they hold one, the instructions end there, or the byte limit is reached |
| Carving.ReachesFirstUnique | scripts/sigtool.py:132-145 | before anything is unique the growth goes on |
| Carving.CarveEntry | scripts/sigtool.py:151-167 | an entry is produced exactly when the start is in the text, a data reference has both offsets and some pattern becomes unique in time; it then resolves at every load address to what its site denotes, except for a displacement outside the text |
| Outbound.NothingRemovedIsSent | src/mth/core/rando_bridge.cpp:80-85 | whatever one step sends carries no removed id and goes out on the present connection |
| Outbound.EachCheckSentOnce | src/mth/core/rando_bridge.cpp:87-106 | on every run, between attaches no id goes out singly twice, and each one is in the save |
| Outbound.CoverageHolds | src/mth/core/connect_resend_gate.hpp:6-9 | while the gate is latched and the link up, every recorded unremoved check was sent on this connection or reported by the server on it, if some tick saw each drop |
| OutboundHistory.SendsIff | src/mth/core/rando_bridge.cpp:70-151 | on every run each input sends exactly this: a first collect of a wanted id with the link up that id, a tick that finds save and link with no flush since the last drop it saw everything outstanding, any other nothing |
| OutboundHistory.RecordsAreHistory | src/mth/core/rando_bridge.cpp:70-122 | the attached save holds exactly what it was stored with and what was collected or reported since, the fallback exactly what was collected with no save attached |
| OutboundHistory.CollectedReachesServer | src/mth/core/rando_bridge.cpp:124-151 | a check collected under a save, whatever the link does then: after a tick has seen the link down, any later tick of the session that finds it up has the id sent on that connection or named there by the server |
| OutboundHistory.LinkIsHistory | src/mth/core/rando_bridge.cpp:100-106 | rooms, link, number of connections and attached save, by the inputs |
| OutboundHistory.FlushedIsHistory | src/mth/core/connect_resend_gate.hpp:6-26 | the gate is latched exactly when some tick found link and save and since then no tick saw the link down and no session ended |
| OutboundHistory.StaysInSave | src/mth/core/rando_bridge.cpp:86-95 | what is recorded in a save stays recorded as long as the session lasts |
| OutboundHistory.ReportsAreHistory | src/mth/core/rando_bridge.cpp:109-122 | what counts as reported is what the server named on that connection |
| Outbound.StepCovers | src/mth/core/rando_bridge.cpp:124-151 | every step keeps that coverage |
| Outbound.TickAfterDropResends | src/mth/app/app.cpp:269-273 | after a tick that saw the link down, and anything in between, a tick that finds the link up and a save attached leaves everything recorded covered on that connection |
| Outbound.UnseenReconnectIff | src/mth/core/connect_resend_gate.hpp:13-24 | on any run, after a reconnect no tick saw, no number of ticks sends anything, so coverage survives exactly when nothing is recorded |
| Outbound.UnseenReconnectIsReachable | src/mth/core/connect_resend_gate.hpp:13-24 | a run reaches such a drop, the gate latched and a check recorded |
| Outbound.FallbackReachesServerIff | src/mth/core/rando_bridge.cpp:13-18 | a check recorded before any save and never sent can still reach the server, short of being collected or reported again, exactly when the save that attaches holds it |
| Outbound.NotInSaveNeverSent | src/mth/core/rando_bridge.cpp:87-106 | under an attached save an id it does not hold goes out on no run that neither collects nor reports it |
| Outbound.FallbackIsReachable | src/mth/core/rando_bridge.cpp:97-100 | such a check arises by collecting with the link down before a save attaches |
| Outbound.NotRemoved | src/mth/core/rando_bridge.cpp:137-139 | the resend list is the checked slots without the removed ones |
| Outbound.ConnectResendGate.Fire | src/mth/core/connect_resend_gate.hpp:13-24 | fires once both conditions hold, re-arms on a seen drop |
| Outbound.RandoBridge.AttachSaveState | src/mth/core/rando_bridge.cpp:13-18 | the save replaces the session fallback |
| Outbound.RandoBridge.DetachSaveState | src/mth/core/rando_bridge.cpp:26-33 | nothing of the released save remains; without a save nothing changes |
| Outbound.RandoBridge.OnLocationCollected | src/mth/core/rando_bridge.cpp:70-107 | recorded once, sent only on a live link, never for a foreign or removed id |
| Outbound.RandoBridge.ReconcileServerChecked | src/mth/core/rando_bridge.cpp:109-122 | recorded without sending, and the result says whether anything changed |
| Outbound.RandoBridge.FlushChecked | src/mth/core/rando_bridge.cpp:124-151 | one message with everything recorded and not removed, none when that is empty or the link is down |
| Traps.NothingStranded | src/mth/features/trap_hooks.cpp:112-220 | on every run the bits left forced on are exactly those counting down, waiting to be lifted, or the player's own, and no index is in two of these |
| TrapHistory.CountdownIff | src/mth/core/trap_state.cpp:8-36 | on every run more than t seconds remain on a countdown exactly when some arm the game took, not cleared since, was for more than t seconds beyond the gameplay time since |
| TrapHistory.ActiveIff | src/mth/core/trap_state.cpp:23-36 | so an index is active until the first frame whose gameplay time reaches the seconds armed, and not longer |
| TrapHistory.EndedIsLifted | src/mth/features/trap_hooks.cpp:154-193 | on every run a bit whose countdown a tick ends is off after that tick if the lift goes through, and waits for its lift if not |
| TrapHistory.PendingIsRetried | src/mth/features/trap_hooks.cpp:198-220 | a bit waiting for its lift is settled by the first ready tick that can: left on as the player's own, taken off, or still waiting |
| TrapHistory.CededWasOwn | src/mth/features/trap_hooks.cpp:206-213 | no bit is given up that was not at some ready tick the player's own |
| TrapHistory.AnswerIff | src/mth/features/trap_hooks.cpp:47-104 | the four answers of an arm by what the game says, and what an armed bit leaves behind |
| TrapHistory.RunEvolves | src/mth/features/trap_hooks.cpp:112-135 | a run acts on the countdowns as its arms taken, frames and clears |
| TrapHistory.LastsSnoc | src/mth/core/trap_state.cpp:8-36 | what one arm, frame or clear does to the time that is left |
| Traps.LiftedOutsideGameplay | src/mth/features/trap_hooks.cpp:112-135 | from any reachable state one tick outside gameplay whose writes go through leaves on only what is the player's own, whatever arms were queued |
| Traps.TickKeeps | src/mth/features/trap_hooks.cpp:112-135 | a tick keeps the invariant and outside gameplay empties the active list |
| Traps.ArmKeeps | src/mth/features/trap_hooks.cpp:96-103 | a fresh arm wins over a pending lift and keeps the invariant |
| Traps.AdvanceKeeps | src/mth/features/trap_hooks.cpp:154-180 | expiring, refused lifts and re-asserting keep the invariant |
| Traps.ClearKeeps | src/mth/features/trap_hooks.cpp:182-193 | clearing keeps the invariant and leaves none active |
| Traps.RetryPendingKeeps | src/mth/features/trap_hooks.cpp:198-220 | a retry pass keeps the invariant and the countdowns |
| Traps.SplitByTime | src/mth/core/trap_state.cpp:24-37 | expiry splits the list into two parts without repeats or overlap that lose nobody |
| Traps.ArmStateIndices | src/mth/core/trap_state.cpp:8-22 | arming adds an index at the end or keeps the list as it is |
| Traps.TrapState.Arm | src/mth/core/trap_state.cpp:8-22 | extends the one countdown of the index, never shortens it, appends a new one |
| Traps.TrapState.Advance | src/mth/core/trap_state.cpp:24-37 | ages in place, returns the expired in arming order and keeps the others in theirs |
| Traps.TrapState.EraseExpired | src/mth/core/trap_state.cpp:35 | erases exactly the countdowns at or below zero, in order |
| Traps.TrapState.Clear | src/mth/core/trap_state.cpp:53-58 | returns every index and empties |
| Traps.TrapHooks.Arm | src/mth/features/trap_hooks.cpp:47-104 | the four answers, and the state changes only when armed |
| Traps.TrapHooks.TickOnce | src/mth/features/trap_hooks.cpp:112-146 | drains the queued arms, retries the lifts, then clears or advances |
| Traps.TrapHooks.AdvanceFrame | src/mth/features/trap_hooks.cpp:154-180 | lifts what expired, keeps refused lifts for retry, re-asserts the rest |
| Traps.TrapHooks.LiftEach | src/mth/features/trap_hooks.cpp:160-192 | each bit is lifted or put on the retry list, in order |
| Traps.TrapHooks.ClearAll | src/mth/features/trap_hooks.cpp:182-193 | ends every countdown and lifts or queues each bit |
| Traps.TrapHooks.RetryPendingOff | src/mth/features/trap_hooks.cpp:198-220 | drops the player's own, lifts what goes through, keeps the rest in order |
| Burrow.ActsIff | src/mth/core/burrow_boundary.hpp:76-113 | an armed gate acts exactly when the last ten readings since the arm agree, unbroken, on the side the player is not on, and that side is blocked |
| Burrow.CountersAreHistory | src/mth/core/burrow_boundary.hpp:69-90 | mode and counters are a digest of the readings since the arm, gaps breaking a run |
| Burrow.OneActionPerArm | src/mth/core/burrow_boundary.hpp:76-77 | a disarmed gate never acts and stays disarmed without a new arm |
| Burrow.ActionDisarms | src/mth/core/burrow_boundary.hpp:96-109 | every action consumes the arm |
| Burrow.ActionNeedsTenReadings | src/mth/features/ability_hooks.cpp:101-136 | through the driver an action needs one unchanged player and ten delivered readings since the arm |
| Burrow.DriverActsIff | src/mth/features/ability_hooks.cpp:101-136 | the armed driver acts exactly when the same player is there, the tick delivers a reading, and with it the last ten events delivered since the arm agree, unbroken, on the blocked side the player is not on |
| Burrow.StaysArmedIff | src/mth/features/ability_hooks.cpp:105-122 | the arm survives a tick exactly when the player stays, it is not the second poll in a row out of the burrow, and the tick brings no action |
| Burrow.DrivenGate | src/mth/features/ability_hooks.cpp:113-131 | while armed the driver's gate is a gate fed directly with what the ticks deliver, but for its count of polls out of the burrow |
| Burrow.WhileArmed | src/mth/features/ability_hooks.cpp:105-122 | an arm lives only while the player is the same and at no point since it two polls in a row found the player out of the burrow |
| Burrow.TailCounts | src/mth/core/burrow_boundary.hpp:82-92 | the trailing count reaches n exactly when the last n events are such readings |
| Burrow.BurrowBoundaryGate.ArmGate | src/mth/core/burrow_boundary.hpp:38-44 | the commit counts as a confirmed reading of its side |
| Burrow.BurrowBoundaryGate.NoteBurrowing | src/mth/core/burrow_boundary.hpp:57-67 | two polls in a row out of the burrow disarm |
| Burrow.BurrowBoundaryGate.Observe | src/mth/core/burrow_boundary.hpp:78-113 | one reading is the specified transition and action |
| Burrow.AbilityHooks.EnforceBurrowTick | src/mth/features/ability_hooks.cpp:101-136 | player change disarms, pause holds, a missing reading restarts, otherwise the gate decides |
| Banner.Conservation | src/mth/core/broadcast.cpp:101-139 | on every run pushed messages are the retired, the shown and the waiting ones, in order; at most five shown, an interval apart |
| Banner.FramesFade | src/mth/core/broadcast.cpp:127-137 | on every run each drawn alpha is in (0, 1] and no older frame is brighter |
| Banner.UpdateIs | src/mth/core/broadcast.cpp:109-126 | exactly the messages shown for six seconds go, and the front message joins exactly when fewer than five are left and a second has passed since the last |
| Banner.BrightnessIs | src/mth/core/broadcast.cpp:127-137 | a frame is full for five seconds and fades over the sixth |
| Banner.UpdateLeavesNoneExpired | src/mth/core/broadcast.cpp:113-116 | popping from the front alone removes every expired message |
| Banner.RetireKeeps | src/mth/core/broadcast.cpp:113-116 | retiring keeps order and spacing and loses nothing |
| Banner.OlderIsFainter | src/mth/core/broadcast.cpp:131-135 | of two unexpired messages the older is at most as bright |
| Banner.FrontIsPromoted | src/mth/core/broadcast.hpp:47-51 | with a place free or freeing up and the interval over, the next update shows the front message |
| Banner.BannerQueue.PushMessage | src/mth/core/broadcast.cpp:101-107 | appends a non-empty message, ignores an empty one |
| Banner.BannerQueue.UpdateAt | src/mth/core/broadcast.cpp:109-139 | retires, promotes at most one and returns a frame for each shown message |
| Chests.ChestRegistry.OnChestConstruct | src/mth/features/chest_hooks.cpp:69-85 | a created handle, its value possibly seen before, is tracked below the limit and given straight back at it |
| Chests.ChestRegistry.Sweep | src/mth/features/chest_hooks.cpp:118-133 | each live handle visited once and kept, each dead one destroyed once and dropped, and exactly the removed locks among the visited chests cleared |
| Chests.ChestRegistry.DropAll | src/mth/features/chest_hooks.cpp:87-92 | every handle created has been destroyed |
| Chests.SweepHandles | src/mth/features/chest_hooks.cpp:120-132 | the swap-erase loop partitions the handles and ends with the visited ones in place |
| Chests.SwapEraseContents | src/mth/features/chest_hooks.cpp:125-127 | swap-erase removes exactly the one handle and leaves the part already swept alone |
| Chests.UnlockFollows | src/mth/features/chest_hooks.cpp:44-65 | visiting a chest clears its lock exactly when its slot is registered |
| Chests.TrackedSame | src/mth/features/chest_hooks.cpp:117-133 | dropping dead handles loses no chest |
| Chests.DestroyedOnce | src/mth/features/chest_hooks.cpp:21-27 | a handle value was given back exactly as often as handed out, once less while held |
| Kear.KeysAreConserved | src/mth/features/location_hooks.cpp:72-105 | over any run of collects, credits and locks with the mirror in step, usable keys are those at the start plus credits minus locks, and the mirror stays in step |
| Kear.NeutralizeKeepsUsableIff | src/mth/features/location_hooks.cpp:78-105 | a neutralised collect leaves the usable keys exactly when it cleared no bit |
| Kear.CreditIsOneKey | src/mth/features/location_hooks.cpp:138-165 | a credit that takes is worth one key on both counters, a refused one changes neither |
| Kear.CreditIff | src/mth/features/location_hooks.cpp:138-165 | a key is credited exactly with trusted offsets, a live player and both counters within 64 of zero; a counter out of range costs the trust |
| Kear.OffIff | src/mth/features/location_hooks.cpp:50-165 | over any run the hooks are off exactly when they were at the start or one of them read a counter out of range |
| Kear.NeutralizeKeepsLead | src/mth/features/location_hooks.cpp:72-77 | save and mirror move together |
| Kear.ReconcileTakesTheLeak | src/mth/core/data/game_tables.hpp:22-31 | usable keys above zero are taken back, spent never falls, and a second pass does nothing |
| Kear.SuppressedTickLeavesNone | src/mth/features/location_hooks.cpp:107-136 | whatever happened before, a trusted reconciliation leaves no usable key |
| Kear.ReconcileKeepsLeadIff | src/mth/features/location_hooks.cpp:75-77 | the mirror stays in step exactly when there was no leak, and a lock right after undoes the reconciliation |
| Kear.SpendCostsOneIff | src/mth/features/location_hooks.cpp:75-77 | a lock costs one key exactly when the mirror agrees with the save |
| Kear.OffIsForever | src/mth/features/location_hooks.cpp:50-53 | after one implausible read no hook writes again, over any run |
| Kear.KearHooks.NeutralizeKearGrant | src/mth/features/location_hooks.cpp:78-105 | both counters rise by the newly set bits, or nothing is written and an implausible read switches off |
| Kear.KearHooks.ApplyNativeCollected | src/mth/features/location_hooks.cpp:173-191 | with a slot the bits are set and the gain cancelled in the modes that cancel; without one nothing is written |
| Kear.KearHooks.ReconcileKearKeys | src/mth/features/location_hooks.cpp:112-136 | raises spent to the bit count in suppressing modes, never without a slot or trust |
| Kear.KearHooks.CreditKearKey | src/mth/features/location_hooks.cpp:144-165 | true exactly when slot and player are live and plausible, and then both counters fall by one |
| Base64Pem.Base64 | src/pal/windows/cert_windows.cpp:17-47 | the index loop prints the specified text |
| Base64Pem.Padded | src/pal/windows/cert_windows.cpp:31-45 | the two short endings with their padding |
| Base64Pem.RoundTrip | src/pal/windows/cert_windows.cpp:17-47 | the decoder of RFC 4648 section 4 gives back every byte string; four characters per started group of three |
| Base64Pem.WholeDecodes | src/pal/windows/cert_windows.cpp:23-30 | whole groups decode to themselves without padding |
| Base64Pem.TailDecodes | src/pal/windows/cert_windows.cpp:31-45 | a padded ending decodes to its one or two bytes, the bits under the padding zero |
| Base64Pem.SextetsOf | src/pal/windows/cert_windows.cpp:25-29 | the shifts and masks of a 24-bit group in terms of its bytes |
| Base64Pem.WriteBody | src/pal/windows/cert_windows.cpp:93-94 | the loop writes the lines each followed by a line end |
| Base64Pem.LinesAreFull | src/pal/windows/cert_windows.cpp:93-94 | every line but the last has 64 characters, the last 1 to 64, and together they are the body (RFC 7468 section 2) |
| Base64Pem.UnwrapLines | src/pal/windows/cert_windows.cpp:93-94 | removing line ends from written lines gives their concatenation |
| Base64Pem.PemRoundTrip | src/pal/windows/cert_windows.cpp:89-95 | a certificate written as a block body and read back is unchanged |
| CapSuffix.WithCapSuffix | src/mth/core/stat_cap_state.cpp:55-86 | the search, digit check, erase and append compute the specified text for every text, cap and pair of marks |
| CapSuffix.AbsorbsIff | src/mth/core/stat_cap_state.cpp:52-54 | applying twice equals applying the last one exactly for a non-negative first cap or a text without title |
| CapSuffix.CallersAbsorb | src/mth/core/stat_cap_state.cpp:89-99 | the same for both callers, the clamped one included |
| CapSuffix.AnnotatesIff | src/pal/boneup_desc.cpp:74-115 | a frame changes the description exactly when the menu is interactive, a cap that is not negative is named, and the title does not end in it yet; it then does and the rest is as it was |
| CapSuffix.CallersShowTheCap | src/mth/core/stat_cap_state.cpp:89-99 | either caller leaves a first line ending in the cap, the panel's clamped to 99, and no other line changed |
| CapSuffix.LastCapWins | src/mth/core/stat_cap_state.cpp:52-54 | after any number of frames only the last cap shows |
| CapSuffix.OnlyTheTitleChanges | src/mth/core/stat_cap_state.cpp:60-63 | everything after the first line stays, and the first line gets its number replaced |
| CapSuffix.CapIsVisible | src/mth/core/stat_cap_state.cpp:85 | different caps give different texts |
| CapSuffix.StripsOwn | src/mth/core/stat_cap_state.cpp:70-83 | a bare number in the marks is removed with them |
| CapSuffix.KeepsForeign | src/mth/core/stat_cap_state.cpp:67-69 | anything else in the marks stays |
| CapSuffix.StripOnlyOwn | src/mth/core/stat_cap_state.cpp:67-83 | a shortened line carried a bare number in the marks |
| CapSuffix.StripsPrinted | src/mth/core/stat_cap_state.cpp:78-82 | a printed suffix is recognised exactly when its cap is not negative |
| CapSuffix.OwnMarkIsLast | src/mth/core/stat_cap_state.cpp:73 | the last opening mark is the one the number follows |
| CapSuffix.DecimalReadsBack | src/mth/core/stat_cap_state.cpp:85 | a printed number is digits only and reads back as itself |
| CapSuffix.StatusPanelFits | src/mth/core/stat_cap_state.cpp:94-99 | the panel label grows by at most a slash and two digits |
| CapSuffix.SkipIffUnchanged | src/pal/boneup_desc.cpp:100-110 | the fast path skips exactly the titled texts the slow function leaves alone |
| CapSuffix.WantFits | src/pal/boneup_desc.cpp:101-102 | the suffix of any 32-bit cap fits its sixteen-byte buffer |
| CapSuffix.LevelUpMenu.Annotate | src/pal/boneup_desc.cpp:74-115 | in the interactive state the text becomes the slow function of itself, written only when that changes it; otherwise it is left alone |
| LoginPrefs.RoundTripIff | src/mth/core/login_prefs.cpp:28-75 | a reload gives back what was saved exactly when no value holds a line feed or ends in a carriage return |
| LoginPrefs.SetRoundTrips | src/mth/core/login_prefs.cpp:18-26 | whatever is set comes back, and no value forges a record |
| LoginPrefs.ReloadStableIff | src/mth/core/login_prefs.cpp:19-20 | values read from a file survive the next save and load exactly when none ends in a carriage return |
| LoginPrefs.LastRecordWins | src/mth/core/login_prefs.cpp:34-48 | a record on the last line wins over any before it and leaves the other value as it was |
| LoginPrefs.TwoReturns | src/mth/core/login_prefs.cpp:36-37 | a file whose slot changes on the second load |
| LoginPrefs.LoadedIsOneLine | src/mth/core/login_prefs.cpp:34-48 | nothing read from a file holds a line feed |
| LoginPrefs.OneLine | src/mth/core/login_prefs.cpp:21-25 | the longest prefix without a line break of either kind |
| LoginPrefs.LoginFile.constructor | src/mth/core/login_prefs.cpp:11-14 | holds what the file says, the last record of each key winning |
| LoginPrefs.LoginFile.Load | src/mth/core/login_prefs.cpp:28-50 | the line loop is the fold of the records over the lines |
| LoginPrefs.LoginFile.Keep | src/mth/core/login_prefs.cpp:36-48 | one line is skipped without key, value or known key, and replaces the value otherwise |
| LoginPrefs.LoginFile.Set | src/mth/core/login_prefs.cpp:52-56 | both values are cut at their first line break |
| LoginPrefs.LoginFile.Save | src/mth/core/login_prefs.cpp:58-73 | one record per non-empty value |
| LogRing.Ring.Push | src/mth/core/log_ring.cpp:6-16 | the ring read from its head stays the last lines pushed |
| LogRing.Ring.Snapshot | src/mth/core/log_ring.cpp:25-33 | the last capacity lines pushed since the last clear, oldest first |
| LogRing.Overwrite | src/mth/core/log_ring.cpp:14-15 | overwriting at the head and moving on drops the oldest line and appends the new one |

## Left out

- Threads and locks: each locked section, net-thread command and tick is one atomic step. In particular nothing is claimed about the game thread having drained a connection event by the time the connected flag reads true.
- Persisting a save: the durable sets keep what was recorded; staging, committing and losing a staged save in a crash are not modelled.
- Console-injected receipts: they are ordinary deliveries in GrantRuns but are excluded from the end-to-end composition, whose stream comes from the server alone.
- Item id tables: the progressive chains, the trap segment, the plain items and the capacity upgrades are modelled; kear blocks, abilities, blockers and wallet items fall under the receipts a pass ignores. The table of trap durations is a parameter whose entries are positive.
- A throw inside the slot-connected handler is placed before or after the session boundary; which call raised it is not modelled.
- ApLink handlers for scouts, locations checked, bounces and print messages push one unrelated event each; tags, deathlink switches, status updates, uuid and the encrypted/plaintext alternation are left out.
- Socket errors and apclientpp's own retries appear only as the handler calls they cause.
- SceneWalk: a visitor is any function of the spans it has been shown; that the game answers the sizing call and the filling call alike is assumed, and addresses are integers with 0 for null.
- Signatures: disassembly is a parameter (lengths, moving bytes and cross-references of each instruction); displacement and next-instruction offsets are taken non-negative; the search for a RIP-relative load and the generated C++ tables are not modelled.
- DeathHooks: health and spark calls that a build lacks, and the log-only flag for a suppressed death, are folded into the readings; gamestates are the death screen, unreadable and anything else; the room clock is compared for equality only.
- Outbound: sending the goal and requesting scouts are left out, and the location base is zero as in the client.
- Traps: the warn-once set and the published snapshot are left out; the time step is an input, so how the frame delta is measured is not modelled. Time is real-valued.
- Burrow: the commit sites that arm the gate and the native calls that carry an action out are inputs and results only.
- Banner: segments are strings, colours and the relevance filter are left out, times and alphas are reals.
- Chests: identity by name key is a function from chests to slots, and the game does not create a handle that is still held.
- Kear: the 64-bit field is the set of its bit positions, counters are unbounded integers (plausible values are within 64 of zero), and a lock is the one native write the hooks' comments describe.
- Certificate store enumeration and the file around the printed body, modifier bits, boss tracking, the weapon ownership clamp, the hook hash and the crash handler's hex formatter are left out: they would add only easy members.
- Login file: replacing it through a temporary file is one write, a missing file reads as empty, and the platform's own line-end translation is left out.
- Warn-once latches, stall counters and other state kept only for log lines.
- Overlay, windows, rendering and every raw memory access: a read is an input, a write is a step that may be refused.
