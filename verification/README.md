# monadplace shared canvas, modelled in Dafny

monadplace is a collaborative pixel canvas. Every participant paints on the same
100 × 100 grid. Each actor may commit one cooldown-governed placement per
10-second window. Spending a token approval buys a placement that bypasses the
window.

The authoritative state is a replicated `PixelCanvasModel` holding:
- a canvas map from cell to pixel;
- a registry of `User` actors;
- a `dataVersion` counter.

Every client applies the same totally ordered events to its replica. Each
client then derives what it shows from its replica: the users view, the
cooldown, the leaderboard and the online count.

This project models that core as pure functions over immutable datatypes and
proves properties about them:

- `OrderedMap`: JavaScript's insertion-ordered `Map`. The order of the
  registry decides which actor the users view takes a row from. The order of
  the canvas is the order of the persisted snapshot.
- `CanvasTypes`, `CanvasConstants`: the records of `src/types/canvas.ts` and
  the grid, cooldown and palette constants.
- `CanvasScan`: the owner scans shared by the model and the client, namely the
  latest owned timestamp and the per-owner pixel counts.
- `CanvasModel`: the root model and the `User` actor, with `init`,
  `markDataDirty`, `userJoined`, `userExited`, `placePixelOnCanvas`,
  `handleUserAction` and `tryPlacePixel`. Events are applied one by one in the
  transport's order (`Step`, `Run`), and the clock is a parameter.
- `ModelProperties`, `Scenario`: properties of single actions, of runs of
  events, and of one client's run from connection to its second placement.
- `Presence`: how connecting clients register, how a reconnect changes the
  registry, and what that means for the online count and the users view.
- `ClientView`: the body of the sync loop, the cooldown interval and the
  online count.
- `Leaderboard`: the "Top Nads" list.
- `BypassController`: click handling, the premium (token-gated) request, the
  approval effects and the hover bounds check.
- `TokenGate`: `canPlacePixel`, `needsApproval`, the `placePixel` guard and
  the approval receipt check.
- `KeyBuffer`: the typed-keys buffer that unlocks the premium palette.

Conventions:
- The source tests addresses, view ids and owners only for truthiness, so the
  empty string stands for `null`/`undefined`.
- A missing or zero timestamp is 0, which is what `timestamp || now` treats
  as absent.
- Integers are unbounded. Timestamps are integer milliseconds.
- The source's cooldown test `(now - last) / 1000 < COOLDOWN_TIME` is
  compared exactly as `now - last < 10000`. `CanvasConstants.CooldownInMilliseconds`
  proves the two agree.

Where the code and the usual description of the system differ, the model
follows the code:
- **No bounds check.** A placement is not checked against the grid.
  `placePixelOnCanvas` writes any (x, y).
- **Version bumps twice per placement.** A committed placement raises
  `dataVersion` by 2, once in `placePixelOnCanvas` and once in
  `tryPlacePixel`.
- **Every join bumps the version,** including a join for an existing key.
- **No "derived once" flag.** The owner scan re-runs on every placement while
  `lastPixelTime` is 0.
- **A rejected placement can change state.** When the cooldown rejects a
  placement right after the lazy derivation filled in `lastPixelTime`, the
  actor keeps the derived time. The version does not move, so clients do not
  rebuild their view for that change.
- **Time 0 is the "not derived" sentinel.** A placement whose effective time
  is 0 leaves `lastPixelTime` at 0, so it starts no cooldown
  (`Scenario.ZeroTimeLeavesNoCooldown`). The spacing theorem
  `ModelProperties.NonBypassCommitsAreSpaced` therefore asks for a positive
  first time.
- **Each client registers twice.** It registers under its view id and, once a
  wallet is connected, under its address, then sets that address on its view's
  entry. The view id arrives twice: the session announces the joining view on
  the "view-join" topic the model subscribes to, and the client publishes it
  once more. So a connect raises the version by four
  (`Presence.ConnectIsFourSteps`). Actions reach only the view's entry. The users view takes a
  registered address's row from the last actor in registry order carrying it.
  On a first connect that is the address-keyed entry
  (`Presence.ConnectRowFromAddressEntry`). A wallet change or the 60-second
  reconnect makes the old view exit, which deletes only its view-keyed entry.
  The new view's entry is then appended after the surviving address entry, so
  from then on the row comes from that fresh entry, whose counters are zero
  (`Presence.ReconnectRowFromViewEntry`). "Online" is half the registry size.
  For clients that are still connected and have kept their wallet, that is
  their number (`Presence.OnlineCountsClients`), and a reconnect with the same
  wallet keeps it (`Presence.ReconnectKeepsOnline`).
- **Departed and switched-away addresses keep counting.** An exit deletes only
  the view-keyed entry, and nothing ever deletes an address-keyed one. A
  client that leaves therefore still adds one entry to the registry: once two
  clients have connected and left, "Online" shows 1
  (`Presence.DepartedAddressesKeepCounting`). A client that switches wallet
  keeps its old address entry and adds a new one (`Presence.Reconnect`).
  A visitor without a wallet registers only its view id.
- **The premium palette has 70 colours,** where its source comment says 48.

## Model

| member | source | states |
|---|---|---|
| OrderedMap.Set | src/hooks/useMultisynq.ts:289 | binding a key keeps the map well formed, overwrites only that key, keeps its position when present and appends it when new |
| OrderedMap.Delete | src/hooks/useMultisynq.ts:297 | deleting removes exactly that binding and its place in the order, the remaining keys keeping their relative order; deleting an absent key changes nothing |
| OrderedMap.Entries | src/hooks/useMultisynq.ts:269 | the entry list pairs each key, in insertion order, with its bound value |
| OrderedMap.Values | src/hooks/useMultisynq.ts:448 | the value list holds each key's bound value, in insertion order |
| OrderedMap.FromEntriesBindings | src/hooks/useMultisynq.ts:259 | rebuilding from any entry list binds exactly the listed keys, each to the value of its last entry |
| OrderedMap.FromDistinctEntries | src/hooks/useMultisynq.ts:259 | rebuilding from an entry list with distinct keys lists the keys in entry order and binds each to its entry's value |
| OrderedMap.FromEntriesOfEntries | src/hooks/useMultisynq.ts:259-270 | rebuilding a map from its own entry list gives back the same bindings in the same order |
| CanvasConstants.CooldownInMilliseconds | src/hooks/useMultisynq.ts:237-239 | the seconds comparison against COOLDOWN_TIME, in exact arithmetic, holds exactly when less than 10000 ms have passed |
| CanvasConstants.StandardPaletteWellFormed | src/constants/canvas.ts:10-15 | the standard palette has 16 entries, its first is "#FFFFFF", and each is '#' plus six digits 0-9 or A-F |
| CanvasConstants.PremiumPaletteWellFormed | src/constants/canvas.ts:17-45 | the premium palette has 70 entries, each '#' plus six digits 0-9 or A-F |
| CanvasScan.LatestOwned | src/hooks/useMultisynq.ts:225-230 | the scan yields a value no owned pixel exceeds, which is 0 or the timestamp of an owned pixel |
| CanvasScan.CountOwned | src/hooks/useMultisynq.ts:450-454 | the count is 0 exactly when no pixel has that owner, and never exceeds the number of pixels |
| CanvasScan.PixelCounts | src/hooks/useMultisynq.ts:448-454 | the counts object has a key for exactly the non-empty owners of at least one pixel, each bound to its number of pixels |
| CanvasScan.CountOwnedIsOwnedKeys | src/hooks/useMultisynq.ts:448-454 | scanning the canvas values counts exactly the cells whose stored owner is the address |
| CanvasScan.LatestOwnedOfCanvas | src/hooks/useMultisynq.ts:224-234 | the latest owned timestamp bounds every owned cell's timestamp and is 0 or some owned cell's timestamp |
| CanvasModel.EffectiveTime | src/hooks/useMultisynq.ts:236 | a nonzero timestamp is used as given; a zero one is replaced by the clock |
| CanvasModel.NewActor | src/hooks/useMultisynq.ts:194-201 | a new actor carries the given key and address, the first palette colour, which is white "#FFFFFF", no placements and time 0 |
| CanvasModel.CoolingDown | src/hooks/useMultisynq.ts:237-239 | the window test holds exactly when the last time is set and fewer than COOLDOWN_TIME seconds, on exact numbers, have passed |
| CanvasModel.CommitPlacement | src/hooks/useMultisynq.ts:243-250 | the committed actor is stored, the pixel is written at (x, y) with its colour and address and the placement's time, only that cell changes, the cell keeps its place in the canvas order or is appended when new, and the version rises by two |
| CanvasModel.Init | src/hooks/useMultisynq.ts:258-264 | cold start: the canvas is rebuilt from the persisted entries, or is empty without them; no actors; version 0 |
| CanvasModel.MarkDataDirty | src/hooks/useMultisynq.ts:266-271 | the version rises by one, canvas and registry are unchanged, and the stored snapshot restores the canvas |
| CanvasModel.UserJoined | src/hooks/useMultisynq.ts:273-292 | without a view id nothing happens; otherwise exactly the key address-or-view-id is present afterwards, a new key gets a fresh actor appended to the order, an existing entry is not reset, the canvas is untouched and the version rises by one |
| CanvasModel.UserExited | src/hooks/useMultisynq.ts:294-301 | only that key is removed, the other keys keeping their order, and the version rises by one; an absent key changes nothing; the canvas is never touched |
| CanvasModel.PlacePixelOnCanvas | src/hooks/useMultisynq.ts:303-307 | exactly cell (x, y) is written with colour, owner and timestamp-or-clock, with no bounds check; an existing cell keeps its place in the order and a new one is appended; registry unchanged; version plus one |
| CanvasModel.Derive | src/hooks/useMultisynq.ts:224-234 | only lastPixelTime can change; a non-zero one is kept; a zero one becomes the latest owned timestamp when positive, otherwise stays 0 |
| CanvasModel.TryPlacePixel | src/hooks/useMultisynq.ts:221-251 | no address: no change; within the window and not bypassing: canvas and version unchanged, derived time kept; otherwise the cell gets the actor's colour and address, pixelsPlaced rises by one, lastPixelTime becomes now unless bypassing, the cell keeps its place in the canvas order or is appended when new, version plus two |
| CanvasModel.HandleUserAction | src/hooks/useMultisynq.ts:205-219 | setAddress and selectColor change only that field of that actor and bump the version once; unknown actions change nothing |
| CanvasModel.Step | src/hooks/useMultisynq.ts:193-307 | every join, exit or published action keeps the canvas and registry well formed, each actor under its own channel, the stored snapshot restoring the canvas, and never lowers the version |
| CanvasModel.Run | src/hooks/useMultisynq.ts:193-307 | the same holds for any sequence of events applied in order |
| ModelProperties.RejectedPlacementIsNoOp | src/hooks/useMultisynq.ts:221-241 | with no address, or not bypassing with a non-zero lastPixelTime less than 10000 ms ago, the placement leaves the whole model unchanged |
| ModelProperties.BypassAlwaysCommits | src/hooks/useMultisynq.ts:239-250 | a bypass placement by an addressed actor always commits: version plus two, cell written, pixelsPlaced plus one, lastPixelTime not advanced |
| ModelProperties.CommittedPlacement | src/hooks/useMultisynq.ts:236-250 | a placement that moves the version by two had an address and passed the window check, and wrote the actor's colour and address with its time |
| ModelProperties.NonBypassCommitStamps | src/hooks/useMultisynq.ts:239-245 | a committed cooldown-governed placement sets lastPixelTime to its time, and a previous time was at least 10000 ms earlier |
| ModelProperties.JoinIsIdempotent | src/hooks/useMultisynq.ts:283-291 | joining twice with the same argument leaves the registry as joining once; only the version moves again |
| ModelProperties.SnapshotRoundTrip | src/hooks/useMultisynq.ts:259-270 | a cold start from the model's snapshot, or from what it last stored, reproduces its canvas with the same order |
| ModelProperties.RejectedPlacementKeepsCanvas | src/hooks/useMultisynq.ts:236-241 | a placement that does not move the version by two leaves the canvas as it was |
| ModelProperties.StepFrame | src/hooks/useMultisynq.ts:303-305 | an event that does not commit a placement at a cell leaves that cell as it was, even a placement there that the cooldown rejects |
| ModelProperties.RunFrame | src/hooks/useMultisynq.ts:303-305 | over a run of events none of which commits a placement at a cell, the cell keeps its pixel or stays empty |
| ModelProperties.UntargetedRunCommitsNothing | src/hooks/useMultisynq.ts:303-305 | a run in which no placement aims at a cell commits nothing there |
| ModelProperties.LastWriteWins | src/hooks/useMultisynq.ts:249 | after a committed placement and any run in which no later placement commits at that cell, rejected ones included, the cell holds exactly that placement's pixel |
| ModelProperties.PlacementKeepsFloor | src/hooks/useMultisynq.ts:224-247 | any placement, by the actor or another, keeps a positive lower bound on the actor's lastPixelTime: a set time is never re-derived and a commit stamps a time past the window |
| ModelProperties.RunKeepsFloor | src/hooks/useMultisynq.ts:224-245 | while the actor does not exit, a positive lower bound on its lastPixelTime survives any run of events |
| ModelProperties.NonBypassCommitsAreSpaced | src/hooks/useMultisynq.ts:236-245 | two committed cooldown-governed placements by one actor within its lifetime are at least 10000 ms apart, when the first one's time is positive |
| Scenario.Joined | src/hooks/useMultisynq.ts:530-531 | after a client's connect on a fresh model (the session's view join, the client's own view join, the address join and setAddress): version 4, registry order view id then address, the view entry a fresh actor carrying the address, empty canvas |
| Scenario.JoinedIsFourSteps | src/hooks/useMultisynq.ts:380 | the connection is the four events applied in turn |
| Scenario.UnderivedPlacementCommits | src/hooks/useMultisynq.ts:224-250 | an addressed actor with time 0 and no owned pixel always commits a placement with a nonzero time: version plus two, cell written, counter plus one, time stamped |
| Scenario.CooldownScenario | src/hooks/useMultisynq.ts:205-251 | connect (version 4), red on the view's channel (version 5), placement at 1000 (version 7), rejected retry at 6000 (no change), commit at 12000 (version 9) |
| Scenario.ZeroPlaced | src/hooks/useMultisynq.ts:236-245 | a placement at effective time 0 right after connecting commits (version 6) and leaves lastPixelTime 0 |
| Scenario.ZeroTimeLeavesNoCooldown | src/hooks/useMultisynq.ts:236-245 | a placement at effective time 0 leaves lastPixelTime 0, so a placement 5000 ms later still commits (version 8) |
| Presence.Connect | src/hooks/useMultisynq.ts:530-531 | a connecting client adds exactly its view id and address to the registry keys, its view entry carries the address, the canvas is untouched and the version rises by four |
| Presence.ConnectIsFourSteps | src/hooks/useMultisynq.ts:262-263 | connecting is the session's view join, the client's own view join, the address join and the setAddress on the view's channel, applied in turn |
| Presence.JoinViewTwice | src/hooks/useMultisynq.ts:380 | the two view joins of one connect add exactly the view id to the keys, leave the canvas alone and raise the version by two |
| Presence.JoinViewTwiceFresh | src/hooks/useMultisynq.ts:273-292 | for an unregistered view id the two joins append it once, bound to a fresh actor with no address: the second join finds the key and changes nothing |
| Presence.ConnectFresh | src/hooks/useMultisynq.ts:283-290 | a first connect appends the view entry and then the address entry; the view entry is a fresh actor carrying the address |
| Presence.ConnectAgain | src/hooks/useMultisynq.ts:283-290 | connecting under a new view id while the address entry survives appends only the view entry, a fresh actor carrying the address |
| Presence.Reconnect | src/hooks/useMultisynq.ts:85-111 | the prior view exits and the client connects under a new view id: the keys lose the prior view id and gain the new one and the address; the canvas is untouched |
| Presence.ConnectAllKeys | src/hooks/useMultisynq.ts:273-292 | after clients connect one after the other, exactly their view ids and addresses have been added to the keys |
| Presence.OnlineCountsClients | src/components/PixelCanvas.tsx:670 | once n clients sharing no name have connected to a fresh model, "Online" shows n |
| Presence.ReconnectKeepsOnline | src/components/PixelCanvas.tsx:670 | a reconnect with the same wallet under a fresh view id swaps one key for another and keeps the online count |
| Presence.DepartedAddressesKeepCounting | src/hooks/useMultisynq.ts:294-301 | after two clients connect to an empty registry and both views exit, the registry still holds both addresses and "Online" shows 1 |
| Presence.ConnectRowFromAddressEntry | src/hooks/useMultisynq.ts:434-443 | after a first connect the address entry is the last actor carrying the address, so the users view's row comes from it |
| Presence.ReconnectRowFromViewEntry | src/hooks/useMultisynq.ts:434-443 | after a reconnect the new view's entry is the last actor carrying the address, so the row comes from that fresh actor and not from the address entry |
| ClientView.LastIndex | src/hooks/useMultisynq.ts:434-443 | the backward search finds the last actor among the first n carrying the address, or -1 when none does |
| ClientView.RegistryRows | src/hooks/useMultisynq.ts:434-443 | the registry pass keeps every row under its own non-empty address |
| ClientView.RegistryRowsSpec | src/hooks/useMultisynq.ts:434-443 | each row of the registry pass is the row of the last actor in registry order carrying that address |
| ClientView.RegistryRowsCover | src/hooks/useMultisynq.ts:434-443 | every address carried by an actor gets a row |
| ClientView.MergeCounts | src/hooks/useMultisynq.ts:456-467 | a counted owner with a row gets its count; one without gets a fresh row with the count and lastPixelTime 0; other rows are untouched |
| ClientView.DerivedUsers | src/hooks/useMultisynq.ts:428-467 | every row sits under its own non-empty address |
| ClientView.DerivedUsersKeys | src/hooks/useMultisynq.ts:434-467 | the view holds exactly the addresses some actor carries or that own a pixel; unaddressed actors contribute nothing |
| ClientView.DerivedUsersCount | src/hooks/useMultisynq.ts:448-458 | an owner's pixelsPlaced is the number of cells it owns, whatever the actor's counter says |
| ClientView.DerivedUsersRows | src/hooks/useMultisynq.ts:434-466 | an unregistered owner has lastPixelTime 0; a registered address takes lastPixelTime from its last actor, and its counter too when it owns nothing |
| ClientView.SyncTick | src/hooks/useMultisynq.ts:428-477 | an unchanged version changes nothing; a changed one rebuilds the view and the canvas copy and tracks the actor under the connected address |
| ClientView.SyncTickSettles | src/hooks/useMultisynq.ts:429-430 | a second tick on the same model changes nothing, and the first tick always rebuilds |
| ClientView.CeilDiv | src/hooks/useMultisynq.ts:521 | the quotient rounded up is the least r with a <= r * b |
| ClientView.CooldownRemaining | src/hooks/useMultisynq.ts:500-521 | 0 when the address owns nothing or 10000 ms have passed; otherwise the ceiling of the remaining seconds, between 1 and 10 when now is not before the latest owned time |
| ClientView.CooldownTick | src/hooks/useMultisynq.ts:496-525 | without an address or a row for it the shown value stays; otherwise it is recomputed from the replica's canvas |
| ClientView.CooldownZeroWhenElapsed | src/hooks/useMultisynq.ts:504-519 | once every owned pixel is 10000 ms old, the cooldown shown is 0 |
| ClientView.OnlineCount | src/components/PixelCanvas.tsx:670 | half the registry size rounded down; 0 without a model |
| Leaderboard.Positives | src/components/PixelCanvas.tsx:776 | keeps every row with a positive count, as often as it occurs, and nothing else |
| Leaderboard.Insert | src/components/PixelCanvas.tsx:777 | inserting adds exactly that row to the multiset of rows |
| Leaderboard.InsertDescending | src/components/PixelCanvas.tsx:777 | inserting into a list sorted by decreasing count keeps it sorted |
| Leaderboard.SortByCount | src/components/PixelCanvas.tsx:777 | the sorted list is a permutation of its input in order of decreasing count |
| Leaderboard.Top | src/components/PixelCanvas.tsx:775-778 | at most five entries, highest count first |
| Leaderboard.TopSpec | src/components/PixelCanvas.tsx:775-778 | at most five entries, fewer only when fewer rows are positive, all positive, highest first |
| Leaderboard.TopSubMultiset | src/components/PixelCanvas.tsx:775-778 | every shown entry is a positive row of the view, shown no more often than it occurs |
| Leaderboard.TopIsComplete | src/components/PixelCanvas.tsx:777-778 | a positive row left out has a count no higher than every shown entry, and is only left out when all five places are taken |
| Leaderboard.TopDrawnFromView | src/components/PixelCanvas.tsx:775-778 | every shown entry is one of the view's rows |
| BypassController.PremiumStart | src/components/PixelCanvas.tsx:160-165 | ignored without an address, a connection, or while a request is in progress; otherwise the cell becomes the single pending cell and the request is in progress |
| BypassController.PremiumSettle | src/components/PixelCanvas.tsx:164-171 | afterwards no request is in progress; an error drops the pending cell, success keeps it |
| BypassController.Click | src/components/PixelCanvas.tsx:143-157 | nothing while dragging; premium mode starts a premium request and publishes nothing; otherwise a cooldown-governed placement with the current time is published |
| BypassController.ApprovalEffects | src/components/PixelCanvas.tsx:175-193 | a placement is published exactly when approval is confirmed and a cell is pending: a bypass placement of that cell stamped one day earlier, then the cell is dropped; with no approval pending, confirming or confirmed the cell is dropped silently |
| BypassController.ApprovalEffectsSettle | src/components/PixelCanvas.tsx:175-193 | re-running the effects on their own result with the same flags changes and publishes nothing |
| BypassController.NoBypassWithoutSuccessfulReceipt | src/components/PixelCanvas.tsx:176-185 | without a receipt whose status is "success" no bypass placement is published |
| BypassController.AtMostOnePlacementPerRequest | src/components/PixelCanvas.tsx:175-186 | however the approval flags evolve, at most one placement is published per pending cell, always a bypass placement of that cell |
| BypassController.PremiumRequestPublishesOnce | src/components/PixelCanvas.tsx:152-186 | premium click, approval without error, confirmed receipt: exactly one bypass placement of the clicked cell, and the controller ends idle |
| BypassController.PublishedBypassCommits | src/components/PixelCanvas.tsx:176-185 | the published bypass placement, delivered for an addressed actor, always commits with the day-old stamp |
| BypassController.HoverCell | src/components/PixelCanvas.tsx:118-122 | the hovered cell is set exactly when 0 <= x < 100 and 0 <= y < 100 |
| BypassController.HoveredPlacementStaysOnGrid | src/components/PixelCanvas.tsx:118-122 | writing a cell the hover check accepts keeps every canvas key on the grid |
| BypassController.UnhoveredPlacementLeavesGrid | src/components/PixelCanvas.tsx:118-122 | writing a cell the hover check rejects puts a key off the grid, since the model does no bounds check of its own |
| TokenGate.CanPlacePixel | src/hooks/usePixelCanvas.ts:79-83 | false for an absent or zero allowance, otherwise true exactly when the allowance reaches the burn amount |
| TokenGate.NeedsApproval | src/hooks/usePixelCanvas.ts:85-89 | true for an absent or zero allowance, otherwise true exactly when the allowance is below the burn amount |
| TokenGate.NeedsApprovalIsNotCanPlace | src/hooks/usePixelCanvas.ts:79-89 | needsApproval is the negation of canPlacePixel for every allowance |
| TokenGate.CanPlaceIsMonotone | src/hooks/usePixelCanvas.ts:80-82 | raising a positive allowance never revokes canPlacePixel |
| TokenGate.PlacePixelWrite | src/hooks/usePixelCanvas.ts:114-137 | a contract write goes out exactly when there is a writer and canPlacePixel holds, and it carries the given cell and colour |
| TokenGate.NoWriteWhileApprovalNeeded | src/hooks/usePixelCanvas.ts:119-124 | while approval is needed no contract write goes out |
| TokenGate.ApproveConfirmed | src/hooks/usePixelCanvas.ts:179 | confirmed exactly when a receipt exists and its status is "success" |
| KeyBuffer.ToLower | src/hooks/useEasterEgg.ts:19 | the appended character is a lower-case letter; lower case stays, upper case maps to the same letter |
| KeyBuffer.ContainsIsOccurrence | src/hooks/useEasterEgg.ts:23 | the containment test holds exactly when the word occurs at some position |
| KeyBuffer.DelayedClear | src/hooks/useEasterEgg.ts:58-66 | the buffer is emptied unless it contains the keyword; the premium flag is untouched |
| KeyBuffer.KeyPress | src/hooks/useEasterEgg.ts:16-26 | a key that is not one ASCII letter changes nothing; the unlock is never undone; a lower-case buffer stays lower-case; after a letter the buffer is empty and the palette unlocked exactly when the typed keys contain the keyword |
| KeyBuffer.KeyPressEffect | src/hooks/useEasterEgg.ts:16-26 | only a single ASCII letter changes state; it is appended lower-cased; completing the keyword unlocks the palette and empties the buffer |
| KeyBuffer.PremiumIsSticky | src/hooks/useEasterEgg.ts:7-66 | once unlocked, no sequence of keys and clears locks the palette again |
| KeyBuffer.ReachableIsInvariant | src/hooks/useEasterEgg.ts:16-66 | the buffer holds only lower-case letters and, for a non-empty keyword, never contains it |
| KeyBuffer.ClearAlwaysEmpties | src/hooks/useEasterEgg.ts:58-66 | for a non-empty keyword, every delayed clear from a reachable state empties the buffer |
| KeyBuffer.UntypeableKeywordNeverUnlocks | src/hooks/useEasterEgg.ts:18-24 | a keyword with any character other than a lower-case ASCII letter never unlocks the palette |
| KeyBuffer.TypingTheKeywordUnlocks | src/hooks/useEasterEgg.ts:16-26 | typing a lower-case keyword letter by letter from the start unlocks the palette and leaves the buffer empty |

## Left out

- `totalTokensSpent`, from the actor and the users view: it is a floating-point amount computed with `parseFloat` of a formatted token amount.
- Session lifecycle: the CDN script load, session join and its retry, the reconnect interval, the `waitForUser` polling, animation-frame scheduling and URL rewriting. These are timers and I/O around a transport that is not visible here. The version-guarded rebuild is modelled as `ClientView.SyncTick`.
- The transport's total order and the delivery of events to replicas: they are external. Replicas are modelled as applying the same event sequence (`CanvasModel.Run`).
- The session's own "view-join" and "view-exit" announcements (src/hooks/useMultisynq.ts:262-263) come from the framework, whose code is not part of this model. `Presence` takes the join to arrive before the client's own publishes, and the exit when a view leaves.
- A publish without a live session: `sendUserAction` sends nothing when the session has no view (src/hooks/useMultisynq.ts:536-538). The model delivers every published action. So during a reconnect gap a colour choice or placement is lost in the app but not in the model. This includes the placement of a bypass approval confirmed in the gap, whose pending cell the controller still drops (src/components/PixelCanvas.tsx:184).
- Rendering: canvas drawing, zoom, the screen-to-cell division by `PIXEL_SIZE * zoom`, JSX and styles, the palette component and the favicon. The hover check is modelled on the already computed cell.
- The wallet and contract calls: `approveTokens`, reads of balance, allowance and statistics, and receipt waiting. The allowance, burn amount, approval flags and receipt are parameters. `BURN_AMOUNT` lives in a configuration file that is not part of this model.
- The easter egg's timers for the message, spin and particles, and the particles' random positions. The keyword comes from the build environment and is a parameter.
- ClientView.SyncTick: does not model the adoption of the tracked actor's `selectedColor` (src/hooks/useMultisynq.ts:484-486). It reads a value captured when the effect was set up rather than the current one.
- Leaderboard.SortByCount: the order among rows with equal counts, view order by the sort's stability, is computed but not stated.
- BypassController.PremiumSettle: whether the awaited approval throws is a parameter. `approveTokens` as written catches its own errors and returns false, so in the code that branch is not taken.
- The users view's "Total Nads" count and the "Pixels placed" line: display reads of the users view with no further logic.
