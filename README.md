# Breach layout module: tabs, keyboard shortcuts, address box, strip colour

This project models the core of the layout module of the Breach browser and
proves properties of the model.

- **Tabs** (`lib/tabs.js`). The list of open tabs is stored as an operation log.
  `tabs_reducer` folds that log into a value: the tab records, the active index
  and a stack of recently closed records.
  - `TabsReducer` models the fold.
  - `TabsReducerProperties` proves what each operation does.
  - `TabsReconcile` models the pure part of how the module keeps the browser
    core's tabs in line with that value:
    - `update_tabs`;
    - `core_state_handler`'s bookkeeping;
    - the context-menu items.
  - The `Tabs.TabsModule` class holds the module's mutable state:
    - `core_tabs` with its key order;
    - the new-tab page state;
    - `last` and `last_active`;
    - the menu point;
    - the store;
    - the log of requests sent to the core.

    Its methods are the handlers, the actions and `state()`.
- **Keyboard shortcuts** (`lib/keyboard_shortcuts.js`). The handler's chain of
  `if` statements is listed as data: one rule per statement.
  - The class method `KeyboardShortcutsHandler.Handler` runs the chain as
    written. It is proved equal to running the rule table.
  - Lemmas state the handler's guarantees:
    - a held key only repeats the shortcuts meant to repeat;
    - a commit needs a preceding navigation;
    - tab indices stay in range.
- **Address box** (`lib/box.js`). This covers:
  - the per-tab records of the box;
  - what is pushed to the box's sockets;
  - the classification of typed input into a URL or a search.

  The `Box.BoxModule` class holds `my.state`, `my.visible`, the pushed payloads
  and the URLs it asked the core to load.
- **Strip colour** (`controls/strip/color.js`). `get` finds the dominant colour
  of an image: it samples every `quality`-th pixel, drops transparent and
  near-white pixels, buckets the rest by tens per channel, and returns the
  first pixel of the first bucket to reach the largest count.

JavaScript's `undefined` and `null` are kept apart (`JsValues.Field` is
`Absent | Null | Text(s)`), because several comparisons in the source depend on
the difference. Requests to the browser core are appended to a command log
instead of being sent. The answer of the store (`store_push`) is modelled
synchronously, with a flag saying whether it failed.

## Model

| member | source | states |
|---|---|---|
| CoreState.LastVisibleAt | lib/tabs.js:253-261 | the index found is a visible entry and no later entry is visible, or -1 when no entry is visible (the last visible entry wins) |
| TabsReducer.LastIndexOf | lib/tabs.js:157-164 | the index holds a tab with the id and no later tab has it, or -1 (the last match of the `forEach` wins) |
| TabsReducer.SpliceMatches | lib/tabs.js:176-182 | the splice inside the `forEach` never grows the list; the tab it reports is the earlier one or one carrying the id, and whenever a tab was removed the reported tab carries the id |
| TabsReducer.ApplyClose | lib/tabs.js:173-202 | close never lengthens the tab list, never empties a non-empty one, keeps the recover stack at ten entries or fewer, and changes nothing on an empty list |
| TabsReducer.Step | lib/tabs.js:110-238 | one operation keeps the active index in range; payload operations keep a non-empty tab list non-empty and keep the recover stack at ten entries or fewer |
| TabsReducer.ReduceFrom | lib/tabs.js:110-238 | the fold over an admissible log yields a well-formed value |
| TabsReducer.ReduceLog | lib/tabs.js:110-238 | the reducer's loop returns exactly the fold of the log from the initial value, and that value is well formed |
| TabsReducer.Reduce | lib/tabs.js:110-238 | `tabs_reducer` applied to an admissible log yields a well-formed value |
| TabsReducer.AdmissiblePrefix | lib/tabs.js:110-238 | every prefix of an admissible log is admissible |
| TabsReducer.SpliceNoMatch | lib/tabs.js:176-182 | the splice-inside-`forEach` of a close removes nothing when no tab carries the id |
| TabsReducer.SpliceOneMatch | lib/tabs.js:176-182 | when exactly one tab carries the id, the splice removes that tab and reports it |
| TabsReducer.CloseByIdRemovesMatch | lib/tabs.js:173-202 | when at most one tab carries the id, close-by-id removes exactly the last matching tab, or nothing |
| TabsReducer.CloseEffect | lib/tabs.js:173-202 | close removes the tab with the id (or the active tab), pushes it onto the capped recover stack, puts a placeholder with `next_tab_id` in an emptied list, and clamps the active index |
| TabsReducer.CloseKeepsInvariant | lib/tabs.js:173-202 | close keeps the active index in range, never empties a non-empty list, and keeps the recover stack at ten entries or fewer |
| TabsReducerProperties.FoldAppend | lib/tabs.js:110-238 | reducing `a + b` is reducing `b` from the result of `a`, and the whole log is admissible exactly when `b` is admissible after `a` |
| TabsReducerProperties.SnapshotForgetsPrefix | lib/tabs.js:118-124 | a value operation resets the fold: the result depends only on the snapshot and the operations after it |
| TabsReducerProperties.PayloadsKeepTabs | lib/tabs.js:127-230 | payload operations never empty a non-empty tab list |
| TabsReducerProperties.PayloadsBoundRecover | lib/tabs.js:186-191 | payload operations never grow the recover stack past ten entries |
| TabsReducerProperties.NewForeground | lib/tabs.js:127-156 | a `new_tab` or foreground tab goes to the front and becomes active: a `new_tab` placeholder without a URL, or a regular tab with the URL and load count 1 |
| TabsReducerProperties.NewBackground | lib/tabs.js:127-156 | a background tab is inserted at index 1 (index 0 in an empty list), the other tabs are kept in order, and the active tab is unchanged when it was the first |
| TabsReducerProperties.InsertIds | lib/tabs.js:127-156 | inserting a record adds exactly its id to the multiset of ids |
| TabsReducerProperties.SelectActivates | lib/tabs.js:157-164 | select activates a tab with the id when one exists, never reorders, and changes nothing when no tab matches |
| TabsReducerProperties.SelectUnique | lib/tabs.js:157-164 | with a unique id, select activates exactly that tab's index |
| TabsReducerProperties.CommitMovesActiveToFront | lib/tabs.js:165-172 | commit moves the active tab to the front, keeps it active, and keeps the other tabs in order, so the records form the same multiset |
| TabsReducerProperties.CommitIdempotent | lib/tabs.js:165-172 | committing twice is committing once |
| TabsReducerProperties.CloseOnEmpty | lib/tabs.js:173-177 | close on an empty tab list changes nothing |
| TabsReducerProperties.CloseUnknownId | lib/tabs.js:173-202 | closing an id that no tab carries changes nothing |
| TabsReducerProperties.CloseRemoves | lib/tabs.js:173-202 | with two or more tabs, close removes exactly the chosen tab, pushes it as the newest recover entry, and decrements the active index exactly when the last tab was active |
| TabsReducerProperties.CloseLastTab | lib/tabs.js:192-199 | closing the only tab leaves one placeholder, named by `next_tab_id`, and makes it active |
| TabsReducerProperties.CloseBeforeActive | lib/tabs.js:173-202 | closing a tab before the active one keeps the index, so the selection moves to the tab that followed the active one |
| TabsReducerProperties.CappedKeepsNewest | lib/tabs.js:186-191 | the recover stack keeps the ten most recent records, evicting the oldest first |
| TabsReducerProperties.RecoverPops | lib/tabs.js:203-209 | recover puts the newest closed record in front and activates it, and does nothing on an empty stack |
| TabsReducerProperties.CloseThenRecoverIsCommit | lib/tabs.js:165-209 | closing the active tab and then recovering it equals committing it, when another tab remains and the stack was not full |
| TabsReducerProperties.StateUpdatesMatches | lib/tabs.js:210-220 | a state operation sets title and URL of the regular tabs with the id and changes nothing else |
| TabsReducerProperties.LoadUpdatesMatches | lib/tabs.js:221-230 | a load operation sets the URL of the tabs with the id, makes them regular and increments their load count; nothing else changes |
| TabsReducerProperties.UniqueIdsAtMostOne | lib/tabs.js:173-202 | with unique ids, at most one tab matches a close by id |
| TabsReducerProperties.NewIdBag | lib/tabs.js:127-156 | creating a tab introduces no id besides the new one |
| TabsReducerProperties.CommitIdBag | lib/tabs.js:165-172 | commit keeps the ids |
| TabsReducerProperties.RemoveIdBag | lib/tabs.js:176-191 | moving a closed tab to the recover stack introduces no id |
| TabsReducerProperties.CloseIdBag | lib/tabs.js:173-202 | close introduces no id besides the placeholder's |
| TabsReducerProperties.RecoverIdBag | lib/tabs.js:203-209 | recover keeps the ids |
| TabsReducerProperties.StepIdBag | lib/tabs.js:127-230 | with unique ids every payload is admissible and introduces only the ids it names |
| TabsReducerProperties.StepKeepsUniqueIds | lib/tabs.js:127-230 | ids stay unique across open and recoverable tabs through every payload whose new ids are fresh |
| TabsReconcile.UrlOf | lib/tabs.js:253-261 | the URL is null exactly when no entry is visible, and otherwise is the href of a visible entry |
| TabsReconcile.TitleOf | lib/tabs.js:269-277 | the title is null when no entry is visible, and otherwise is the title of the last visible entry |
| TabsReconcile.OpenLoad | lib/tabs.js:315-346 | the first loop keeps the keys and states of `core_tabs`, only raises `last_load`, and issues only `tabs_new` and `tabs_load_url` |
| TabsReconcile.OpenLoadSettles | lib/tabs.js:315-346 | after the first loop every regular tab either shows its URL or has its load count recorded |
| TabsReconcile.OpenLoadQuiet | lib/tabs.js:315-346 | over settled tabs the first loop changes nothing and only creates missing tabs |
| TabsReconcile.OpenLoadGuards | lib/tabs.js:315-346 | each `tabs_new` is for an unknown regular tab, visible and focused exactly when it is the active one; each `tabs_load_url` is for a known tab whose URL differs and whose load count is newer |
| TabsReconcile.StaleIds | lib/tabs.js:349-357 | the keys closed are exactly the `core_tabs` keys that are neither a tab of the value nor the new-tab page |
| TabsReconcile.KeptIds | lib/tabs.js:349-357 | the keys kept are exactly the others, still distinct |
| TabsReconcile.Reconcile | lib/tabs.js:310-383 | one run of `update_tabs` never lengthens the key order of `core_tabs`; it only drops stale keys |
| TabsReconcile.ReconcileCommandKinds | lib/tabs.js:310-383 | `update_tabs` only issues `tabs_new`, `tabs_load_url`, `tabs_close`, the title and `tabs_show`: it never registers a menu builder, navigates, reloads or touches devtools |
| TabsReconcile.CloseCommandsHold | lib/tabs.js:349-357 | a `tabs_close` is issued exactly for each stale key |
| TabsReconcile.ReconcileKeys | lib/tabs.js:310-383 | after `update_tabs`, `core_tabs` holds exactly the earlier keys still in the value (or the new-tab page), and a close is issued exactly for the others |
| TabsReconcile.ReconcileShow | lib/tabs.js:360-379 | `last_active` becomes the active tab (the new-tab page for a placeholder), and `tabs_show` is issued, once, exactly when that changed |
| TabsReconcile.SecondPassQuiet | lib/tabs.js:315-346 | a second pass with the same value loads nothing again |
| TabsReconcile.SecondPassKeepsOrder | lib/tabs.js:349-357 | a second pass with the same value closes nothing |
| TabsReconcile.NothingStaleAfterKept | lib/tabs.js:349-357 | after the close loop no key is stale |
| TabsReconcile.KeptIdsStable | lib/tabs.js:349-357 | the close loop is idempotent on the key order |
| TabsReconcile.ReconcileSecondPass | lib/tabs.js:310-383 | `update_tabs` is idempotent on the bookkeeping, and a repeat issues only creations and titles |
| TabsReconcile.IngestStep | lib/tabs.js:396-434 | one key of a notification: the new-tab page only records its state; another key creates or refreshes its `core_tabs` entry, registers the builder when it is new, and yields a `state` payload when it changed (properties in IngestStepBooks and IngestPushes) |
| TabsReconcile.Ingest | lib/tabs.js:394-437 | the keys of a notification taken in order, one IngestStep each (properties in the rows below) |
| TabsReconcile.IngestGrows | lib/tabs.js:396-416 | a notification only adds keys to `core_tabs` |
| TabsReconcile.IngestCommands | lib/tabs.js:396-416 | a notification registers the context-menu builder at most once per reported key, only for keys new to `core_tabs`, and never for the new-tab page |
| TabsReconcile.IngestStepBooks | lib/tabs.js:394-437 | one key of a notification creates or refreshes its entry with the reported state, keeps `last_load` (0 when new), and leaves other entries unchanged |
| TabsReconcile.IngestKeys | lib/tabs.js:394-437 | after a notification `core_tabs` holds the old keys plus every reported key except the new-tab page |
| TabsReconcile.IngestStates | lib/tabs.js:394-437 | every reported tab holds its reported state, and `last_load` is kept or is 0 for new keys |
| TabsReconcile.IngestPushes | lib/tabs.js:418-434 | a `state` payload is pushed exactly for the reported tabs whose URL or title differs from their last record |
| TabsReconcile.StatePayloadSettles | lib/tabs.js:210-220 | after the pushed `state` payload is reduced, the tab is no longer seen as changed |
| TabsReconcile.LastIndexOfUnique | lib/tabs.js:418-434 | the last record with an id is found at the index of its last occurrence |
| TabsReconcile.WithNavigation | lib/tabs.js:545-566 | the menu ends with Reload, a separator, Inspect Element and Close DevTools, and holds Back and Forward exactly when navigation is possible (Back first) |
| TabsReconcile.ContextMenuItemsAsWritten | lib/tabs.js:540-570 | the builder as written answers only the fixed items, without Back or Forward, for every tab but the new-tab page |
| TabsReconcile.ContextMenuItems | lib/tabs.js:540-570 | the corrected builder answers exactly what the builder as written answers on the new-tab page |
| TabsReconcile.ContextMenuAsWrittenNavigation | lib/tabs.js:540-570 | the builder as written offers Back and Forward exactly on the new-tab page when its reported state allows them, and never for any other tab |
| TabsReconcile.ContextMenuFollowsState | lib/tabs.js:540-570 | the corrected builder offers Back and Forward exactly when the tab's reported state allows it |
| TabsReconcile.ContextMenuMissesBack | lib/tabs.js:557 | a regular tab that can go back gets no Back item from the builder as written, but gets one from the corrected builder |
| TabsReconcile.BaseItemsWithoutNavigation | lib/tabs.js:545-550 | the fixed items contain neither Back nor Forward |
| Tabs.UrlForState | lib/tabs.js:253-261 | the loop returns the href of the last visible entry, which is `UrlOf` |
| Tabs.TitleForState | lib/tabs.js:269-277 | the loop returns the title of the last visible entry, which is `TitleOf` |
| Tabs.ActiveTarget | lib/tabs.js:613-649 | the id the back, forward and reload actions address is the one `update_tabs` shows |
| Tabs.FindLast | lib/tabs.js:419-424 | the loop finds the last record with the id |
| Tabs.OfferedTexts | lib/tabs.js:545-566 | the builder offers only Back, Forward, Reload, Inspect Element and Close DevTools (besides the separator) |
| Tabs.NavigationTexts | lib/tabs.js:545-566 | the menu holds only Back, Forward, Reload, the separator, Inspect Element and Close DevTools, whatever the navigation flags |
| Tabs.MenuCommands | lib/tabs.js:462-529 | a menu item yields at most one request, and none when the menu belongs to another module |
| Tabs.OfferedItemsHandled | lib/tabs.js:462-529 | every item the builder offers yields one request for its tab (or closes devtools), except Inspect Element with no stored menu point |
| Tabs.TabsModule.constructor | lib/tabs.js:718-733 | the module starts with empty bookkeeping, the builder installed on the new-tab page, and the store holding the reduced persisted log |
| Tabs.TabsModule.OpenAndLoad | lib/tabs.js:315-346 | the first loop of `update_tabs` issues exactly `OpenLoad`'s commands and produces its `core_tabs` |
| Tabs.TabsModule.CloseStale | lib/tabs.js:349-357 | the second loop deletes and closes exactly the stale keys |
| Tabs.TabsModule.ShowActive | lib/tabs.js:360-379 | the last step sets the title and shows the active tab when it changed |
| Tabs.TabsModule.UpdateTabs | lib/tabs.js:310-383 | `update_tabs` records the value and performs `Reconcile`, keeping the key order in step with `core_tabs` |
| Tabs.TabsModule.LoadStored | lib/tabs.js:754-766 | the stored value is handed to `update_tabs` |
| Tabs.TabsModule.PushPayload | lib/tabs.js:287-302 | on failure nothing changes; otherwise the payload is appended to the log, reduced into the store, and handed to `update_tabs`; ids stay unique |
| Tabs.TabsModule.ActionNew | lib/tabs.js:578-584 | pushes a `new` payload with the `new_tab` disposition and a fresh id: the store takes one reducer step, and then `last`, `core_tabs` and the commands are those of `update_tabs` on the new store; on failure nothing changes |
| Tabs.TabsModule.ActionCommit | lib/tabs.js:590-594 | pushes a `commit` payload: the store takes one reducer step, and then `last`, `core_tabs` and the commands are those of `update_tabs` on the new store; on failure nothing changes |
| Tabs.TabsModule.ActionClose | lib/tabs.js:602-608 | pushes a `close` payload with a fresh id for the placeholder: the store takes one reducer step, and then `last`, `core_tabs` and the commands are those of `update_tabs` on the new store; on failure nothing changes |
| Tabs.TabsModule.ActionRecover | lib/tabs.js:654-658 | pushes a `recover` payload: the store takes one reducer step, and then `last`, `core_tabs` and the commands are those of `update_tabs` on the new store; on failure nothing changes |
| Tabs.TabsModule.ActionSelect | lib/tabs.js:666-671 | pushes a `select` payload: the store takes one reducer step, and then `last`, `core_tabs` and the commands are those of `update_tabs` on the new store; on failure nothing changes |
| Tabs.TabsModule.ActionLoad | lib/tabs.js:679-688 | pushes a `load` payload for the active tab of `last`: the store takes one reducer step, and then `last`, `core_tabs` and the commands are those of `update_tabs` on the new store; on failure nothing changes; without tabs the store, the log, `last`, `core_tabs`, `last_active` and the commands are all unchanged |
| Tabs.TabsModule.ActionBackOrForward | lib/tabs.js:613-636 | asks the core to go back or forward on the shown tab, and does nothing without tabs |
| Tabs.TabsModule.ActionReload | lib/tabs.js:641-649 | asks the core to reload the shown tab, and does nothing without tabs |
| Tabs.TabsModule.CoreStateHandler | lib/tabs.js:394-437 | the handler's bookkeeping, requests and pushed payloads are those of `Ingest`, and the module's invariant is kept |
| Tabs.TabsModule.IngestAll | lib/tabs.js:394-437 | the loop over the keys performs `Ingest` and keeps the key order listing the keys of `core_tabs` once each |
| Tabs.TabsModule.RecordState | lib/tabs.js:396-416 | one key's bookkeeping and builder registration follow `IngestStep`, and the key order keeps listing the keys of `core_tabs` once each |
| Tabs.TabsModule.ObservedChange | lib/tabs.js:418-434 | one key yields a `state` payload exactly when `IngestStep` pushes one |
| Tabs.TabsModule.CoreTabsCreatedHandler | lib/tabs.js:445-454 | pushes a `new` payload with the event's disposition and a null URL: the store takes one reducer step, and then `last`, `core_tabs` and the commands are those of `update_tabs` on the new store; on failure nothing changes |
| Tabs.TabsModule.CoreContextMenuHandler | lib/tabs.js:462-529 | sends the request `MenuCommands` names for the item, only for this module's menu |
| Tabs.TabsModule.ContextMenuBuilder | lib/tabs.js:540-570 | stores the menu point and answers the corrected menu for the tab's reported state (see Findings and Left out) |
| Tabs.TabsModule.State | lib/tabs.js:697-709 | every record of `last` is returned in order, with the reported state exactly when `core_tabs` knows the tab, and the active index |
| KeyboardShortcuts.RuleShape | lib/keyboard_shortcuts.js:105-241 | every rule of the table has the shape the handler relies on: one-shot rules emit only non-repeating shortcuts, navigation arms the commit, and commit rules fire on key-up |
| KeyboardShortcuts.RuleModifiers | lib/keyboard_shortcuts.js:105-241 | every rule is for a raw key-down or a key-up; a rule without modifiers only clears or commits; a rule with modifiers asks for the platform modifier or Control, with or without Shift |
| KeyboardShortcuts.RunRules | lib/keyboard_shortcuts.js:92-244 | running the first `n` rules emits at most `n` shortcuts |
| KeyboardShortcuts.Handle | lib/keyboard_shortcuts.js:92-244 | one event emits at most one shortcut per rule of the table |
| KeyboardShortcuts.CountAppend | lib/keyboard_shortcuts.js:92-244 | the counts of commits and navigations add up over concatenated outputs |
| KeyboardShortcuts.FireKeepsEmitFacts | lib/keyboard_shortcuts.js:92-244 | one rule keeps "a repeated event emits only repeatable shortcuts" and "indices lie in 0..8" |
| KeyboardShortcuts.RunRulesEmits | lib/keyboard_shortcuts.js:92-244 | running the rules keeps both facts |
| KeyboardShortcuts.FireKeepsFacts | lib/keyboard_shortcuts.js:180-197 | one rule keeps the arming and commit facts |
| KeyboardShortcuts.RunRulesCommits | lib/keyboard_shortcuts.js:180-197 | a run of the rules emits at most one commit, only when armed, and leaves the handler disarmed after it |
| KeyboardShortcuts.CommitsNeedNavigation | lib/keyboard_shortcuts.js:122-241 | over any sequence of events, commits never outnumber the navigations that armed them |
| KeyboardShortcuts.HeldKeyRepeatsOnly | lib/keyboard_shortcuts.js:63-71 | an event equal to the previous one emits only the shortcuts that repeat |
| KeyboardShortcuts.SelectIndexInRange | lib/keyboard_shortcuts.js:146-151 | a select-by-index is always for an index 0 to 8 |
| KeyboardShortcuts.CommitOncePerEvent | lib/keyboard_shortcuts.js:180-197 | one event commits at most once, only when armed, and disarms |
| KeyboardShortcuts.OnlyRule | lib/keyboard_shortcuts.js:92-244 | when only one rule matches an event, the handler does what that rule does |
| KeyboardShortcuts.NewTabOnEveryPress | lib/keyboard_shortcuts.js:105-109 | modifier+T emits a new tab on every press, held or not |
| KeyboardShortcuts.RecoverOnPress | lib/keyboard_shortcuts.js:110-114 | modifier+Shift+T emits a recover when it does not repeat the previous event |
| KeyboardShortcuts.NoRecoverWhenHeld | lib/keyboard_shortcuts.js:110-114 | a held modifier+Shift+T emits nothing |
| KeyboardShortcuts.ReleaseCommits | lib/keyboard_shortcuts.js:180-188 | releasing the modifier key emits a commit exactly when armed, and disarms |
| KeyboardShortcuts.EscapeClears | lib/keyboard_shortcuts.js:222-225 | Escape emits a clear, whatever the modifiers |
| KeyboardShortcuts.TabGroupRuns | lib/keyboard_shortcuts.js:105-127 | the first four statements of the chain are the first four rules |
| KeyboardShortcuts.SwitchGroupRuns | lib/keyboard_shortcuts.js:128-151 | the next four statements are the next four rules |
| KeyboardShortcuts.HistoryGroupRuns | lib/keyboard_shortcuts.js:153-178 | the history and toggle statements are the next five rules |
| KeyboardShortcuts.CommitGroupRuns | lib/keyboard_shortcuts.js:180-209 | the commit, close and stack-pin statements are the next four rules |
| KeyboardShortcuts.PageGroupRuns | lib/keyboard_shortcuts.js:211-241 | the remaining statements, with the Darwin-only ones on Darwin, are the rest of the table |
| KeyboardShortcuts.TabKeys | lib/keyboard_shortcuts.js:105-127 | the statements run as written equal the rules they list |
| KeyboardShortcuts.SwitchKeys | lib/keyboard_shortcuts.js:128-151 | the statements run as written equal the rules they list |
| KeyboardShortcuts.HistoryKeys | lib/keyboard_shortcuts.js:153-178 | the statements run as written equal the rules they list |
| KeyboardShortcuts.CommitKeys | lib/keyboard_shortcuts.js:180-209 | the statements run as written equal the rules they list |
| KeyboardShortcuts.PageKeys | lib/keyboard_shortcuts.js:211-241 | the statements run as written equal the rules they list |
| KeyboardShortcuts.KeyboardShortcutsHandler.constructor | lib/keyboard_shortcuts.js:34-35 | the handler starts with no previous event and disarmed |
| KeyboardShortcuts.KeyboardShortcutsHandler.Handler | lib/keyboard_shortcuts.js:92-244 | the handler emits what the rule table gives for the event, updates the armed flag accordingly, and remembers the event |
| Box.SubmitUrl | lib/box.js:136-166 | the URL loaded always starts with `http://`, `https://`, `file://` or `breach://` |
| Box.LooksLikeHost | lib/box.js:139-155 | input that names a host either starts with `http://` or `https://`, or starts with a host character |
| Box.NoHostBefore | lib/box.js:139-145 | a character outside `[a-z0-9-.]` before the first dot rules out the domain pattern |
| Box.NoDomainFrom | lib/box.js:139-145 | the same, from any start position |
| Box.SubmitPassesLocalSchemes | lib/box.js:147-161 | `file://` and `breach://` input is loaded as typed |
| Box.SubmitPrefixesDomains | lib/box.js:147-155 | a bare domain gets `http://` in front |
| Box.SubmitSearchesWords | lib/box.js:147-166 | input with no dot or colon that is not localhost becomes a search URL for the escaped input |
| Box.NoDotNoDomain | lib/box.js:139-145 | input without a dot never matches the domain pattern |
| Box.SubmitIdempotent | lib/box.js:136-166 | submitting the URL a submission produced loads the same URL |
| Box.PrefixedHostStaysHost | lib/box.js:139-155 | a host with `http://` in front is still a host and now has a scheme |
| Box.SearchUrlIsHost | lib/box.js:139-166 | a search URL is itself an `https://` host |
| Box.VisibleKey | lib/box.js:73-81 | the key of the visible tab is its id (a null id looks up the key "null") |
| Box.PushPayload | lib/box.js:73-81 | the payload is `{}` exactly when no tab is visible (null or empty id), and the visible tab's record exactly when it has one |
| Box.ShowEntriesLastVisible | lib/box.js:102-117 | the record shows the last visible entry: its URL, title and SSL state, or all null for the default page; without a visible entry it is unchanged |
| Box.AbsorbEntry | lib/box.js:98-117 | each reported tab ends with the record built from its previous record, its time stamp and its entries |
| Box.AbsorbOthers | lib/box.js:98-117 | tabs not reported keep their record |
| Box.AbsorbSetsInput | lib/box.js:98-117 | every record the handler creates has its typed input set (null when new) |
| Box.Prune | lib/box.js:119-123 | exactly the records updated at or after `now` are kept, unchanged |
| Box.VisibleAfter | lib/box.js:95-97 | the visible tab becomes the last reported visible tab, and is unchanged when none is visible |
| Box.HandledKeepsReportedTabs | lib/box.js:92-125 | when the clock moves forward, after a notification the box holds records for exactly the reported tabs |
| Box.HandledRecord | lib/box.js:98-117 | a reported tab's record keeps its typed input (null for a new record), carries its time stamp, and shows its last visible entry |
| Box.Handled | lib/box.js:92-125 | every record kept was updated at or after `now`, and every record new to the box has its typed input set |
| Box.Refresh | lib/box.js:98-117 | the loop over the entries builds the record `ShowEntries` describes |
| Box.BoxModule.constructor | lib/box.js:27-38 | the box starts with no records, no visible tab, nothing pushed and nothing loaded |
| Box.BoxModule.Push | lib/box.js:73-81 | appends the payload for the current state |
| Box.BoxModule.CoreStateHandler | lib/box.js:92-125 | the records become `Handled`, the visible tab `VisibleAfter`, and the new payload is pushed |
| Box.BoxModule.AbsorbAll | lib/box.js:95-117 | the loop over the reported tabs builds the records `Absorb` describes and the visible tab `VisibleAfter` names |
| Box.BoxModule.DropStale | lib/box.js:119-123 | the records become `Prune` |
| Box.BoxModule.Submit | lib/box.js:136-180 | loads the submitted URL, resets the visible tab's record to that URL with no input, title or SSL state, leaves other records alone, and pushes |
| Box.BoxModule.Input | lib/box.js:188-193 | stores the typed input in the visible tab's record only, and pushes |
| Color.PixelAt | controls/strip/color.js:111-117 | a pixel is read from four consecutive bytes |
| Color.SamplesFrom | controls/strip/color.js:111 | the sampled indices lie between the start and the pixel count |
| Color.SampledIndices | controls/strip/color.js:111 | the loop visits exactly the indices below the count that are multiples of the quality |
| Color.ModuloGap | controls/strip/color.js:111 | arithmetic helper for SampledIndices: no multiple of the quality lies strictly between two consecutive multiples |
| Color.ModuloStep | controls/strip/color.js:111 | arithmetic helper for SampledIndices: the next sample index is again a multiple of the quality |
| Color.BucketsHoldMembers | controls/strip/color.js:118-128 | a bucket exists exactly when a counted sample falls in it, and it holds all of them, in order, with their count |
| Color.Run | controls/strip/color.js:118-132 | each bucket's count is the number of colours it holds, at most the number of samples, and no bucket holds a near-white colour; the best count is at most the number of samples |
| Color.StepKeepsBest | controls/strip/color.js:118-132 | one visit keeps the best bucket maximal, and there is a best bucket afterwards exactly when there was one or the pixel counts |
| Color.RunKeepsBest | controls/strip/color.js:129-132 | the best bucket has the largest count, and there is one exactly when some sample was counted |
| Color.BestReachedFirst | controls/strip/color.js:129-132 | the best bucket is the first one to reach the largest count |
| Color.DominantIsFirstOfLargest | controls/strip/color.js:96-138 | the result is `None` (where the source throws on the missing bucket) exactly when no sampled pixel is opaque and non-white; otherwise it is the first pixel of a largest bucket that reached that size first |
| Color.Dominant | controls/strip/color.js:108-137 | the colour returned is never near-white |
| Color.Get | controls/strip/color.js:96-138 | the loop returns `Dominant` for the given quality, or for quality 5 when none is given |
| Color.Visit | controls/strip/color.js:118-132 | visiting one pixel updates the buckets and the best bucket as one step of `Run` |

## Left out

- Sending requests to the browser core and the store's callbacks are not modelled. Requests are appended to a command log. `store_push` answers synchronously, with a flag for failure. Callbacks that only log errors are left out.
- `next_tab_id` hashes the clock and a nonce. The model takes the id as a parameter and requires it to be fresh, which is what the hash is meant to give.
- `Date.now()` in the box becomes parameters: `now` for the notification, and one stamp per reported tab.
- The global `escape` function that `socket_submit` applies to a search query (lib/box.js:164) is not modelled. It is the function parameter `escape`, so the model holds whatever that function returns.
- Each regular expression in the box is modelled by a predicate on the input string (a prefix match).
- The box's exposed find-in-page, filter-tabs, focus and select-all procedures are not modelled. They only set a mode flag or forward a request to the sockets. The same goes for the mode flags and the socket handshake.
- The box's log line for the submitted URL is not modelled.
- The devtools HTTP server is not part of this model.
- The canvas drawing in the strip is not part of this model.
- Color.Get: requires a quality of at least 1. With a quality of 0 or less the source's loop never terminates, and callers always leave it at the default.
- Color: a bucket key is a triple of channel tenths rather than the source's joined string. The mapping is one to one.
- The browser core's state is modelled only as far as the module reads it: the visible flag, href, title and SSL state of each entry, plus the navigation flags.
- The `url` object of a history entry is modelled by its `href`.
- Tabs.TabsModule.ContextMenuBuilder: answers the corrected menu, `ContextMenuItems`, not the source's. The menu as written is `ContextMenuItemsAsWritten`: it never offers Back or Forward for a regular tab (see Findings). ContextMenuAsWrittenNavigation states exactly what the source offers.
- TabsReducer.ReduceFrom: the fold is stated for admissible logs only. A snapshot must be a well-formed value, while lib/tabs.js:118-124 takes any value; the snapshots in a log are values the reducer produced. A close by id must match at most one tab, while the `forEach` at lib/tabs.js:176-182 splices every match; ids are generated fresh, so two tabs never share one. With several matches the source's active index could leave the range.
- Tabs.TabsModule.CoreContextMenuHandler: the "Inspect Element" case without a stored menu point throws in the source. The model sends nothing.
- The order of concurrent callbacks is not modelled. `core_state_handler` returns the payloads it pushes instead of interleaving their answers.
- `state()` in the source attaches each reported state onto the records of `my.last` themselves. The model returns a separate view and leaves `last` unchanged.
- The `state` event that `core_state_handler` emits at its end is not modelled. Its payload is what `state()` returns.
- A `recover` payload falls through to the `state` case in the source. It has no `tab_id`, so that case matches no record; the model treats it as changing nothing further.

## Findings

| source | as written | input that shows it | evidently intended | confidence | as-written member | corrected member |
|---|---|---|---|---|---|---|
| lib/tabs.js:557 | for a regular tab the builder takes the `core_tabs` entry itself as the state, and that entry has no `can_go_back` or `can_go_forward` | a regular tab whose reported state has `can_go_back` true: the menu has no Back item | read the navigation flags from the entry's `state`, as is done for the new-tab page | not executed | TabsReconcile.ContextMenuMissesBack | TabsReconcile.ContextMenuFollowsState |
