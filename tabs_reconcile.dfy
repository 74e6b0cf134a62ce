/**
 * The live-state bookkeeping of lib/tabs.js, stated as functions: how
 * `update_tabs` reconciles the reduced tab list with the tabs the browser core
 * actually has open, and how `core_state_handler` ingests a state notification
 * from the core. The class in module Tabs runs these steps imperatively and
 * proves each loop against the functions here.
 */
module TabsReconcile {
  import opened JsValues
  import opened CoreState
  import opened TabsReducer

  /** The id under which the core reports the shared new-tab page. */
  const NewTabSentinel: string := "__NEW_TAB_ID__"

  /** Where a context menu was opened, kept for "Inspect Element". */
  datatype Point = Point(x: int, y: int)

  /** A request sent to the browser core (or an event emitted to the other
      modules), in the order the module issues them. */
  datatype Command =
    | TabsNew(id: string, url: Field, visible: bool, focus: bool)
    | TabsLoadUrl(id: string, url: Field)
    | TabsClose(id: string)
    | TabsShow(showId: Option<string>, focus: bool)
    | SetTitle(title: Field)
    | SetContextMenuBuilder(id: string)
    | TabsBackOrForward(id: string, offset: int)
    | TabsReload(id: string)
    | TabsDevtools(id: string, at: Point)
    | DevtoolsClosed

  /** An entry of `core_tabs`: the last state the core reported for the tab and
      the `load` counter of the last navigation already sent to it. */
  datatype CoreTab = CoreTab(state: TabState, lastLoad: nat)

  /** `url_for_state`: the href of the last visible entry, `null` if none. */
  function UrlOf(st: TabState): (url: Field)
    ensures url.Null? <==> forall j :: 0 <= j < |st.entries| ==> !st.entries[j].visible
    ensures url.Text? ==> exists j :: 0 <= j < |st.entries| && st.entries[j].visible && st.entries[j].href == url.s
  {
    var k := LastVisibleAt(st.entries);
    if k < 0 then Null else Text(st.entries[k].href)
  }

  /** `title_for_state`: the title of the last visible entry, `null` if none. */
  function TitleOf(st: TabState): (title: Field)
    ensures (forall j :: 0 <= j < |st.entries| ==> !st.entries[j].visible) ==> title == Null
    ensures forall j :: (0 <= j < |st.entries| && st.entries[j].visible
      && forall i :: j < i < |st.entries| ==> !st.entries[i].visible) ==> title == st.entries[j].title
  {
    var k := LastVisibleAt(st.entries);
    if k < 0 then Null else st.entries[k].title
  }

  // ---------------------------------------------------------------------------
  // update_tabs, first loop: open missing tabs, send new navigations
  // ---------------------------------------------------------------------------

  /** One visit of the first loop of `update_tabs`. */
  function OpenLoadStep(core: map<string, CoreTab>, t: TabRecord, isActive: bool): (r: (seq<Command>, map<string, CoreTab>)) {
    if t.kind == NewTabType then ([], core)
    else if t.tabId !in core then ([TabsNew(t.tabId, t.url, isActive, isActive)], core)
    else if UrlOf(core[t.tabId].state) != t.url && core[t.tabId].lastLoad < t.load then
      ([TabsLoadUrl(t.tabId, t.url)], core[t.tabId := core[t.tabId].(lastLoad := t.load)])
    else ([], core)
  }

  /** The first `n` visits of the first loop: the commands issued and the
      updated `core_tabs`. The loop only ever raises `last_load`. */
  function OpenLoad(tabs: seq<TabRecord>, active: int, n: nat, core: map<string, CoreTab>): (r: (seq<Command>, map<string, CoreTab>))
    requires n <= |tabs|
    ensures r.1.Keys == core.Keys
    ensures forall id | id in core :: r.1[id].state == core[id].state && r.1[id].lastLoad >= core[id].lastLoad
    ensures forall c | c in r.0 :: c.TabsNew? || c.TabsLoadUrl?
  {
    if n == 0 then ([], core)
    else
      var prev := OpenLoad(tabs, active, n - 1, core);
      var step := OpenLoadStep(prev.1, tabs[n - 1], active == n - 1);
      (prev.0 + step.0, step.1)
  }

  /** A tab whose navigation `core_tabs` has already caught up with: either the
      core shows its url, or its `load` was already sent. */
  predicate Settled(core: map<string, CoreTab>, t: TabRecord) {
    t.kind == Regular && t.tabId in core ==>
      UrlOf(core[t.tabId].state) == t.url || core[t.tabId].lastLoad >= t.load
  }

  /** After the first loop every visited tab is settled. */
  lemma {:induction false} OpenLoadSettles(tabs: seq<TabRecord>, active: int, n: nat, core: map<string, CoreTab>)
    requires n <= |tabs|
    ensures forall j | 0 <= j < n :: Settled(OpenLoad(tabs, active, n, core).1, tabs[j])
  {
    if n > 0 {
      OpenLoadSettles(tabs, active, n - 1, core);
      var m := OpenLoad(tabs, active, n - 1, core).1;
      var m' := OpenLoad(tabs, active, n, core).1;
      assert m' == OpenLoadStep(m, tabs[n - 1], active == n - 1).1;
      forall j | 0 <= j < n ensures Settled(m', tabs[j]) {
        if j < n - 1 {
          assert Settled(m, tabs[j]);
        }
      }
    }
  }

  /** Over tabs that are all settled the first loop changes nothing and opens
      only tabs that the core does not have. */
  lemma {:induction false} OpenLoadQuiet(tabs: seq<TabRecord>, active: int, n: nat, core: map<string, CoreTab>)
    requires n <= |tabs|
    requires forall j | 0 <= j < n :: Settled(core, tabs[j])
    ensures OpenLoad(tabs, active, n, core).1 == core
    ensures forall c | c in OpenLoad(tabs, active, n, core).0 :: c.TabsNew?
  {
    if n > 0 {
      OpenLoadQuiet(tabs, active, n - 1, core);
      assert Settled(core, tabs[n - 1]);
    }
  }

  /** The guards of the first loop: a tab is opened only if it is a regular tab
      the core does not have, visible and focused exactly when active; a url is
      loaded only for a regular tab whose live url differs and whose `load` is
      newer than `last_load`, which is then raised to at least that `load`. */
  lemma {:induction false} OpenLoadGuards(tabs: seq<TabRecord>, active: int, n: nat, core: map<string, CoreTab>)
    requires n <= |tabs|
    ensures var r := OpenLoad(tabs, active, n, core);
      forall c | c in r.0 ::
        (c.TabsNew? ==>
           c.id !in core && c.visible == c.focus
           && exists j | 0 <= j < n :: tabs[j].kind == Regular && tabs[j].tabId == c.id
                && tabs[j].url == c.url && (c.visible <==> j == active))
        && (c.TabsLoadUrl? ==>
           c.id in core && UrlOf(core[c.id].state) != c.url
           && exists j | 0 <= j < n :: tabs[j].kind == Regular && tabs[j].tabId == c.id
                && tabs[j].url == c.url && core[c.id].lastLoad < tabs[j].load && r.1[c.id].lastLoad >= tabs[j].load)
  {
    if n > 0 {
      OpenLoadGuards(tabs, active, n - 1, core);
      var prev := OpenLoad(tabs, active, n - 1, core);
      var step := OpenLoadStep(prev.1, tabs[n - 1], active == n - 1);
      var r := OpenLoad(tabs, active, n, core);
      assert r.0 == prev.0 + step.0 && r.1 == step.1;
      forall id | id in prev.1 ensures r.1[id].lastLoad >= prev.1[id].lastLoad {
      }
    }
  }

  // ---------------------------------------------------------------------------
  // update_tabs, second loop: close what the value no longer has
  // ---------------------------------------------------------------------------

  function TabIdSet(tabs: seq<TabRecord>): set<string> {
    set i | 0 <= i < |tabs| :: tabs[i].tabId
  }

  /** A `core_tabs` key survives reconciliation when the value still has a tab
      with that id, or when it is the new-tab page. */
  predicate Kept(id: string, ids: set<string>) {
    id in ids || id == NewTabSentinel
  }

  /** The keys the second loop closes, in visiting order. */
  function StaleIds(order: seq<string>, ids: set<string>): (stale: seq<string>)
    ensures forall id :: id in stale <==> id in order && !Kept(id, ids)
  {
    if order == [] then []
    else
      var rest := StaleIds(order[..|order| - 1], ids);
      var id := order[|order| - 1];
      if Kept(id, ids) then rest else rest + [id]
  }

  /** The keys the second loop leaves in place, in their original order. */
  function KeptIds(order: seq<string>, ids: set<string>): (kept: seq<string>)
    ensures forall id :: id in kept <==> id in order && Kept(id, ids)
    ensures Distinct(order) ==> Distinct(kept)
  {
    if order == [] then []
    else
      var init := order[..|order| - 1];
      var rest := KeptIds(init, ids);
      var id := order[|order| - 1];
      assert Distinct(order) ==> Distinct(init) && id !in init;
      if Kept(id, ids) then rest + [id] else rest
  }

  function CloseCommands(ids: seq<string>): seq<Command> {
    seq(|ids|, i requires 0 <= i < |ids| => TabsClose(ids[i]))
  }

  // ---------------------------------------------------------------------------
  // update_tabs, last step: title and show
  // ---------------------------------------------------------------------------

  /** The id `update_tabs` shows: the new-tab page when the active record is a
      new tab, the record's own id otherwise, `null` when there is no tab. */
  function ShowTarget(value: SessionState): Option<string>
    requires Wf(value)
  {
    if value.tabs == [] then None
    else
      var t := value.tabs[value.active];
      Some(if t.kind == NewTabType then NewTabSentinel else t.tabId)
  }

  /** What the module knows about the live tabs: `core_tabs` with its key order,
      and the id it last asked the core to show. */
  datatype Live = Live(core: map<string, CoreTab>, order: seq<string>, lastActive: Option<string>)

  /** `order` lists exactly the keys of `core`, once each. */
  ghost predicate Tracked(l: Live) {
    Distinct(l.order) && forall id :: id in l.core <==> id in l.order
  }

  /** `core_tabs` after the closing loop: the entries whose key was closed are
      deleted. */
  function Without(core: map<string, CoreTab>, closed: seq<string>): map<string, CoreTab> {
    map id | id in core && id !in closed :: core[id]
  }

  /** `set_title` for the active record, when there is one. */
  function TitleCommands(value: SessionState): seq<Command>
    requires Wf(value)
  {
    if value.tabs == [] then [] else [SetTitle(value.tabs[value.active].title)]
  }

  /** `tabs_show`, issued only when the target differs from the last one. */
  function ShowCommands(lastActive: Option<string>, target: Option<string>): seq<Command> {
    if lastActive != target then [TabsShow(target, true)] else []
  }

  /** One run of `update_tabs`: the new bookkeeping and the commands issued. */
  function Reconcile(l: Live, value: SessionState): (r: (Live, seq<Command>))
    requires Wf(value)
    ensures |r.0.order| <= |l.order|
  {
    var pass1 := OpenLoad(value.tabs, value.active, |value.tabs|, l.core);
    var ids := TabIdSet(value.tabs);
    var stale := StaleIds(l.order, ids);
    var target := ShowTarget(value);
    KeptIdsShorter(l.order, ids);
    (Live(Without(pass1.1, stale), KeptIds(l.order, ids), target),
     pass1.0 + CloseCommands(stale) + TitleCommands(value) + ShowCommands(l.lastActive, target))
  }

  lemma {:induction false} KeptIdsShorter(order: seq<string>, ids: set<string>)
    ensures |KeptIds(order, ids)| <= |order|
  {
    if order != [] {
      KeptIdsShorter(order[..|order| - 1], ids);
    }
  }

  /** `update_tabs` only opens, loads, closes, retitles and shows tabs: it
      never registers a menu builder, navigates, reloads or touches devtools. */
  lemma ReconcileCommandKinds(l: Live, value: SessionState)
    requires Wf(value)
    ensures forall c | c in Reconcile(l, value).1 :: c.TabsNew? || c.TabsLoadUrl? || c.TabsClose? || c.SetTitle? || c.TabsShow?
  {
    var stale := StaleIds(l.order, TabIdSet(value.tabs));
    forall c | c in CloseCommands(stale) ensures c.TabsClose? {
      CloseCommandsHold(stale, c);
    }
  }

  /** Closing one more key deletes it and adds its `tabs_close` request. */
  lemma CloseOneMore(core: map<string, CoreTab>, stale: seq<string>, id: string)
    ensures Without(core, stale + [id]) == Without(core, stale) - {id}
    ensures CloseCommands(stale + [id]) == CloseCommands(stale) + [TabsClose(id)]
  {
  }

  lemma CloseCommandsHold(ids: seq<string>, c: Command)
    ensures c in CloseCommands(ids) <==> c.TabsClose? && c.id in ids
  {
    if c in CloseCommands(ids) {
      var i :| 0 <= i < |ids| && CloseCommands(ids)[i] == c;
    }
    if c.TabsClose? && c.id in ids {
      var i :| 0 <= i < |ids| && ids[i] == c.id;
      assert CloseCommands(ids)[i] == c;
    }
  }

  /** After reconciliation `core_tabs` holds exactly the earlier keys that the
      value still has (or the new-tab page), the key order still lists them,
      and exactly the other earlier keys were closed. */
  lemma ReconcileKeys(l: Live, value: SessionState)
    requires Wf(value) && Tracked(l)
    ensures Tracked(Reconcile(l, value).0)
    ensures forall id :: id in Reconcile(l, value).0.core <==> id in l.core && Kept(id, TabIdSet(value.tabs))
    ensures forall id :: TabsClose(id) in Reconcile(l, value).1 <==> id in l.core && !Kept(id, TabIdSet(value.tabs))
  {
    var pass1 := OpenLoad(value.tabs, value.active, |value.tabs|, l.core);
    var stale := StaleIds(l.order, TabIdSet(value.tabs));
    var tail := TitleCommands(value) + ShowCommands(l.lastActive, ShowTarget(value));
    assert Reconcile(l, value).1 == pass1.0 + CloseCommands(stale) + tail;
    forall id ensures TabsClose(id) in Reconcile(l, value).1 <==> id in stale {
      CloseCommandsHold(stale, TabsClose(id));
    }
  }

  /** `tabs_show` is issued exactly when the resolved id differs from the last
      one shown, and the resolved id is remembered. */
  lemma ReconcileShow(l: Live, value: SessionState)
    requires Wf(value)
    ensures Reconcile(l, value).0.lastActive == ShowTarget(value)
    ensures TabsShow(ShowTarget(value), true) in Reconcile(l, value).1 <==> l.lastActive != ShowTarget(value)
    ensures forall c | c in Reconcile(l, value).1 && c.TabsShow? :: c == TabsShow(ShowTarget(value), true)
  {
    var pass1 := OpenLoad(value.tabs, value.active, |value.tabs|, l.core);
    var stale := StaleIds(l.order, TabIdSet(value.tabs));
    var head := pass1.0 + CloseCommands(stale) + TitleCommands(value);
    assert Reconcile(l, value).1 == head + ShowCommands(l.lastActive, ShowTarget(value));
    forall c | c in head ensures !c.TabsShow? {
      CloseCommandsHold(stale, c);
    }
  }

  /** After one reconciliation every tab of the value is settled against the
      new `core_tabs`, so the first loop of a second run is quiet. */
  lemma SecondPassQuiet(l: Live, value: SessionState)
    requires Wf(value)
    ensures var core := Reconcile(l, value).0.core;
      var second := OpenLoad(value.tabs, value.active, |value.tabs|, core);
      second.1 == core && forall c | c in second.0 :: c.TabsNew?
  {
    var n := |value.tabs|;
    var first := OpenLoad(value.tabs, value.active, n, l.core).1;
    var core := Without(first, StaleIds(l.order, TabIdSet(value.tabs)));
    assert Reconcile(l, value).0.core == core;
    OpenLoadSettles(value.tabs, value.active, n, l.core);
    forall j | 0 <= j < n ensures Settled(core, value.tabs[j]) {
      assert Settled(first, value.tabs[j]);
    }
    OpenLoadQuiet(value.tabs, value.active, n, core);
  }

  /** After one reconciliation no key is stale any more. */
  lemma SecondPassKeepsOrder(l: Live, value: SessionState)
    requires Wf(value)
    ensures var order := Reconcile(l, value).0.order;
      StaleIds(order, TabIdSet(value.tabs)) == [] && KeptIds(order, TabIdSet(value.tabs)) == order
  {
    var ids := TabIdSet(value.tabs);
    assert Reconcile(l, value).0.order == KeptIds(l.order, ids);
    KeptIdsStable(l.order, ids);
    NothingStaleAfterKept(l.order, ids);
  }

  lemma NothingStaleAfterKept(order: seq<string>, ids: set<string>)
    ensures StaleIds(KeptIds(order, ids), ids) == []
  {
    var stale := StaleIds(KeptIds(order, ids), ids);
    assert forall x :: x !in stale;
  }

  /** Running `update_tabs` a second time with the same value loads nothing,
      closes nothing, shows nothing and leaves the bookkeeping as it is; only
      the open requests for tabs the core has not yet reported are repeated,
      with the title. */
  lemma ReconcileSecondPass(l: Live, value: SessionState)
    requires Wf(value)
    ensures Reconcile(Reconcile(l, value).0, value).0 == Reconcile(l, value).0
    ensures forall c | c in Reconcile(Reconcile(l, value).0, value).1 :: c.TabsNew? || c.SetTitle?
  {
    var l1 := Reconcile(l, value).0;
    SecondPassQuiet(l, value);
    SecondPassKeepsOrder(l, value);
    var second := OpenLoad(value.tabs, value.active, |value.tabs|, l1.core);
    assert Without(l1.core, []) == l1.core;
    assert CloseCommands([]) == [];
    assert l1.lastActive == ShowTarget(value);
    assert Reconcile(l1, value).1 == second.0 + TitleCommands(value);
  }

  /** Filtering the kept keys again keeps all of them. */
  lemma {:induction false} KeptIdsStable(order: seq<string>, ids: set<string>)
    ensures KeptIds(KeptIds(order, ids), ids) == KeptIds(order, ids)
  {
    if order != [] {
      var init := order[..|order| - 1];
      var id := order[|order| - 1];
      KeptIdsStable(init, ids);
      var rest := KeptIds(init, ids);
      if Kept(id, ids) {
        assert (rest + [id])[..|rest + [id]| - 1] == rest;
      }
    }
  }

  // ---------------------------------------------------------------------------
  // core_state_handler
  // ---------------------------------------------------------------------------

  /** What the handler maintains: `core_tabs`, its key order, and the state of
      the new-tab page. */
  datatype Books = Books(core: map<string, CoreTab>, order: seq<string>, newTabState: Option<TabState>)

  /** The observed url or title of the tab differs from the last record with
      its id, so the record needs a `state` payload. */
  predicate Changed(last: SessionState, id: string, st: TabState) {
    var k := LastIndexOf(last.tabs, id);
    k >= 0 && (last.tabs[k].url != UrlOf(st) || last.tabs[k].title != TitleOf(st))
  }

  function StatePayload(id: string, st: TabState): Payload {
    StateUpdate(id, TitleOf(st), UrlOf(st))
  }

  /** One key of a state notification. */
  function IngestStep(b: Books, last: SessionState, id: string, st: TabState): (r: (Books, seq<Command>, seq<Payload>))
  {
    if id == NewTabSentinel then (b.(newTabState := Some(st)), [], [])
    else
      var created := id !in b.core;
      var core := if created then b.core[id := CoreTab(st, 0)] else b.core[id := b.core[id].(state := st)];
      var order := if created then b.order + [id] else b.order;
      var cmds := if created then [SetContextMenuBuilder(id)] else [];
      var pushed := if Changed(last, id, st) then [StatePayload(id, st)] else [];
      (Books(core, order, b.newTabState), cmds, pushed)
  }

  /** The first `n` keys of a notification. */
  function Ingest(b: Books, last: SessionState, incoming: seq<(string, TabState)>, n: nat): (r: (Books, seq<Command>, seq<Payload>))
    requires n <= |incoming|
  {
    if n == 0 then (b, [], [])
    else
      var prev := Ingest(b, last, incoming, n - 1);
      var step := IngestStep(prev.0, last, incoming[n - 1].0, incoming[n - 1].1);
      (step.0, prev.1 + step.1, prev.2 + step.2)
  }

  /** Keys are only ever added to `core_tabs` by a notification. */
  lemma {:induction false} IngestGrows(b: Books, last: SessionState, incoming: seq<(string, TabState)>, n: nat)
    requires n <= |incoming|
    ensures b.core.Keys <= Ingest(b, last, incoming, n).0.core.Keys
  {
    if n > 0 {
      IngestGrows(b, last, incoming, n - 1);
    }
  }

  /** A notification registers the context-menu builder only for keys that
      were not in `core_tabs` before it, never for the new-tab page, and at
      most once per key it reports. */
  lemma {:induction false} IngestCommands(b: Books, last: SessionState, incoming: seq<(string, TabState)>, n: nat)
    requires n <= |incoming|
    ensures var cmds := Ingest(b, last, incoming, n).1;
      |cmds| <= n && forall c | c in cmds :: c.SetContextMenuBuilder? && c.id !in b.core && c.id != NewTabSentinel
  {
    if n > 0 {
      IngestCommands(b, last, incoming, n - 1);
      IngestGrows(b, last, incoming, n - 1);
      var prev := Ingest(b, last, incoming, n - 1);
      var id := incoming[n - 1].0;
      IngestStepCommand(prev.0, last, id, incoming[n - 1].1);
      var step := IngestStep(prev.0, last, id, incoming[n - 1].1).1;
      assert Ingest(b, last, incoming, n).1 == prev.1 + step;
      BuildersExtend(b.core, prev.0.core, prev.1, step, id);
    }
  }

  /** Appending one key's registration to registrations for keys outside
      `core` keeps them all outside `core`. */
  lemma BuildersExtend(core: map<string, CoreTab>, later: map<string, CoreTab>, cmds: seq<Command>, step: seq<Command>, id: string)
    requires core.Keys <= later.Keys
    requires forall c | c in cmds :: c.SetContextMenuBuilder? && c.id !in core && c.id != NewTabSentinel
    requires step == [] || (step == [SetContextMenuBuilder(id)] && id !in later && id != NewTabSentinel)
    ensures forall c | c in cmds + step :: c.SetContextMenuBuilder? && c.id !in core && c.id != NewTabSentinel
  {
  }

  /** One key registers the builder for itself, and only when it is new. */
  lemma IngestStepCommand(b: Books, last: SessionState, id: string, st: TabState)
    ensures var cmds := IngestStep(b, last, id, st).1;
      cmds == [] || (cmds == [SetContextMenuBuilder(id)] && id !in b.core && id != NewTabSentinel)
  {
  }

  function Keys(incoming: seq<(string, TabState)>): seq<string> {
    seq(|incoming|, i requires 0 <= i < |incoming| => incoming[i].0)
  }

  /** One key of a notification, for a key not seen before in it: the entry
      for the key is created or refreshed with the reported state, nothing else
      in `core_tabs` changes, and the key order keeps listing the keys. */
  lemma IngestStepBooks(b: Books, last: SessionState, id: string, st: TabState)
    requires Tracked(Live(b.core, b.order, None))
    ensures var b' := IngestStep(b, last, id, st).0;
      Tracked(Live(b'.core, b'.order, None))
      && (forall k :: k in b'.core <==> k in b.core || (k == id && id != NewTabSentinel))
      && (id != NewTabSentinel ==> b'.core[id].state == st)
      && (forall k | k in b.core && k != id :: b'.core[k] == b.core[k])
      && (id in b.core && id != NewTabSentinel ==> b'.core[id].lastLoad == b.core[id].lastLoad)
      && (id !in b.core && id != NewTabSentinel ==> b'.core[id].lastLoad == 0)
  {
    if id != NewTabSentinel && id !in b.core {
      assert id !in b.order;
    }
  }

  /** After a notification with distinct keys, `core_tabs` holds the earlier
      keys plus every reported id other than the new-tab page, and the key
      order still lists the keys once each. */
  lemma {:induction false} IngestKeys(b: Books, last: SessionState, incoming: seq<(string, TabState)>, n: nat)
    requires n <= |incoming| && Distinct(Keys(incoming))
    requires Tracked(Live(b.core, b.order, None))
    ensures var b' := Ingest(b, last, incoming, n).0;
      Tracked(Live(b'.core, b'.order, None))
      && (forall id :: id in b'.core <==> id in b.core || exists j | 0 <= j < n :: incoming[j].0 == id && id != NewTabSentinel)
  {
    if n > 0 {
      IngestKeys(b, last, incoming, n - 1);
      var p := Ingest(b, last, incoming, n - 1).0;
      var id, st := incoming[n - 1].0, incoming[n - 1].1;
      var b' := Ingest(b, last, incoming, n).0;
      assert b' == IngestStep(p, last, id, st).0;
      IngestStepBooks(p, last, id, st);
      forall k ensures k in b'.core <==> k in b.core || exists j | 0 <= j < n :: incoming[j].0 == k && k != NewTabSentinel {
        if k == id && id != NewTabSentinel {
          assert incoming[n - 1].0 == k;
        }
      }
    }
  }

  /** ... a reported tab holds its reported state, a new entry starts with
      `last_load` 0 and an existing one keeps its counter. */
  lemma IngestStates(b: Books, last: SessionState, incoming: seq<(string, TabState)>, n: nat)
    requires n <= |incoming| && Distinct(Keys(incoming))
    requires Tracked(Live(b.core, b.order, None))
    ensures var b' := Ingest(b, last, incoming, n).0;
      (forall j | 0 <= j < n && incoming[j].0 != NewTabSentinel :: incoming[j].0 in b'.core && b'.core[incoming[j].0].state == incoming[j].1)
      && (forall id | id in b'.core :: b'.core[id].lastLoad == if id in b.core then b.core[id].lastLoad else 0)
  {
    IngestReportedStates(b, last, incoming, n);
    IngestLastLoads(b, last, incoming, n);
  }

  lemma {:induction false} IngestReportedStates(b: Books, last: SessionState, incoming: seq<(string, TabState)>, n: nat)
    requires n <= |incoming| && Distinct(Keys(incoming))
    requires Tracked(Live(b.core, b.order, None))
    ensures var b' := Ingest(b, last, incoming, n).0;
      forall j | 0 <= j < n && incoming[j].0 != NewTabSentinel :: incoming[j].0 in b'.core && b'.core[incoming[j].0].state == incoming[j].1
  {
    if n > 0 {
      IngestReportedStates(b, last, incoming, n - 1);
      IngestKeys(b, last, incoming, n - 1);
      var p := Ingest(b, last, incoming, n - 1).0;
      var id, st := incoming[n - 1].0, incoming[n - 1].1;
      assert Ingest(b, last, incoming, n).0 == IngestStep(p, last, id, st).0;
      IngestStepBooks(p, last, id, st);
      forall j | 0 <= j < n - 1 ensures incoming[j].0 != id {
        assert Keys(incoming)[j] != Keys(incoming)[n - 1];
      }
    }
  }

  lemma {:induction false} IngestLastLoads(b: Books, last: SessionState, incoming: seq<(string, TabState)>, n: nat)
    requires n <= |incoming| && Distinct(Keys(incoming))
    requires Tracked(Live(b.core, b.order, None))
    ensures var b' := Ingest(b, last, incoming, n).0;
      forall id | id in b'.core :: b'.core[id].lastLoad == if id in b.core then b.core[id].lastLoad else 0
  {
    if n > 0 {
      IngestLastLoads(b, last, incoming, n - 1);
      IngestKeys(b, last, incoming, n - 1);
      var p := Ingest(b, last, incoming, n - 1).0;
      var id, st := incoming[n - 1].0, incoming[n - 1].1;
      var b' := Ingest(b, last, incoming, n).0;
      assert b' == IngestStep(p, last, id, st).0;
      IngestStepBooks(p, last, id, st);
      forall k | k in b'.core ensures b'.core[k].lastLoad == if k in b.core then b.core[k].lastLoad else 0 {
        if k != id || id == NewTabSentinel {
          assert k in p.core;
        }
      }
    }
  }

  lemma IngestStepPushes(b: Books, last: SessionState, id: string, st: TabState)
    ensures IngestStep(b, last, id, st).2
      == if id != NewTabSentinel && Changed(last, id, st) then [StatePayload(id, st)] else []
  {
  }

  /** A notification pushes a `state` payload for a reported tab exactly when
      its observed url or title differs from the record, and pushes nothing
      else. */
  lemma {:induction false} IngestPushes(b: Books, last: SessionState, incoming: seq<(string, TabState)>, n: nat)
    requires n <= |incoming|
    ensures forall p | p in Ingest(b, last, incoming, n).2 :: exists j | 0 <= j < n ::
      incoming[j].0 != NewTabSentinel && Changed(last, incoming[j].0, incoming[j].1)
      && p == StatePayload(incoming[j].0, incoming[j].1)
    ensures forall j | 0 <= j < n && incoming[j].0 != NewTabSentinel && Changed(last, incoming[j].0, incoming[j].1) ::
      StatePayload(incoming[j].0, incoming[j].1) in Ingest(b, last, incoming, n).2
  {
    if n > 0 {
      IngestPushes(b, last, incoming, n - 1);
      var prev := Ingest(b, last, incoming, n - 1);
      var id, st := incoming[n - 1].0, incoming[n - 1].1;
      var added := IngestStep(prev.0, last, id, st).2;
      IngestStepPushes(prev.0, last, id, st);
      assert Ingest(b, last, incoming, n).2 == prev.2 + added;
      PushesExtend(last, incoming, n, prev.2, added);
    }
  }

  /** Appending the payload of key `n - 1` to the payloads of the keys before
      it gives the payloads of the first `n` keys. */
  lemma PushesExtend(last: SessionState, incoming: seq<(string, TabState)>, n: nat, before: seq<Payload>, added: seq<Payload>)
    requires 0 < n <= |incoming|
    requires forall p | p in before :: exists j | 0 <= j < n - 1 ::
      incoming[j].0 != NewTabSentinel && Changed(last, incoming[j].0, incoming[j].1)
      && p == StatePayload(incoming[j].0, incoming[j].1)
    requires forall j | 0 <= j < n - 1 && incoming[j].0 != NewTabSentinel && Changed(last, incoming[j].0, incoming[j].1) ::
      StatePayload(incoming[j].0, incoming[j].1) in before
    requires var id, st := incoming[n - 1].0, incoming[n - 1].1;
      added == if id != NewTabSentinel && Changed(last, id, st) then [StatePayload(id, st)] else []
    ensures forall p | p in before + added :: exists j | 0 <= j < n ::
      incoming[j].0 != NewTabSentinel && Changed(last, incoming[j].0, incoming[j].1)
      && p == StatePayload(incoming[j].0, incoming[j].1)
    ensures forall j | 0 <= j < n && incoming[j].0 != NewTabSentinel && Changed(last, incoming[j].0, incoming[j].1) ::
      StatePayload(incoming[j].0, incoming[j].1) in before + added
  {
    var pushed := before + added;
    forall j | 0 <= j < n && incoming[j].0 != NewTabSentinel && Changed(last, incoming[j].0, incoming[j].1)
      ensures StatePayload(incoming[j].0, incoming[j].1) in pushed
    {
      if j < n - 1 {
        assert StatePayload(incoming[j].0, incoming[j].1) in before;
      }
    }
    forall q | q in pushed ensures exists j | 0 <= j < n ::
       incoming[j].0 != NewTabSentinel && Changed(last, incoming[j].0, incoming[j].1)
       && q == StatePayload(incoming[j].0, incoming[j].1)
    {
      if q in before {
        var j :| 0 <= j < n - 1 && incoming[j].0 != NewTabSentinel && Changed(last, incoming[j].0, incoming[j].1)
          && q == StatePayload(incoming[j].0, incoming[j].1);
      }
    }
  }

  /** The round trip closes: once the store applied the `state` payload, the
      same observation no longer counts as a change for a regular tab, so the
      next identical notification pushes nothing for it. */
  lemma StatePayloadSettles(s: SessionState, id: string, st: TabState)
    requires Wf(s)
    requires var k := LastIndexOf(s.tabs, id); k >= 0 && s.tabs[k].kind == Regular
    ensures !Changed(Step(s, PayloadOp(StatePayload(id, st))), id, st)
  {
    var r := Step(s, PayloadOp(StatePayload(id, st)));
    assert r.tabs == ApplyState(s, id, TitleOf(st), UrlOf(st)).tabs;
    var k := LastIndexOf(s.tabs, id);
    assert r.tabs[k].tabId == id;
    forall j | k < j < |r.tabs| ensures r.tabs[j].tabId != id {
      assert s.tabs[j].tabId != id;
    }
    assert LastIndexOf(r.tabs, id) == k by {
      LastIndexOfUnique(r.tabs, id, k);
    }
  }

  /** `LastIndexOf` is the last index that carries the id. */
  lemma LastIndexOfUnique(tabs: seq<TabRecord>, id: string, k: nat)
    requires k < |tabs| && tabs[k].tabId == id
    requires forall j | k < j < |tabs| :: tabs[j].tabId != id
    ensures LastIndexOf(tabs, id) == k
  {
  }

  // ---------------------------------------------------------------------------
  // state() and the context-menu builder
  // ---------------------------------------------------------------------------

  /** A record of the reduced value together with the live state attached to
      it by `state()`. */
  datatype TabView = TabView(record: TabRecord, state: Option<TabState>)

  datatype View = View(tabs: seq<TabView>, active: int)

  function Attach(core: map<string, CoreTab>, t: TabRecord): TabView {
    TabView(t, if t.tabId in core then Some(core[t.tabId].state) else None)
  }

  /** The state `lookup` finds for a context-menu request: the new-tab page's
      own state, or the core entry of the tab. */
  datatype MenuSource = NewTabPage(pageState: Option<TabState>) | CoreEntry(entry: CoreTab) | Unknown

  function MenuSourceFor(id: string, newTabState: Option<TabState>, core: map<string, CoreTab>): MenuSource {
    if id == NewTabSentinel then NewTabPage(newTabState)
    else if id in core then CoreEntry(core[id])
    else Unknown
  }

  const BaseItems: seq<Field> := [Text("Reload"), Null, Text("Inspect Element"), Text("Close DevTools")]

  lemma BaseItemsWithoutNavigation()
    ensures Text("Back") !in BaseItems && Text("Forward") !in BaseItems
  {
    assert |"Back"| == 4 && |"Forward"| == 7 && |"Reload"| == 6;
    assert |"Inspect Element"| == 15 && |"Close DevTools"| == 14;
  }

  /** Menu items when navigation is possible back and/or forward: each
      `splice(0, 0, …)` puts its item at the front, Forward first, then Back. */
  function WithNavigation(back: bool, forward: bool): (items: seq<Field>)
    ensures 4 <= |items|
    ensures items[|items| - 4..] == BaseItems
    ensures (Text("Back") in items) == back && (Text("Forward") in items) == forward
    ensures back && forward ==> items[..2] == [Text("Back"), Text("Forward")]
  {
    BaseItemsWithoutNavigation();
    var withForward := if forward then [Text("Forward")] + BaseItems else BaseItems;
    if back then [Text("Back")] + withForward else withForward
  }

  /** The builder as written: for a regular tab it reads `can_go_back` and
      `can_go_forward` off the `core_tabs` entry, which has no such properties,
      so Back and Forward are only ever offered on the new-tab page. */
  function ContextMenuItemsAsWritten(src: MenuSource): (items: seq<Field>)
    ensures !src.NewTabPage? ==> items == BaseItems
  {
    match src
    case NewTabPage(Some(st)) => WithNavigation(st.canGoBack, st.canGoForward)
    case _ => BaseItems
  }

  /** The builder as evidently intended: navigation items follow the state
      reported for the tab, whichever tab it is. */
  function ContextMenuItems(src: MenuSource): (items: seq<Field>)
    ensures src.NewTabPage? ==> items == ContextMenuItemsAsWritten(src)
  {
    match src
    case NewTabPage(Some(st)) => WithNavigation(st.canGoBack, st.canGoForward)
    case CoreEntry(e) => WithNavigation(e.state.canGoBack, e.state.canGoForward)
    case _ => BaseItems
  }

  /** The state the builder should consult for a request. */
  function ReportedState(src: MenuSource): Option<TabState> {
    match src
    case NewTabPage(st) => st
    case CoreEntry(e) => Some(e.state)
    case Unknown => None
  }

  /** The menu offers Back exactly when the tab's reported state can go back
      and Forward exactly when it can go forward, always followed by the fixed
      Reload / separator / Inspect Element / Close DevTools items. */
  lemma ContextMenuFollowsState(src: MenuSource)
    ensures |ContextMenuItems(src)| >= 4
    ensures ContextMenuItems(src)[|ContextMenuItems(src)| - 4..] == BaseItems
    ensures Text("Back") in ContextMenuItems(src) <==> ReportedState(src).Some? && ReportedState(src).value.canGoBack
    ensures Text("Forward") in ContextMenuItems(src) <==> ReportedState(src).Some? && ReportedState(src).value.canGoForward
  {
    BaseItemsWithoutNavigation();
  }

  /** The builder as written offers Back and Forward on the new-tab page only,
      exactly as its reported state allows, and never for any other tab. */
  lemma ContextMenuAsWrittenNavigation(src: MenuSource)
    ensures Text("Back") in ContextMenuItemsAsWritten(src)
      <==> src.NewTabPage? && src.pageState.Some? && src.pageState.value.canGoBack
    ensures Text("Forward") in ContextMenuItemsAsWritten(src)
      <==> src.NewTabPage? && src.pageState.Some? && src.pageState.value.canGoForward
  {
    BaseItemsWithoutNavigation();
  }

  /** The discrepancy: a regular tab that can go back is not offered Back. */
  lemma ContextMenuMissesBack()
    ensures var st := TabState(true, [], true, false);
      var core := map["t1" := CoreTab(st, 0)];
      Text("Back") !in ContextMenuItemsAsWritten(MenuSourceFor("t1", None, core))
      && Text("Back") in ContextMenuItems(MenuSourceFor("t1", None, core))
  {
    BaseItemsWithoutNavigation();
  }
}
