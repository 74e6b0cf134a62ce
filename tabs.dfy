/**
 * The tabs object of lib/tabs.js: the bookkeeping it keeps about the browser
 * core (`core_tabs`, the new-tab page, `last`, `last_active`), the store it
 * pushes payloads to, and the requests it sends to the core.
 *
 * The core is represented by the `commands` log: every request the object
 * sends is appended to it. The store is represented by `store`, the reduction
 * of the ghost operation log `log`; a push either fails and changes nothing, or
 * appends its payload and hands the new value to `UpdateTabs`, as the
 * `store_push` callback does.
 */
module Tabs {
  import opened JsValues
  import opened CoreState
  import opened TabsReducer
  import opened TabsReducerProperties
  import opened TabsReconcile

  /** `url_for_state`: the loop keeps the href of the last visible entry. */
  method UrlForState(st: TabState) returns (url: Field)
    ensures url == UrlOf(st)
  {
    url := Null;
    var i := 0;
    while i < |st.entries|
      invariant 0 <= i <= |st.entries|
      invariant url == (var k := LastVisibleAt(st.entries[..i]); if k < 0 then Null else Text(st.entries[k].href))
    {
      assert st.entries[..i + 1][..i] == st.entries[..i];
      if st.entries[i].visible {
        url := Text(st.entries[i].href);
      }
      i := i + 1;
    }
    assert st.entries[..i] == st.entries;
  }

  /** `title_for_state`: the loop keeps the title of the last visible entry. */
  method TitleForState(st: TabState) returns (title: Field)
    ensures title == TitleOf(st)
  {
    title := Null;
    var i := 0;
    while i < |st.entries|
      invariant 0 <= i <= |st.entries|
      invariant title == (var k := LastVisibleAt(st.entries[..i]); if k < 0 then Null else st.entries[k].title)
    {
      assert st.entries[..i + 1][..i] == st.entries[..i];
      if st.entries[i].visible {
        title := st.entries[i].title;
      }
      i := i + 1;
    }
    assert st.entries[..i] == st.entries;
  }

  /** The tab an action addresses in the core: the new-tab page when the
      active record is a new tab, the record's own id otherwise. */
  function ActiveTarget(last: SessionState): (id: string)
    requires Wf(last) && last.tabs != []
    ensures ShowTarget(last) == Some(id)
  {
    if last.tabs[last.active].kind == NewTabType then NewTabSentinel else last.tabs[last.active].tabId
  }

  class TabsModule {
    /** `my.core_tabs`, and the order in which its keys were inserted. */
    var coreTabs: map<string, CoreTab>
    var coreOrder: seq<string>
    /** `my.new_tab.state`; the new-tab id itself is `NewTabSentinel`. */
    var newTabState: Option<TabState>
    /** `my.last`, the latest reduced value handed to `update_tabs`. */
    var last: SessionState
    /** `my.last_active`. */
    var lastActive: Option<string>
    /** `my.context_menu_params`, the point of the last context menu. */
    var menuPoint: Option<Point>
    /** The value the store holds, and the operations pushed to it. */
    var store: SessionState
    ghost var log: seq<Op>
    /** Every request sent to the core, oldest first. */
    var commands: seq<Command>

    ghost predicate Valid()
      reads this
    {
      Wf(last) && Wf(store) && UniqueIds(store)
      && AdmissibleLog(Initial, log) && store == Reduce(log)
      && Tracked(LiveOf())
    }

    function LiveOf(): Live
      reads this
    {
      Live(coreTabs, coreOrder, lastActive)
    }

    function BooksOf(): Books
      reads this
    {
      Books(coreTabs, coreOrder, newTabState)
    }

    /** The object right after the first two steps of `init`: nothing is known
        about the core yet, the context-menu builder is installed on the
        new-tab page, and the store holds the reduction of the persisted log. */
    constructor(persisted: seq<Op>)
      requires AdmissibleLog(Initial, persisted) && UniqueIds(Reduce(persisted))
      ensures Valid()
      ensures coreTabs == map[] && coreOrder == [] && newTabState == None
      ensures last == Initial && lastActive == None && menuPoint == None
      ensures log == persisted && store == Reduce(persisted)
      ensures commands == [SetContextMenuBuilder(NewTabSentinel)]
    {
      coreTabs := map[];
      coreOrder := [];
      newTabState := None;
      last := Initial;
      lastActive := None;
      menuPoint := None;
      log := persisted;
      var value := ReduceLog(persisted);
      store := value;
      commands := [SetContextMenuBuilder(NewTabSentinel)];
    }

    // -------------------------------------------------------------------------
    // update_tabs
    // -------------------------------------------------------------------------

    /** The first loop of `update_tabs`, returning the requests it sends; also
        collects the ids of the value. */
    method OpenAndLoad(value: SessionState) returns (ids: set<string>, sent: seq<Command>)
      requires Wf(value)
      modifies this`coreTabs
      ensures var r := OpenLoad(value.tabs, value.active, |value.tabs|, old(coreTabs));
        sent == r.0 && coreTabs == r.1
      ensures ids == TabIdSet(value.tabs)
    {
      ids := {};
      sent := [];
      var i := 0;
      while i < |value.tabs|
        invariant 0 <= i <= |value.tabs|
        invariant ids == set j | 0 <= j < i :: value.tabs[j].tabId
        invariant sent == OpenLoad(value.tabs, value.active, i, old(coreTabs)).0
        invariant coreTabs == OpenLoad(value.tabs, value.active, i, old(coreTabs)).1
      {
        var t := value.tabs[i];
        ids := ids + {t.tabId};
        if t.kind == NewTabType {
        } else if t.tabId !in coreTabs {
          var active := value.active == i;
          sent := sent + [TabsNew(t.tabId, t.url, active, active)];
        } else {
          var url := UrlForState(coreTabs[t.tabId].state);
          if url != t.url && coreTabs[t.tabId].lastLoad < t.load {
            coreTabs := coreTabs[t.tabId := coreTabs[t.tabId].(lastLoad := t.load)];
            sent := sent + [TabsLoadUrl(t.tabId, t.url)];
          }
        }
        i := i + 1;
      }
    }

    /** The second loop of `update_tabs`: every key of `core_tabs` that is
        neither an id of the value nor the new-tab page is closed and deleted. */
    method CloseStale(ids: set<string>) returns (sent: seq<Command>)
      modifies this`coreTabs, this`coreOrder
      ensures var stale := StaleIds(old(coreOrder), ids);
        coreTabs == Without(old(coreTabs), stale)
        && coreOrder == KeptIds(old(coreOrder), ids)
        && sent == CloseCommands(stale)
    {
      var order := coreOrder;
      var kept := [];
      sent := [];
      var j := 0;
      while j < |order|
        invariant 0 <= j <= |order|
        invariant kept == KeptIds(order[..j], ids)
        invariant coreTabs == Without(old(coreTabs), StaleIds(order[..j], ids))
        invariant sent == CloseCommands(StaleIds(order[..j], ids))
      {
        var id := order[j];
        assert order[..j + 1][..j] == order[..j];
        if !(id in ids || id == NewTabSentinel) {
          CloseOneMore(old(coreTabs), StaleIds(order[..j], ids), id);
          sent := sent + [TabsClose(id)];
          coreTabs := coreTabs - {id};
        } else {
          kept := kept + [id];
        }
        j := j + 1;
      }
      assert order[..j] == order;
      coreOrder := kept;
    }

    /** The last step of `update_tabs`: set the title of the active record and
        show it if it is not the tab shown last. */
    method ShowActive(value: SessionState) returns (sent: seq<Command>)
      requires Wf(value)
      modifies this`lastActive
      ensures lastActive == ShowTarget(value)
      ensures sent == TitleCommands(value) + ShowCommands(old(lastActive), ShowTarget(value))
    {
      sent := [];
      var active: Option<string> := None;
      if 0 <= value.active < |value.tabs| {
        var tab := value.tabs[value.active];
        active := if tab.kind == NewTabType then Some(NewTabSentinel) else Some(tab.tabId);
        sent := sent + [SetTitle(tab.title)];
      }
      if lastActive != active {
        lastActive := active;
        sent := sent + [TabsShow(active, true)];
      }
    }

    /** `update_tabs(value)`. */
    method UpdateTabs(value: SessionState)
      requires Wf(value) && Tracked(LiveOf())
      modifies this`last, this`coreTabs, this`coreOrder, this`lastActive, this`commands
      ensures last == value
      ensures LiveOf() == Reconcile(old(LiveOf()), value).0
      ensures commands == old(commands) + Reconcile(old(LiveOf()), value).1
      ensures Tracked(LiveOf())
    {
      ghost var l0 := LiveOf();
      ReconcileKeys(l0, value);
      last := value;
      var ids, created := OpenAndLoad(value);
      var closed := CloseStale(ids);
      var shown := ShowActive(value);
      commands := commands + (created + closed + shown);
    }

    /** The last step of `init`: reconcile with the value the store holds. */
    method LoadStored()
      requires Valid()
      modifies this`last, this`coreTabs, this`coreOrder, this`lastActive, this`commands
      ensures Valid()
      ensures last == store
      ensures LiveOf() == Reconcile(old(LiveOf()), store).0
      ensures commands == old(commands) + Reconcile(old(LiveOf()), store).1
    {
      UpdateTabs(store);
    }

    // -------------------------------------------------------------------------
    // push_payload
    // -------------------------------------------------------------------------

    /** `push_payload(p)`: on an error nothing changes; otherwise the store
        appends the payload and `update_tabs` runs on the new value. The ids the
        payload introduces must be fresh. */
    method PushPayload(p: Payload, failed: bool)
      requires Valid() && FreshFor(store, p)
      modifies this`store, this`log, this`last, this`coreTabs, this`coreOrder, this`lastActive, this`commands
      ensures Valid()
      ensures failed ==>
        store == old(store) && log == old(log) && last == old(last)
        && LiveOf() == old(LiveOf()) && commands == old(commands)
      ensures !failed ==>
        log == old(log) + [PayloadOp(p)] && store == Step(old(store), PayloadOp(p))
        && last == store
        && LiveOf() == Reconcile(old(LiveOf()), store).0
        && commands == old(commands) + Reconcile(old(LiveOf()), store).1
    {
      if failed {
        return;
      }
      StepKeepsUniqueIds(store, p);
      var op := PayloadOp(p);
      ghost var log' := log + [op];
      assert log'[..|log'| - 1] == log;
      log := log';
      store := Step(store, op);
      UpdateTabs(store);
    }

    // -------------------------------------------------------------------------
    // actions
    // -------------------------------------------------------------------------

    /** `action_new`, with `freshId` standing for `next_tab_id()`. */
    method ActionNew(freshId: string, failed: bool)
      requires Valid() && freshId !in IdBag(store)
      modifies this`store, this`log, this`last, this`coreTabs, this`coreOrder, this`lastActive, this`commands
      ensures Valid()
      ensures log == old(log) + if failed then [] else [PayloadOp(New(NewTabDisposition, freshId, Absent))]
      ensures failed ==>
        store == old(store) && last == old(last) && LiveOf() == old(LiveOf()) && commands == old(commands)
      ensures !failed ==>
        store == Step(old(store), PayloadOp(New(NewTabDisposition, freshId, Absent))) && last == store
        && LiveOf() == Reconcile(old(LiveOf()), store).0
        && commands == old(commands) + Reconcile(old(LiveOf()), store).1
    {
      PushPayload(New(NewTabDisposition, freshId, Absent), failed);
    }

    /** `action_commit`. */
    method ActionCommit(failed: bool)
      requires Valid()
      modifies this`store, this`log, this`last, this`coreTabs, this`coreOrder, this`lastActive, this`commands
      ensures Valid()
      ensures log == old(log) + if failed then [] else [PayloadOp(Commit)]
      ensures failed ==>
        store == old(store) && last == old(last) && LiveOf() == old(LiveOf()) && commands == old(commands)
      ensures !failed ==>
        store == Step(old(store), PayloadOp(Commit)) && last == store
        && LiveOf() == Reconcile(old(LiveOf()), store).0
        && commands == old(commands) + Reconcile(old(LiveOf()), store).1
    {
      PushPayload(Commit, failed);
    }

    /** `action_close(tab_id)`; `target` is absent when no id is given, and
        `freshId` stands for `next_tab_id()`. */
    method ActionClose(target: Field, freshId: string, failed: bool)
      requires Valid() && freshId !in IdBag(store)
      modifies this`store, this`log, this`last, this`coreTabs, this`coreOrder, this`lastActive, this`commands
      ensures Valid()
      ensures log == old(log) + if failed then [] else [PayloadOp(Close(target, freshId))]
      ensures failed ==>
        store == old(store) && last == old(last) && LiveOf() == old(LiveOf()) && commands == old(commands)
      ensures !failed ==>
        store == Step(old(store), PayloadOp(Close(target, freshId))) && last == store
        && LiveOf() == Reconcile(old(LiveOf()), store).0
        && commands == old(commands) + Reconcile(old(LiveOf()), store).1
    {
      PushPayload(Close(target, freshId), failed);
    }

    /** `action_recover`. */
    method ActionRecover(failed: bool)
      requires Valid()
      modifies this`store, this`log, this`last, this`coreTabs, this`coreOrder, this`lastActive, this`commands
      ensures Valid()
      ensures log == old(log) + if failed then [] else [PayloadOp(Recover)]
      ensures failed ==>
        store == old(store) && last == old(last) && LiveOf() == old(LiveOf()) && commands == old(commands)
      ensures !failed ==>
        store == Step(old(store), PayloadOp(Recover)) && last == store
        && LiveOf() == Reconcile(old(LiveOf()), store).0
        && commands == old(commands) + Reconcile(old(LiveOf()), store).1
    {
      PushPayload(Recover, failed);
    }

    /** `action_select(tab_id)`. */
    method ActionSelect(id: string, failed: bool)
      requires Valid()
      modifies this`store, this`log, this`last, this`coreTabs, this`coreOrder, this`lastActive, this`commands
      ensures Valid()
      ensures log == old(log) + if failed then [] else [PayloadOp(Select(id))]
      ensures failed ==>
        store == old(store) && last == old(last) && LiveOf() == old(LiveOf()) && commands == old(commands)
      ensures !failed ==>
        store == Step(old(store), PayloadOp(Select(id))) && last == store
        && LiveOf() == Reconcile(old(LiveOf()), store).0
        && commands == old(commands) + Reconcile(old(LiveOf()), store).1
    {
      PushPayload(Select(id), failed);
    }

    /** `action_load(url)`: loads into the record `last` marks active, by its
        own id (a new-tab record keeps its record id here); nothing happens
        when `last` has no tab. */
    method ActionLoad(url: Field, failed: bool)
      requires Valid()
      modifies this`store, this`log, this`last, this`coreTabs, this`coreOrder, this`lastActive, this`commands
      ensures Valid()
      ensures old(last).tabs == [] ==>
        store == old(store) && log == old(log) && last == old(last)
        && LiveOf() == old(LiveOf()) && commands == old(commands)
      ensures old(last).tabs != [] ==>
        log == old(log) + if failed then [] else [PayloadOp(Load(old(last).tabs[old(last).active].tabId, url))]
      ensures old(last).tabs != [] && failed ==>
        store == old(store) && last == old(last) && LiveOf() == old(LiveOf()) && commands == old(commands)
      ensures old(last).tabs != [] && !failed ==>
        store == Step(old(store), PayloadOp(Load(old(last).tabs[old(last).active].tabId, url))) && last == store
        && LiveOf() == Reconcile(old(LiveOf()), store).0
        && commands == old(commands) + Reconcile(old(LiveOf()), store).1
    {
      if |last.tabs| > 0 {
        var id := last.tabs[last.active].tabId;
        PushPayload(Load(id, url), failed);
      }
    }

    /** `action_back` and `action_forward` (offset -1 and 1). */
    method ActionBackOrForward(offset: int)
      requires Valid() && (offset == -1 || offset == 1)
      modifies this`commands
      ensures commands == old(commands) + if last.tabs == [] then [] else [TabsBackOrForward(ActiveTarget(last), offset)]
    {
      if |last.tabs| > 0 {
        var id := if last.tabs[last.active].kind == NewTabType then NewTabSentinel else last.tabs[last.active].tabId;
        commands := commands + [TabsBackOrForward(id, offset)];
      }
    }

    /** `action_reload`. */
    method ActionReload()
      requires Valid()
      modifies this`commands
      ensures commands == old(commands) + if last.tabs == [] then [] else [TabsReload(ActiveTarget(last))]
    {
      if |last.tabs| > 0 {
        var id := if last.tabs[last.active].kind == NewTabType then NewTabSentinel else last.tabs[last.active].tabId;
        commands := commands + [TabsReload(id)];
      }
    }

    // -------------------------------------------------------------------------
    // core event handlers
    // -------------------------------------------------------------------------

    /** `core_state_handler(state)`: `incoming` lists the keys of the
        notification with their states, in key order. Returns the `state`
        payloads the handler pushes; their store round trips complete after the
        handler returns, each through `PushPayload`. */
    method CoreStateHandler(incoming: seq<(string, TabState)>) returns (pushed: seq<Payload>)
      requires Valid()
      modifies this`coreTabs, this`coreOrder, this`newTabState, this`commands
      ensures Valid()
      ensures var r := Ingest(old(BooksOf()), last, incoming, |incoming|);
        BooksOf() == r.0 && commands == old(commands) + r.1 && pushed == r.2
    {
      pushed := IngestAll(incoming);
    }

    /** The loop of `core_state_handler` over the keys of a notification. */
    method IngestAll(incoming: seq<(string, TabState)>) returns (pushed: seq<Payload>)
      requires Tracked(LiveOf())
      modifies this`coreTabs, this`coreOrder, this`newTabState, this`commands
      ensures Tracked(LiveOf())
      ensures var r := Ingest(old(BooksOf()), last, incoming, |incoming|);
        BooksOf() == r.0 && commands == old(commands) + r.1 && pushed == r.2
    {
      pushed := [];
      var i := 0;
      while i < |incoming|
        invariant 0 <= i <= |incoming|
        invariant var r := Ingest(old(BooksOf()), last, incoming, i);
          BooksOf() == r.0 && commands == old(commands) + r.1 && pushed == r.2
        invariant Tracked(LiveOf())
      {
        var (id, st) := incoming[i];
        RecordState(id, st);
        var observed := ObservedChange(id, st);
        pushed := pushed + observed;
        i := i + 1;
      }
    }

    /** One key of a state notification: the new-tab page's state is kept
        aside; any other tab gets a `core_tabs` entry (created, with its
        context menu registered, or refreshed). */
    method RecordState(id: string, st: TabState)
      requires Tracked(LiveOf())
      modifies this`coreTabs, this`coreOrder, this`newTabState, this`commands
      ensures Tracked(LiveOf())
      ensures var r := IngestStep(old(BooksOf()), last, id, st);
        BooksOf() == r.0 && commands == old(commands) + r.1
    {
      IngestStepBooks(BooksOf(), last, id, st);
      if id == NewTabSentinel {
        newTabState := Some(st);
      } else if id !in coreTabs {
        coreTabs := coreTabs[id := CoreTab(st, 0)];
        coreOrder := coreOrder + [id];
        commands := commands + [SetContextMenuBuilder(id)];
      } else {
        coreTabs := coreTabs[id := coreTabs[id].(state := st)];
      }
    }

    /** The `state` payload pushed for a tab whose observed url or title
        differs from the last record with its id. */
    method ObservedChange(id: string, st: TabState) returns (observed: seq<Payload>)
      ensures observed == IngestStep(BooksOf(), last, id, st).2
    {
      IngestStepPushes(BooksOf(), last, id, st);
      observed := [];
      if id != NewTabSentinel {
        var k := FindLast(last.tabs, id);
        if k >= 0 {
          var url := UrlForState(st);
          var title := TitleForState(st);
          if last.tabs[k].url != url || last.tabs[k].title != title {
            observed := [StateUpdate(id, title, url)];
          }
        }
      }
    }

    /** `core_tabs_created_handler(evt)`: a tab the user opened from a page is
        recorded with the disposition the core reports and a `null` url. */
    method CoreTabsCreatedHandler(id: string, disposition: Disposition, failed: bool)
      requires Valid() && id !in IdBag(store)
      modifies this`store, this`log, this`last, this`coreTabs, this`coreOrder, this`lastActive, this`commands
      ensures Valid()
      ensures log == old(log) + if failed then [] else [PayloadOp(New(disposition, id, Null))]
      ensures failed ==>
        store == old(store) && last == old(last) && LiveOf() == old(LiveOf()) && commands == old(commands)
      ensures !failed ==>
        store == Step(old(store), PayloadOp(New(disposition, id, Null))) && last == store
        && LiveOf() == Reconcile(old(LiveOf()), store).0
        && commands == old(commands) + Reconcile(old(LiveOf()), store).1
    {
      PushPayload(New(disposition, id, Null), failed);
    }

    /** `core_context_menu_handler(evt)`: only items of this module's menu are
        handled. "Inspect Element" reads the stored menu point; without one the
        source throws before any request is sent. */
    method CoreContextMenuHandler(src: string, id: string, item: string)
      modifies this`commands
      ensures commands == old(commands) + MenuCommands(src, id, item, menuPoint)
    {
      if src == "mod_layout" {
        if item == "Close DevTools" {
          commands := commands + [DevtoolsClosed];
        } else if item == "Inspect Element" {
          if menuPoint.Some? {
            commands := commands + [TabsDevtools(id, menuPoint.value)];
          }
        } else if item == "Reload" {
          commands := commands + [TabsReload(id)];
        } else if item == "Back" {
          commands := commands + [TabsBackOrForward(id, -1)];
        } else if item == "Forward" {
          commands := commands + [TabsBackOrForward(id, 1)];
        }
      }
    }

    /** `exposed_context_menu_builder(src, args)`: remembers the menu point and
        answers the items for the tab `id`. */
    method ContextMenuBuilder(id: string, point: Option<Point>) returns (items: seq<Field>)
      modifies this`menuPoint
      ensures menuPoint == point
      ensures items == ContextMenuItems(MenuSourceFor(id, newTabState, coreTabs))
    {
      menuPoint := point;
      var source := MenuSource.Unknown;
      if id == NewTabSentinel {
        source := NewTabPage(newTabState);
      } else if id in coreTabs {
        source := CoreEntry(coreTabs[id]);
      }
      items := ContextMenuItems(source);
    }

    /** `state()`: the records of `last`, each with the live state the core
        reported for it, and the active index. */
    method State() returns (view: View)
      ensures view.active == last.active && |view.tabs| == |last.tabs|
      ensures forall i | 0 <= i < |last.tabs| ::
        view.tabs[i].record == last.tabs[i]
        && (view.tabs[i].state.Some? <==> last.tabs[i].tabId in coreTabs)
        && (view.tabs[i].state.Some? ==> view.tabs[i].state.value == coreTabs[last.tabs[i].tabId].state)
    {
      var tabs := [];
      var i := 0;
      while i < |last.tabs|
        invariant 0 <= i <= |last.tabs|
        invariant |tabs| == i
        invariant forall j | 0 <= j < i :: tabs[j] == Attach(coreTabs, last.tabs[j])
      {
        var t := last.tabs[i];
        if t.tabId in coreTabs {
          tabs := tabs + [TabView(t, Some(coreTabs[t.tabId].state))];
        } else {
          tabs := tabs + [TabView(t, None)];
        }
        i := i + 1;
      }
      view := View(tabs, last.active);
    }
  }

  /** The loop of `core_state_handler` that finds the record for a tab: the
      last record with the id wins. */
  method FindLast(tabs: seq<TabRecord>, id: string) returns (k: int)
    ensures k == LastIndexOf(tabs, id)
  {
    k := -1;
    var i := 0;
    while i < |tabs|
      invariant 0 <= i <= |tabs|
      invariant k == LastIndexOf(tabs[..i], id)
    {
      assert tabs[..i + 1][..i] == tabs[..i];
      if tabs[i].tabId == id {
        k := i;
      }
      i := i + 1;
    }
    assert tabs[..i] == tabs;
  }

  /** The requests `core_context_menu_handler` sends for a menu item. */
  function MenuCommands(src: string, id: string, item: string, point: Option<Point>): (cmds: seq<Command>)
    ensures |cmds| <= 1
    ensures src != "mod_layout" ==> cmds == []
  {
    if src != "mod_layout" then []
    else if item == "Close DevTools" then [DevtoolsClosed]
    else if item == "Inspect Element" then (if point.Some? then [TabsDevtools(id, point.value)] else [])
    else if item == "Reload" then [TabsReload(id)]
    else if item == "Back" then [TabsBackOrForward(id, -1)]
    else if item == "Forward" then [TabsBackOrForward(id, 1)]
    else []
  }

  /** The texts the builder can offer. */
  lemma OfferedTexts(src: MenuSource, item: string)
    requires Text(item) in ContextMenuItems(src)
    ensures item == "Back" || item == "Forward" || item == "Reload" || item == "Inspect Element" || item == "Close DevTools"
  {
    match src
    case NewTabPage(Some(st)) => NavigationTexts(st.canGoBack, st.canGoForward);
    case CoreEntry(e) => NavigationTexts(e.state.canGoBack, e.state.canGoForward);
    case _ =>
  }

  /** The items of a menu with navigation: Back, Forward and the fixed ones. */
  lemma NavigationTexts(back: bool, forward: bool)
    ensures forall x | x in WithNavigation(back, forward) ::
      x == Text("Back") || x == Text("Forward") || x == Text("Reload") || x == Null
      || x == Text("Inspect Element") || x == Text("Close DevTools")
  {
    var withForward := if forward then [Text("Forward")] + BaseItems else BaseItems;
    assert WithNavigation(back, forward) == if back then [Text("Back")] + withForward else withForward;
  }

  /** Every item the builder offers is answered by the handler: each yields a
      single request, for the tab the menu was opened on (or the devtools
      close), except "Inspect Element" while no menu point is stored. */
  lemma OfferedItemsHandled(src: MenuSource, id: string, item: string, point: Option<Point>)
    requires Text(item) in ContextMenuItems(src)
    ensures var cmds := MenuCommands("mod_layout", id, item, point);
      |cmds| <= 1
      && (cmds == [] <==> item == "Inspect Element" && point.None?)
      && forall c | c in cmds ::
           c == DevtoolsClosed || c == TabsReload(id) || c == TabsBackOrForward(id, -1)
           || c == TabsBackOrForward(id, 1) || (point.Some? && c == TabsDevtools(id, point.value))
  {
    OfferedTexts(src, item);
    assert |"Back"| == 4 && |"Forward"| == 7 && |"Reload"| == 6;
    assert |"Inspect Element"| == 15 && |"Close DevTools"| == 14;
  }
}
