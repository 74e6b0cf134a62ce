/**
 * The tabs reducer of lib/tabs.js: a deterministic fold over the operation
 * log kept by the core store. It starts from `{active: -1, tabs: [], recover: []}`;
 * an operation carrying a `value` replaces the whole state, and an operation
 * carrying a `payload` edits the ordered tab list, the active index and the
 * bounded stack of recently closed tabs.
 */
module TabsReducer {
  import opened JsValues

  /** `new_tab` marks the placeholder of a tab that has not navigated yet. */
  datatype TabType = NewTabType | Regular

  /** A tab record of the reduced value. A missing `load` counts as 0, which is
      how both the reducer (`t.load || 0`) and the reconciliation (`last_load < t.load`)
      read it. */
  datatype TabRecord = TabRecord(kind: TabType, tabId: string, url: Field, title: Field, load: nat)

  datatype SessionState = SessionState(active: int, tabs: seq<TabRecord>, recover: seq<TabRecord>)

  /** The value the reducer starts from, and the value a `null` snapshot resets to. */
  const Initial := SessionState(-1, [], [])

  /** Most closed tabs the recover stack keeps. */
  const RecoverCap := 10

  datatype Disposition = NewTabDisposition | ForegroundDisposition | BackgroundDisposition | OtherDisposition

  datatype Payload =
    | New(disposition: Disposition, tabId: string, url: Field)
    | Select(tabId: string)
    | Commit
    | Close(target: Field, nextTabId: string)
    | Recover
    | StateUpdate(tabId: string, title: Field, url: Field)
    | Load(tabId: string, url: Field)
    | OtherType

  /** An operation of the log: a snapshot (`value`, possibly `null`), a payload,
      or an operation with neither, which the reducer skips. */
  datatype Op = ValueOp(value: Option<SessionState>) | PayloadOp(payload: Payload) | BareOp

  /** The active-index invariant: `active` is -1 exactly when there is no tab,
      and otherwise indexes a tab. */
  predicate Wf(s: SessionState) {
    if s.tabs == [] then s.active == -1 else 0 <= s.active < |s.tabs|
  }

  /** At most one tab carries the id `id`. Tab ids are generated to be unique;
      closing by id is only well defined under this (see `SpliceMatches`). */
  predicate AtMostOne(tabs: seq<TabRecord>, id: string) {
    forall i, j :: 0 <= i < j < |tabs| && tabs[i].tabId == id ==> tabs[j].tabId != id
  }

  /** What an operation needs of the state it is applied to: a snapshot is a
      well-formed state (it is a value the reducer produced), and a close by id
      names at most one tab. */
  predicate Admissible(s: SessionState, op: Op) {
    match op
    case ValueOp(v) => v.Some? ==> Wf(v.value)
    case PayloadOp(p) => p.Close? && p.target.Truthy() ==> AtMostOne(s.tabs, p.target.s)
    case BareOp => true
  }

  function NewTabRecord(id: string): TabRecord {
    TabRecord(NewTabType, id, Absent, Absent, 0)
  }

  function RegularRecord(id: string, url: Field): TabRecord {
    TabRecord(Regular, id, url, Absent, 1)
  }

  /** Index of the last tab with the given id (the last write of the source's
      `forEach` wins), or -1. */
  function LastIndexOf(tabs: seq<TabRecord>, id: string): (k: int)
    ensures -1 <= k < |tabs|
    ensures k >= 0 ==> tabs[k].tabId == id
    ensures forall j :: k < j < |tabs| ==> tabs[j].tabId != id
  {
    if tabs == [] then -1
    else if tabs[|tabs| - 1].tabId == id then |tabs| - 1
    else LastIndexOf(tabs[..|tabs| - 1], id)
  }

  /** The recover stack after a push: while it holds more than ten entries the
      oldest (front) one is shifted out. */
  function Capped(r: seq<TabRecord>): seq<TabRecord> {
    if |r| > RecoverCap then r[|r| - RecoverCap..] else r
  }

  /** Removing every tab with the given id from inside a `forEach` that visits
      indices of the live, shrinking array: after a removal at `i` the next
      visited index is `i + 1`, so the element that slid into `i` is skipped.
      Returns the remaining tabs and the last removed record. */
  function SpliceMatches(tabs: seq<TabRecord>, id: string, i: nat, c: Option<TabRecord>): (r: (seq<TabRecord>, Option<TabRecord>))
    ensures |r.0| <= |tabs|
    ensures r.1 == c || (r.1.Some? && r.1.value.tabId == id)
    ensures |r.0| < |tabs| ==> r.1.Some? && r.1.value.tabId == id
    decreases |tabs| - i
  {
    if i >= |tabs| then (tabs, c)
    else if tabs[i].tabId == id then
      SpliceMatches(tabs[..i] + tabs[i + 1..], id, i + 1, Some(tabs[i]))
    else SpliceMatches(tabs, id, i + 1, c)
  }

  function ApplyNew(s: SessionState, d: Disposition, id: string, url: Field): SessionState {
    match d
    case NewTabDisposition => s.(tabs := [NewTabRecord(id)] + s.tabs, active := 0)
    case ForegroundDisposition => s.(tabs := [RegularRecord(id, url)] + s.tabs, active := 0)
    case BackgroundDisposition =>
      var k := if |s.tabs| < 1 then |s.tabs| else 1;
      s.(tabs := s.tabs[..k] + [RegularRecord(id, url)] + s.tabs[k..],
         active := if s.active == -1 then 0 else s.active)
    case OtherDisposition => s
  }

  function ApplySelect(s: SessionState, id: string): SessionState {
    var k := LastIndexOf(s.tabs, id);
    if k >= 0 then s.(active := k) else s
  }

  function ApplyCommit(s: SessionState): SessionState
    requires Wf(s)
  {
    if |s.tabs| > 0 then
      s.(tabs := [s.tabs[s.active]] + (s.tabs[..s.active] + s.tabs[s.active + 1..]), active := 0)
    else s
  }

  function ApplyClose(s: SessionState, target: Field, nextTabId: string): (r: SessionState)
    requires Wf(s)
    ensures |r.tabs| <= |s.tabs|
    ensures s.tabs != [] ==> r.tabs != []
    ensures |s.recover| <= RecoverCap ==> |r.recover| <= RecoverCap
    ensures s.tabs == [] ==> r == s
  {
    if |s.tabs| == 0 then s
    else
      var (tabs, c) :=
        if target.Truthy() then SpliceMatches(s.tabs, target.s, 0, None)
        else (s.tabs[..s.active] + s.tabs[s.active + 1..], Some(s.tabs[s.active]));
      var recover := if c.Some? then Capped(s.recover + [c.value]) else s.recover;
      var active := if s.active == |tabs| then s.active - 1 else s.active;
      if |tabs| == 0 then SessionState(0, [NewTabRecord(nextTabId)], recover)
      else SessionState(active, tabs, recover)
  }

  /** `recover` with an empty stack falls through into the `state` case with a
      payload that has no `tab_id`; no record id (always a string) is equal to
      it, so the fall-through changes nothing. */
  function ApplyRecover(s: SessionState): SessionState {
    if |s.recover| > 0 then
      s.(tabs := [s.recover[|s.recover| - 1]] + s.tabs, recover := s.recover[..|s.recover| - 1], active := 0)
    else s
  }

  function UpdateRecord(t: TabRecord, id: string, title: Field, url: Field): TabRecord {
    if t.tabId == id && t.kind != NewTabType then t.(title := title, url := url) else t
  }

  function LoadRecord(t: TabRecord, id: string, url: Field): TabRecord {
    if t.tabId == id then t.(url := url, kind := Regular, load := t.load + 1) else t
  }

  function ApplyState(s: SessionState, id: string, title: Field, url: Field): SessionState {
    s.(tabs := seq(|s.tabs|, i requires 0 <= i < |s.tabs| => UpdateRecord(s.tabs[i], id, title, url)))
  }

  function ApplyLoad(s: SessionState, id: string, url: Field): SessionState {
    s.(tabs := seq(|s.tabs|, i requires 0 <= i < |s.tabs| => LoadRecord(s.tabs[i], id, url)))
  }

  /** One step of the fold. */
  function Step(s: SessionState, op: Op): (r: SessionState)
    requires Wf(s) && Admissible(s, op)
    ensures Wf(r)
    ensures op.PayloadOp? && s.tabs != [] ==> r.tabs != []
    ensures op.PayloadOp? && |s.recover| <= RecoverCap ==> |r.recover| <= RecoverCap
  {
    match op
    case ValueOp(v) => if v.Some? then v.value else Initial
    case BareOp => s
    case PayloadOp(p) =>
      match p
      case New(d, id, url) => ApplyNew(s, d, id, url)
      case Select(id) => ApplySelect(s, id)
      case Commit => ApplyCommit(s)
      case Close(target, next) => CloseKeepsInvariant(s, target, next); ApplyClose(s, target, next)
      case Recover => ApplyRecover(s)
      case StateUpdate(id, title, url) => ApplyState(s, id, title, url)
      case Load(id, url) => ApplyLoad(s, id, url)
      case OtherType => s
  }

  /** Splicing when no tab from index `i` on has the id changes nothing. */
  lemma {:induction false} SpliceNoMatch(tabs: seq<TabRecord>, id: string, i: nat, c: Option<TabRecord>)
    requires forall j :: i <= j < |tabs| ==> tabs[j].tabId != id
    ensures SpliceMatches(tabs, id, i, c) == (tabs, c)
    decreases |tabs| - i
  {
    if i < |tabs| {
      SpliceNoMatch(tabs, id, i + 1, c);
    }
  }

  /** Splicing when exactly the tab at `k` (from index `i` on) has the id
      removes that tab and reports it. */
  lemma {:induction false} SpliceOneMatch(tabs: seq<TabRecord>, id: string, i: nat, c: Option<TabRecord>, k: nat)
    requires i <= k < |tabs| && tabs[k].tabId == id
    requires forall j :: i <= j < |tabs| && j != k ==> tabs[j].tabId != id
    ensures SpliceMatches(tabs, id, i, c) == (tabs[..k] + tabs[k + 1..], Some(tabs[k]))
    decreases |tabs| - i
  {
    if i < k {
      SpliceOneMatch(tabs, id, i + 1, c, k);
    } else {
      var rest := tabs[..k] + tabs[k + 1..];
      forall j | k + 1 <= j < |rest| ensures rest[j].tabId != id {
        assert rest[j] == tabs[j + 1];
      }
      SpliceNoMatch(rest, id, k + 1, Some(tabs[k]));
    }
  }

  /** With at most one tab carrying the id, the source's splice-inside-forEach
      removes exactly the tab `LastIndexOf` finds, or nothing. */
  lemma CloseByIdRemovesMatch(tabs: seq<TabRecord>, id: string)
    requires AtMostOne(tabs, id)
    ensures var k := LastIndexOf(tabs, id);
      SpliceMatches(tabs, id, 0, None) ==
        if k >= 0 then (tabs[..k] + tabs[k + 1..], Some(tabs[k])) else (tabs, None)
  {
    var k := LastIndexOf(tabs, id);
    if k >= 0 {
      SpliceOneMatch(tabs, id, 0, None, k);
    } else {
      SpliceNoMatch(tabs, id, 0, None);
    }
  }

  /** Index of the tab a close removes: the tab with the given id (or none,
      -1), else the active tab. */
  function ClosedIndex(s: SessionState, target: Field): int {
    if target.Truthy() then LastIndexOf(s.tabs, target.s) else s.active
  }

  /** What a close does, stated with the removed index. */
  lemma CloseEffect(s: SessionState, target: Field, next: string)
    requires Wf(s) && s.tabs != []
    requires target.Truthy() ==> AtMostOne(s.tabs, target.s)
    ensures var k := ClosedIndex(s, target);
      var r := ApplyClose(s, target, next);
      var tabs := if k >= 0 then s.tabs[..k] + s.tabs[k + 1..] else s.tabs;
      -1 <= k < |s.tabs|
      && r.recover == (if k >= 0 then Capped(s.recover + [s.tabs[k]]) else s.recover)
      && (tabs == [] ==> r.tabs == [NewTabRecord(next)] && r.active == 0)
      && (tabs != [] ==> r.tabs == tabs && r.active == if s.active == |tabs| then s.active - 1 else s.active)
  {
    var k := ClosedIndex(s, target);
    var spliced :=
      if target.Truthy() then SpliceMatches(s.tabs, target.s, 0, None)
      else (s.tabs[..s.active] + s.tabs[s.active + 1..], Some(s.tabs[s.active]));
    if target.Truthy() {
      CloseByIdRemovesMatch(s.tabs, target.s);
    }
    assert spliced == if k >= 0 then (s.tabs[..k] + s.tabs[k + 1..], Some(s.tabs[k])) else (s.tabs, None);
  }

  /** The active-index invariant and the recover bound survive a close. */
  lemma CloseKeepsInvariant(s: SessionState, target: Field, next: string)
    requires Wf(s)
    requires target.Truthy() ==> AtMostOne(s.tabs, target.s)
    ensures Wf(ApplyClose(s, target, next))
    ensures s.tabs != [] ==> ApplyClose(s, target, next).tabs != []
    ensures |s.recover| <= RecoverCap ==> |ApplyClose(s, target, next).recover| <= RecoverCap
  {
    if s.tabs != [] {
      CloseEffect(s, target, next);
    }
  }

  /** The reduction of `log` from state `s`, as a left fold. */
  function ReduceFrom(s: SessionState, log: seq<Op>): (r: SessionState)
    requires Wf(s) && AdmissibleLog(s, log)
    ensures Wf(r)
    decreases |log|, 1
  {
    if log == [] then s
    else Step(ReduceFrom(s, log[..|log| - 1]), log[|log| - 1])
  }

  /** Every operation of `log` is admissible in the state it is applied to. */
  predicate AdmissibleLog(s: SessionState, log: seq<Op>)
    requires Wf(s)
    decreases |log|, 0
  {
    log == [] ||
    (AdmissibleLog(s, log[..|log| - 1]) && Admissible(ReduceFrom(s, log[..|log| - 1]), log[|log| - 1]))
  }

  /** `tabs_reducer(oplog)`. */
  function Reduce(log: seq<Op>): (r: SessionState)
    requires AdmissibleLog(Initial, log)
    ensures Wf(r)
  {
    ReduceFrom(Initial, log)
  }

  /** A prefix of an admissible log is admissible. */
  lemma {:induction false} AdmissiblePrefix(s: SessionState, log: seq<Op>, k: nat)
    requires Wf(s) && AdmissibleLog(s, log) && k <= |log|
    ensures AdmissibleLog(s, log[..k])
    decreases |log| - k
  {
    if k < |log| {
      var init := log[..|log| - 1];
      AdmissiblePrefix(s, init, k);
      assert init[..k] == log[..k];
    } else {
      assert log[..k] == log;
    }
  }

  /** The loop of `tabs_reducer`: start from the initial value and apply each
      operation of the log in turn. */
  method ReduceLog(log: seq<Op>) returns (value: SessionState)
    requires AdmissibleLog(Initial, log)
    ensures Wf(value)
    ensures value == Reduce(log)
  {
    value := Initial;
    var i := 0;
    while i < |log|
      invariant 0 <= i <= |log|
      invariant AdmissibleLog(Initial, log[..i])
      invariant value == ReduceFrom(Initial, log[..i])
    {
      AdmissiblePrefix(Initial, log, i + 1);
      assert log[..i + 1][..i] == log[..i];
      value := Step(value, log[i]);
      i := i + 1;
    }
    assert log[..i] == log;
  }
}
