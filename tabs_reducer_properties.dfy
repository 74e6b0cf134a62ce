/**
 * What the tabs reducer guarantees: the fold composes over a split log, a
 * snapshot forgets everything before it, the active-index invariant holds,
 * and each payload operation changes exactly what it is meant to change.
 */
module TabsReducerProperties {
  import opened JsValues
  import opened TabsReducer

  /** The tab `active` points at. */
  function ActiveTab(s: SessionState): TabRecord
    requires Wf(s) && s.tabs != []
  {
    s.tabs[s.active]
  }

  function Ids(tabs: seq<TabRecord>): seq<string> {
    seq(|tabs|, i requires 0 <= i < |tabs| => tabs[i].tabId)
  }

  /** The state a snapshot operation installs. */
  function SnapshotValue(v: Option<SessionState>): SessionState {
    if v.Some? then v.value else Initial
  }

  // ---------------------------------------------------------------------------
  // The fold
  // ---------------------------------------------------------------------------

  /** Reducing a log equals reducing a prefix and then stepping the result
      through the rest; the rest is admissible after the prefix exactly when the
      whole log is. */
  lemma {:induction false} FoldAppend(s: SessionState, a: seq<Op>, b: seq<Op>)
    requires Wf(s) && AdmissibleLog(s, a)
    ensures AdmissibleLog(s, a + b) <==> AdmissibleLog(ReduceFrom(s, a), b)
    ensures AdmissibleLog(s, a + b) ==> ReduceFrom(s, a + b) == ReduceFrom(ReduceFrom(s, a), b)
    decreases |b|
  {
    if b == [] {
      assert a + b == a;
    } else {
      var b' := b[..|b| - 1];
      assert (a + b)[..|a + b| - 1] == a + b';
      assert (a + b)[|a + b| - 1] == b[|b| - 1];
      FoldAppend(s, a, b');
    }
  }

  /** Once a snapshot is in the log, nothing before it matters: the result is
      the snapshot (or the initial value for a `null` snapshot) stepped through
      the operations after it. */
  lemma SnapshotForgetsPrefix(log: seq<Op>, i: nat)
    requires AdmissibleLog(Initial, log)
    requires i < |log| && log[i].ValueOp?
    ensures log[i].value.Some? ==> Wf(log[i].value.value)
    ensures AdmissibleLog(SnapshotValue(log[i].value), log[i + 1..])
    ensures Reduce(log) == ReduceFrom(SnapshotValue(log[i].value), log[i + 1..])
  {
    var a, b := log[..i + 1], log[i + 1..];
    assert a + b == log;
    AdmissiblePrefix(Initial, log, i + 1);
    assert a[..|a| - 1] == log[..i];
    FoldAppend(Initial, a, b);
  }

  /** Starting from a state that has tabs, payload operations never leave the
      tab list empty. */
  lemma {:induction false} PayloadsKeepTabs(s: SessionState, log: seq<Op>)
    requires Wf(s) && AdmissibleLog(s, log) && s.tabs != []
    requires forall i :: 0 <= i < |log| ==> log[i].PayloadOp?
    ensures ReduceFrom(s, log).tabs != []
    decreases |log|
  {
    if log != [] {
      PayloadsKeepTabs(s, log[..|log| - 1]);
    }
  }

  /** Payload operations never grow the recover stack past ten entries. */
  lemma {:induction false} PayloadsBoundRecover(s: SessionState, log: seq<Op>)
    requires Wf(s) && AdmissibleLog(s, log) && |s.recover| <= RecoverCap
    requires forall i :: 0 <= i < |log| ==> log[i].PayloadOp?
    ensures |ReduceFrom(s, log).recover| <= RecoverCap
    decreases |log|
  {
    if log != [] {
      PayloadsBoundRecover(s, log[..|log| - 1]);
    }
  }

  // ---------------------------------------------------------------------------
  // new
  // ---------------------------------------------------------------------------

  /** `new_tab` and `new_foreground_tab` put the new record in front and make
      it the active tab; `new_tab` creates a placeholder without url, the other
      a regular record with `load = 1`. */
  lemma NewForeground(s: SessionState, d: Disposition, id: string, url: Field)
    requires Wf(s) && (d.NewTabDisposition? || d.ForegroundDisposition?)
    ensures var r := Step(s, PayloadOp(New(d, id, url)));
      r.tabs != [] && r.tabs[1..] == s.tabs && r.recover == s.recover
      && ActiveTab(r).tabId == id && r.active == 0
      && (d.NewTabDisposition? ==> ActiveTab(r).kind == NewTabType && ActiveTab(r).url == Absent)
      && (d.ForegroundDisposition? ==> ActiveTab(r).kind == Regular && ActiveTab(r).url == url && ActiveTab(r).load == 1)
  {
  }

  /** `new_background_tab` inserts a regular record after the first tab (or as
      the only one), keeps every other record, and changes `active` only when
      there was no tab; with the first tab active, the active tab stays the same. */
  lemma NewBackground(s: SessionState, id: string, url: Field)
    requires Wf(s)
    ensures var r := Step(s, PayloadOp(New(BackgroundDisposition, id, url)));
      var k := if s.tabs == [] then 0 else 1;
      |r.tabs| == |s.tabs| + 1
      && r.tabs[k] == RegularRecord(id, url)
      && r.tabs[..k] + r.tabs[k + 1..] == s.tabs
      && multiset(r.tabs) == multiset(s.tabs) + multiset{RegularRecord(id, url)}
      && r.active == (if s.active == -1 then 0 else s.active)
      && (s.active == 0 ==> ActiveTab(r) == ActiveTab(s))
      && r.recover == s.recover
  {
    var r := Step(s, PayloadOp(New(BackgroundDisposition, id, url)));
    var k := if s.tabs == [] then 0 else 1;
    assert r.tabs == s.tabs[..k] + [RegularRecord(id, url)] + s.tabs[k..];
    assert r.tabs[..k] == s.tabs[..k];
    assert r.tabs[k + 1..] == s.tabs[k..];
    assert s.tabs == s.tabs[..k] + s.tabs[k..];
  }

  // ---------------------------------------------------------------------------
  // select and commit
  // ---------------------------------------------------------------------------

  /** `select` makes a tab with the given id active (the last one if several
      match) and does nothing when no tab matches; it never reorders tabs. */
  lemma SelectActivates(s: SessionState, id: string)
    requires Wf(s)
    ensures var r := Step(s, PayloadOp(Select(id)));
      r.tabs == s.tabs && r.recover == s.recover
      && ((exists i :: 0 <= i < |s.tabs| && s.tabs[i].tabId == id) ==> r.tabs != [] && ActiveTab(r).tabId == id)
      && ((forall i :: 0 <= i < |s.tabs| ==> s.tabs[i].tabId != id) ==> r == s)
  {
  }

  /** With unique ids, `select` activates exactly the tab with that id. */
  lemma SelectUnique(s: SessionState, id: string, i: nat)
    requires Wf(s) && i < |s.tabs| && s.tabs[i].tabId == id && AtMostOne(s.tabs, id)
    ensures Step(s, PayloadOp(Select(id))).active == i
  {
  }

  /** `commit` moves the active tab to the front and keeps it active; the other
      tabs keep their relative order, so the multiset of records is unchanged. */
  lemma CommitMovesActiveToFront(s: SessionState)
    requires Wf(s) && s.tabs != []
    ensures var r := Step(s, PayloadOp(Commit));
      r.active == 0 && ActiveTab(r) == ActiveTab(s)
      && r.tabs[1..] == s.tabs[..s.active] + s.tabs[s.active + 1..]
      && multiset(r.tabs) == multiset(s.tabs)
      && r.recover == s.recover
  {
    var r := Step(s, PayloadOp(Commit));
    assert s.tabs == s.tabs[..s.active] + [s.tabs[s.active]] + s.tabs[s.active + 1..];
    assert r.tabs == [s.tabs[s.active]] + (s.tabs[..s.active] + s.tabs[s.active + 1..]);
  }

  /** Committing twice is committing once. */
  lemma CommitIdempotent(s: SessionState)
    requires Wf(s)
    ensures Step(Step(s, PayloadOp(Commit)), PayloadOp(Commit)) == Step(s, PayloadOp(Commit))
  {
    var r := Step(s, PayloadOp(Commit));
    if s.tabs != [] {
      assert r.tabs[..0] + r.tabs[1..] == r.tabs[1..];
      assert [r.tabs[0]] + r.tabs[1..] == r.tabs;
    }
  }

  // ---------------------------------------------------------------------------
  // close
  // ---------------------------------------------------------------------------

  /** Closing on an empty tab list changes nothing. */
  lemma CloseOnEmpty(s: SessionState, target: Field, next: string)
    requires Wf(s) && s.tabs == []
    ensures Step(s, PayloadOp(Close(target, next))) == s
  {
  }

  /** Closing an id no tab carries removes nothing and pushes nothing. */
  lemma CloseUnknownId(s: SessionState, id: string, next: string)
    requires Wf(s) && id != ""
    requires forall i :: 0 <= i < |s.tabs| ==> s.tabs[i].tabId != id
    ensures Step(s, PayloadOp(Close(Text(id), next))) == s
  {
    if s.tabs != [] {
      SpliceNoMatch(s.tabs, id, 0, None);
    }
  }

  /** Closing a tab that is there removes exactly that record, pushes it on top
      of the recover stack, and moves `active` back only when it pointed one
      past the new end. */
  lemma CloseRemoves(s: SessionState, target: Field, next: string)
    requires Wf(s) && |s.tabs| >= 2
    requires target.Truthy() ==> AtMostOne(s.tabs, target.s)
    requires ClosedIndex(s, target) >= 0
    ensures var k := ClosedIndex(s, target);
      var r := Step(s, PayloadOp(Close(target, next)));
      k < |s.tabs|
      && r.tabs == s.tabs[..k] + s.tabs[k + 1..]
      && r.recover == Capped(s.recover + [s.tabs[k]])
      && |r.recover| > 0 && r.recover[|r.recover| - 1] == s.tabs[k]
      && (r.active == s.active - 1 <==> s.active == |s.tabs| - 1)
      && (r.active != s.active - 1 ==> r.active == s.active)
  {
    CloseEffect(s, target, next);
  }

  /** Closing the only tab leaves exactly one placeholder, made with
      `next_tab_id`, and makes it active. */
  lemma CloseLastTab(s: SessionState, target: Field, next: string)
    requires Wf(s) && |s.tabs| == 1
    requires target.Truthy() ==> s.tabs[0].tabId == target.s
    ensures var r := Step(s, PayloadOp(Close(target, next)));
      r.tabs == [NewTabRecord(next)] && r.active == 0
      && r.recover == Capped(s.recover + [s.tabs[0]])
  {
    CloseEffect(s, target, next);
  }

  /** The adjustment of `active` on close only looks at the new length: closing
      a tab before the active one, when the active one is not last, hands the
      selection to the tab that followed the active one. */
  lemma CloseBeforeActive(s: SessionState, id: string, next: string, k: nat)
    requires Wf(s) && k < s.active < |s.tabs| - 1
    requires id != "" && s.tabs[k].tabId == id && AtMostOne(s.tabs, id)
    ensures var r := Step(s, PayloadOp(Close(Text(id), next)));
      r.active == s.active && ActiveTab(r) == s.tabs[s.active + 1]
  {
    CloseByIdRemovesMatch(s.tabs, id);
    CloseEffect(s, Text(id), next);
  }

  /** The recover stack keeps the ten most recent entries, evicting the oldest
      first, and never holds more than ten. */
  lemma CappedKeepsNewest(r: seq<TabRecord>, c: TabRecord)
    ensures |Capped(r + [c])| <= RecoverCap
    ensures Capped(r + [c])[|Capped(r + [c])| - 1] == c
    ensures |r| < RecoverCap ==> Capped(r + [c]) == r + [c]
    ensures |r| == RecoverCap ==> Capped(r + [c]) == r[1..] + [c]
  {
    if |r| == RecoverCap {
      assert (r + [c])[1..] == r[1..] + [c];
    }
  }

  // ---------------------------------------------------------------------------
  // recover
  // ---------------------------------------------------------------------------

  /** `recover` puts the most recently closed record in front and activates it;
      with an empty stack it changes nothing. */
  lemma RecoverPops(s: SessionState)
    requires Wf(s)
    ensures var r := Step(s, PayloadOp(Recover));
      (s.recover == [] ==> r == s)
      && (s.recover != [] ==>
            r.tabs == [s.recover[|s.recover| - 1]] + s.tabs && r.active == 0
            && r.recover + [ActiveTab(r)] == s.recover)
  {
    if s.recover != [] {
      var r := Step(s, PayloadOp(Recover));
      assert s.recover == s.recover[..|s.recover| - 1] + [s.recover[|s.recover| - 1]];
    }
  }

  /** Closing the active tab and recovering it is the same as committing it,
      as long as another tab remains and the stack was not full. */
  lemma CloseThenRecoverIsCommit(s: SessionState, next: string)
    requires Wf(s) && |s.tabs| >= 2 && |s.recover| < RecoverCap
    ensures Step(Step(s, PayloadOp(Close(Absent, next))), PayloadOp(Recover)) == Step(s, PayloadOp(Commit))
  {
    CloseEffect(s, Absent, next);
    var c := Step(s, PayloadOp(Close(Absent, next)));
    CappedKeepsNewest(s.recover, s.tabs[s.active]);
    assert c.recover == s.recover + [s.tabs[s.active]];
    assert c.recover[..|c.recover| - 1] == s.recover;
  }

  // ---------------------------------------------------------------------------
  // state and load
  // ---------------------------------------------------------------------------

  /** `state` sets title and url on the tabs with that id that are not
      placeholders, and touches nothing else: not the order, not `active`, not
      the recover stack, not the kind or load counter of any tab. */
  lemma StateUpdatesMatches(s: SessionState, id: string, title: Field, url: Field)
    requires Wf(s)
    ensures var r := Step(s, PayloadOp(StateUpdate(id, title, url)));
      r.active == s.active && r.recover == s.recover && |r.tabs| == |s.tabs|
      && Ids(r.tabs) == Ids(s.tabs)
      && (forall i :: 0 <= i < |s.tabs| ==>
            r.tabs[i].kind == s.tabs[i].kind && r.tabs[i].load == s.tabs[i].load
            && (s.tabs[i].tabId == id && s.tabs[i].kind == Regular ==> r.tabs[i].title == title && r.tabs[i].url == url)
            && (s.tabs[i].tabId != id || s.tabs[i].kind == NewTabType ==> r.tabs[i] == s.tabs[i]))
  {
  }

  /** `load` sets the url of the tabs with that id, makes them regular (a
      placeholder stops being one once it navigates) and bumps their load
      counter; nothing else changes. */
  lemma LoadUpdatesMatches(s: SessionState, id: string, url: Field)
    requires Wf(s)
    ensures var r := Step(s, PayloadOp(Load(id, url)));
      r.active == s.active && r.recover == s.recover && |r.tabs| == |s.tabs|
      && Ids(r.tabs) == Ids(s.tabs)
      && (forall i :: 0 <= i < |s.tabs| ==>
            (s.tabs[i].tabId == id ==>
               r.tabs[i].kind == Regular && r.tabs[i].url == url
               && r.tabs[i].load == s.tabs[i].load + 1 && r.tabs[i].title == s.tabs[i].title)
            && (s.tabs[i].tabId != id ==> r.tabs[i] == s.tabs[i]))
  {
  }

  // ---------------------------------------------------------------------------
  // unique tab ids
  // ---------------------------------------------------------------------------

  /** The ids of the open and the recoverable tabs, with multiplicity. */
  function IdBag(s: SessionState): multiset<string> {
    multiset(Ids(s.tabs)) + multiset(Ids(s.recover))
  }

  /** Every id occurs at most once among the open and the recoverable tabs. */
  predicate UniqueIds(s: SessionState) {
    forall x | x in IdBag(s) :: IdBag(s)[x] <= 1
  }

  /** The ids a payload introduces are new: the id of a created tab and the id
      reserved for the placeholder a close may synthesise. */
  predicate FreshFor(s: SessionState, p: Payload) {
    match p
    case New(_, id, _) => id !in IdBag(s)
    case Close(_, next) => next !in IdBag(s)
    case _ => true
  }

  lemma IdsConcat(a: seq<TabRecord>, b: seq<TabRecord>)
    ensures Ids(a + b) == Ids(a) + Ids(b)
  {
  }

  lemma CountTwice(xs: seq<string>, i: nat, j: nat)
    requires i < j < |xs| && xs[i] == xs[j]
    ensures multiset(xs)[xs[i]] >= 2
  {
    assert xs == xs[..j] + xs[j..];
    assert xs[..j][i] == xs[i];
    assert xs[j..][0] == xs[i];
  }

  lemma UniqueCount(s: SessionState, x: string)
    requires UniqueIds(s)
    ensures IdBag(s)[x] <= 1
  {
    if x in IdBag(s) {
    }
  }

  /** Unique ids make every close by id admissible. */
  lemma UniqueIdsAtMostOne(s: SessionState, id: string)
    requires UniqueIds(s)
    ensures AtMostOne(s.tabs, id)
  {
    UniqueCount(s, id);
    forall i, j | 0 <= i < j < |s.tabs| && s.tabs[i].tabId == id
      ensures s.tabs[j].tabId != id
    {
      if s.tabs[j].tabId == id {
        var xs := Ids(s.tabs);
        assert xs[i] == id && xs[j] == id;
        CountTwice(xs, i, j);
        assert false;
      }
    }
  }

  lemma NewIdBag(s: SessionState, d: Disposition, id: string, url: Field)
    ensures IdBag(ApplyNew(s, d, id, url)) <= IdBag(s) + multiset{id}
  {
    var r := ApplyNew(s, d, id, url);
    match d
    case NewTabDisposition =>
      IdsConcat([NewTabRecord(id)], s.tabs);
    case ForegroundDisposition =>
      IdsConcat([RegularRecord(id, url)], s.tabs);
    case BackgroundDisposition =>
      var k := if |s.tabs| < 1 then |s.tabs| else 1;
      InsertIds(s.tabs, k, RegularRecord(id, url));
    case OtherDisposition =>
  }

  /** Inserting a record adds its id to the ids of a list. */
  lemma InsertIds(tabs: seq<TabRecord>, k: nat, t: TabRecord)
    requires k <= |tabs|
    ensures multiset(Ids(tabs[..k] + [t] + tabs[k..])) == multiset(Ids(tabs)) + multiset{t.tabId}
  {
    assert tabs == tabs[..k] + tabs[k..];
    IdsConcat(tabs[..k], tabs[k..]);
    IdsConcat(tabs[..k], [t]);
    IdsConcat(tabs[..k] + [t], tabs[k..]);
  }

  lemma CommitIdBag(s: SessionState)
    requires Wf(s)
    ensures IdBag(ApplyCommit(s)) == IdBag(s)
  {
    if s.tabs != [] {
      var pre, a, post := s.tabs[..s.active], s.tabs[s.active], s.tabs[s.active + 1..];
      assert s.tabs == pre + [a] + post;
      IdsConcat(pre, [a]);
      IdsConcat(pre + [a], post);
      IdsConcat(pre, post);
      IdsConcat([a], pre + post);
    }
  }

  /** The tabs left after removing index `k`, together with the recover stack
      after pushing the removed tab, hold no id that was not there before. */
  lemma RemoveIdBag(tabs: seq<TabRecord>, recover: seq<TabRecord>, k: nat)
    requires k < |tabs|
    ensures multiset(Ids(tabs[..k] + tabs[k + 1..])) + multiset(Ids(Capped(recover + [tabs[k]])))
         <= multiset(Ids(tabs)) + multiset(Ids(recover))
  {
    var pre, c, post := tabs[..k], tabs[k], tabs[k + 1..];
    assert tabs == pre + [c] + post;
    assert Ids([c]) == [c.tabId];
    IdsConcat(pre, [c]);
    IdsConcat(pre + [c], post);
    IdsConcat(pre, post);
    assert multiset(Ids(tabs)) == multiset(Ids(pre)) + multiset{c.tabId} + multiset(Ids(post));
    var pushed := recover + [c];
    IdsConcat(recover, [c]);
    assert multiset(Ids(pushed)) == multiset(Ids(recover)) + multiset{c.tabId};
    var cut := |pushed| - |Capped(pushed)|;
    assert pushed == pushed[..cut] + Capped(pushed);
    IdsConcat(pushed[..cut], Capped(pushed));
    assert multiset(Ids(Capped(pushed))) <= multiset(Ids(pushed));
  }

  lemma CloseIdBag(s: SessionState, target: Field, next: string)
    requires Wf(s)
    requires target.Truthy() ==> AtMostOne(s.tabs, target.s)
    ensures IdBag(ApplyClose(s, target, next)) <= IdBag(s) + multiset{next}
  {
    if s.tabs != [] {
      CloseEffect(s, target, next);
      var k := ClosedIndex(s, target);
      if k >= 0 {
        RemovalIdBag(s, ApplyClose(s, target, next), k, next);
      }
    }
  }

  /** A state whose tabs are those of `s` without index `k` (or the
      placeholder named `next` when none remain), and whose recover stack has
      the removed tab pushed, holds no id besides those of `s` and `next`. */
  lemma RemovalIdBag(s: SessionState, r: SessionState, k: nat, next: string)
    requires k < |s.tabs|
    requires r.recover == Capped(s.recover + [s.tabs[k]])
    requires var tabs := s.tabs[..k] + s.tabs[k + 1..];
      r.tabs == if tabs == [] then [NewTabRecord(next)] else tabs
    ensures IdBag(r) <= IdBag(s) + multiset{next}
  {
    var tabs := s.tabs[..k] + s.tabs[k + 1..];
    RemoveIdBag(s.tabs, s.recover, k);
    assert multiset(Ids(tabs)) + multiset(Ids(r.recover)) <= IdBag(s);
    if tabs == [] {
      assert Ids(r.tabs) == [next];
    }
  }

  lemma RecoverIdBag(s: SessionState)
    ensures IdBag(ApplyRecover(s)) == IdBag(s)
  {
    if s.recover != [] {
      var n := |s.recover|;
      var last := s.recover[n - 1];
      assert s.recover == s.recover[..n - 1] + [last];
      IdsConcat(s.recover[..n - 1], [last]);
      IdsConcat([last], s.tabs);
    }
  }

  /** The ids after a payload, measured against the ids before it: nothing is
      duplicated, and the only id that can be new is the one the payload
      introduces. */
  lemma StepIdBag(s: SessionState, p: Payload)
    requires Wf(s) && UniqueIds(s)
    ensures Admissible(s, PayloadOp(p))
    ensures var after := IdBag(Step(s, PayloadOp(p)));
      match p
      case New(_, id, _) => after <= IdBag(s) + multiset{id}
      case Close(_, next) => after <= IdBag(s) + multiset{next}
      case _ => after <= IdBag(s)
  {
    if p.Close? && p.target.Truthy() {
      UniqueIdsAtMostOne(s, p.target.s);
    }
    var r := Step(s, PayloadOp(p));
    match p
    case New(d, id, url) => NewIdBag(s, d, id, url);
    case Select(_) =>
    case Commit => CommitIdBag(s);
    case Close(target, next) => CloseIdBag(s, target, next);
    case Recover => RecoverIdBag(s);
    case StateUpdate(id, title, url) => assert Ids(r.tabs) == Ids(s.tabs);
    case Load(id, url) => assert Ids(r.tabs) == Ids(s.tabs);
    case OtherType =>
  }

  /** Ids stay unique through any payload whose new ids are fresh. */
  lemma StepKeepsUniqueIds(s: SessionState, p: Payload)
    requires Wf(s) && UniqueIds(s) && FreshFor(s, p)
    ensures Admissible(s, PayloadOp(p))
    ensures UniqueIds(Step(s, PayloadOp(p)))
  {
    StepIdBag(s, p);
    var after := IdBag(Step(s, PayloadOp(p)));
    forall x | x in after ensures after[x] <= 1 {
      if p.New? || p.Close? {
        var id := if p.New? then p.tabId else p.nextTabId;
        assert after[x] <= (IdBag(s) + multiset{id})[x];
      } else {
        assert after[x] <= IdBag(s)[x];
      }
    }
  }
}
