/**
 * The address box (lib/box.js): the per-tab record the box shows (what the
 * user is typing, the page's url, title and ssl state), kept in step with the
 * browser core's `tabs:state` notifications, and the turning of what the user
 * submits into a URL to load.
 *
 * The clock, the `escape` function and the sockets are not modelled: the
 * times are parameters, `escape` is a function parameter, and every payload
 * the box pushes to its sockets, and every URL it asks the core to load, is
 * appended to a log.
 */
module Box {
  import opened JsValues
  import opened CoreState

  /** The box's record of one tab (`my.state[id]`). The url is kept as its
      `href`. */
  datatype BoxEntry = BoxEntry(input: Field, lastUpdate: int, url: Field, title: Field, ssl: Field)

  /** The payload `socket_push` sends: `{}`, the visible tab's record, or
      `undefined` when the visible id has no record. */
  datatype Update = EmptyObject | Missing | Shown(entry: BoxEntry)

  /** The page a new tab shows; the box displays nothing for it. */
  const DefaultPage := "breach://default"

  const SearchPrefix := "https://www.google.com/search?q="
  const SearchSuffix := "&ie=UTF-8"

  /* ------------------------------------------------------------------ */
  /* What the user submits, and the URL it becomes                       */
  /* ------------------------------------------------------------------ */

  predicate LowerAlnum(c: char) {
    'a' <= c <= 'z' || '0' <= c <= '9'
  }

  /** The character class `[a-z0-9\-\.]`. */
  predicate HostChar(c: char) {
    LowerAlnum(c) || c == '-' || c == '.'
  }

  predicate Digit(c: char) {
    '0' <= c <= '9'
  }

  /** `^https?://`. */
  predicate HasHttpScheme(s: string) {
    StartsWith(s, "http://") || StartsWith(s, "https://")
  }

  /** `[a-z0-9\-\.]+(\.[a-z0-9]{2,4})+` matches at the start of `s`. Since the
      pattern is not anchored at its end, this holds exactly when a run of
      host characters is followed by a dot and two alphanumerics. */
  predicate DomainAt(s: string) {
    |s| >= 1 && HostChar(s[0]) && DomainFrom(s, 1)
  }

  /** Given that `s[..i]` is a run of host characters, some dot at `i` or
      later ends that run and is followed by two alphanumerics. */
  predicate DomainFrom(s: string, i: nat)
    decreases |s| - i
  {
    i + 3 <= |s|
    && ((s[i] == '.' && LowerAlnum(s[i + 1]) && LowerAlnum(s[i + 2])) || (HostChar(s[i]) && DomainFrom(s, i + 1)))
  }

  /** `n` digits start at index `i`. */
  predicate DigitsAt(s: string, i: int, n: int) {
    0 <= i && i + n <= |s| && forall k | i <= k < i + n :: Digit(s[k])
  }

  /** `(\.[0-9]{1,3}){groups}` matches at index `i`. */
  predicate DottedGroupsAt(s: string, i: int, groups: nat)
    decreases groups
  {
    groups == 0
    || (0 <= i < |s| && s[i] == '.'
        && ((DigitsAt(s, i + 1, 1) && DottedGroupsAt(s, i + 2, groups - 1))
            || (DigitsAt(s, i + 1, 2) && DottedGroupsAt(s, i + 3, groups - 1))
            || (DigitsAt(s, i + 1, 3) && DottedGroupsAt(s, i + 4, groups - 1))))
  }

  /** `[0-9]{1,3}(\.[0-9]{1,3}){3}` matches at the start of `s`. */
  predicate IpAt(s: string) {
    (DigitsAt(s, 0, 1) && DottedGroupsAt(s, 1, 3))
    || (DigitsAt(s, 0, 2) && DottedGroupsAt(s, 2, 3))
    || (DigitsAt(s, 0, 3) && DottedGroupsAt(s, 3, 3))
  }

  /** The patterns that allow an optional `http://` or `https://` in front. */
  predicate DomainLike(s: string) {
    DomainAt(s) || (StartsWith(s, "http://") && DomainAt(s[7..])) || (StartsWith(s, "https://") && DomainAt(s[8..]))
  }

  predicate IpLike(s: string) {
    IpAt(s) || (StartsWith(s, "http://") && IpAt(s[7..])) || (StartsWith(s, "https://") && IpAt(s[8..]))
  }

  /** `localhost+` is `localhos` followed by at least one `t`. */
  predicate LocalhostLike(s: string) {
    StartsWith(s, "localhost") || (StartsWith(s, "http://") && StartsWith(s[7..], "localhost"))
    || (StartsWith(s, "https://") && StartsWith(s[8..], "localhost"))
  }

  /** `^https?://[a-z0-9\-\.]+`. */
  predicate SchemeHostLike(s: string) {
    (StartsWith(s, "http://") && |s| > 7 && HostChar(s[7])) || (StartsWith(s, "https://") && |s| > 8 && HostChar(s[8]))
  }

  /** The input names a host: one of the four host patterns matches. */
  predicate LooksLikeHost(s: string)
    ensures LooksLikeHost(s) ==> HasHttpScheme(s) || (|s| > 0 && HostChar(s[0]))
  {
    DomainLike(s) || IpLike(s) || LocalhostLike(s) || SchemeHostLike(s)
  }

  function SearchUrl(input: string, escape: string -> string): string {
    SearchPrefix + escape(input) + SearchSuffix
  }

  /** The URL `socket_submit` loads for what the user typed. */
  function SubmitUrl(input: string, escape: string -> string): (url: string)
    ensures HasHttpScheme(url) || StartsWith(url, "file://") || StartsWith(url, "breach://")
  {
    if LooksLikeHost(input) then
      if HasHttpScheme(input) then input
      else
        assert ("http://" + input)[..7] == "http://";
        "http://" + input
    else if StartsWith(input, "file://") then input
    else if StartsWith(input, "breach://") then input
    else
      assert SearchUrl(input, escape)[..8] == "https://";
      SearchUrl(input, escape)
  }

  /** A string whose first dot comes after a character that is not a host
      character (a `:` for instance) does not match the domain pattern. */
  lemma NoHostBefore(s: string, j: int)
    requires 0 <= j < |s| && !HostChar(s[j]) && forall k | 0 <= k < j :: s[k] != '.'
    ensures !DomainAt(s)
  {
    if j > 0 {
      NoDomainFrom(s, 1, j);
    }
  }

  lemma {:induction false} NoDomainFrom(s: string, i: nat, j: int)
    requires i <= j < |s| && !HostChar(s[j]) && forall k | 0 <= k < j :: s[k] != '.'
    ensures !DomainFrom(s, i)
    decreases j - i
  {
    if i < j {
      NoDomainFrom(s, i + 1, j);
    }
  }

  /** `file://` and `breach://` inputs are loaded as typed. */
  lemma SubmitPassesLocalSchemes(input: string, escape: string -> string)
    requires StartsWith(input, "file://") || StartsWith(input, "breach://")
    ensures SubmitUrl(input, escape) == input
  {
    if StartsWith(input, "file://") {
      assert input[..7] == "file://";
      assert input[0] == 'f' && input[1] == 'i' && input[2] == 'l' && input[3] == 'e' && input[4] == ':';
      NoHostBefore(input, 4);
    } else {
      assert input[..9] == "breach://";
      assert input[0] == 'b' && input[1] == 'r' && input[2] == 'e' && input[3] == 'a' && input[4] == 'c';
      assert input[5] == 'h' && input[6] == ':';
      NoHostBefore(input, 6);
    }
    assert !IpAt(input) && !StartsWith(input, "localhost") && !HasHttpScheme(input);
  }

  /** A bare domain such as `example.com/path` is loaded over `http://`. */
  lemma SubmitPrefixesDomains(input: string, escape: string -> string)
    requires DomainAt(input) && !HasHttpScheme(input)
    ensures SubmitUrl(input, escape) == "http://" + input
  {
  }

  /** Input with no dot and no colon that does not start with `localhost`
      (words, a phrase) is searched for. */
  lemma SubmitSearchesWords(input: string, escape: string -> string)
    requires forall k | 0 <= k < |input| :: input[k] != '.' && input[k] != ':'
    requires !StartsWith(input, "localhost")
    ensures SubmitUrl(input, escape) == SearchPrefix + escape(input) + SearchSuffix
  {
    if |input| >= 1 {
      NoDotNoDomain(input, 1);
    }
    if |input| >= 7 {
      assert input[4] != "http://"[4] && input[4] != "file://"[4] && input[5] != "https://"[5];
    }
    if |input| >= 9 {
      assert input[6] != "breach://"[6];
    }
  }

  lemma {:induction false} NoDotNoDomain(s: string, i: nat)
    requires forall k | 0 <= k < |s| :: s[k] != '.'
    ensures !DomainFrom(s, i)
    decreases |s| - i
  {
    if i + 3 <= |s| {
      NoDotNoDomain(s, i + 1);
    }
  }

  /** Submitting the URL the box loaded loads that same URL again. */
  lemma SubmitIdempotent(input: string, escape: string -> string)
    ensures SubmitUrl(SubmitUrl(input, escape), escape) == SubmitUrl(input, escape)
  {
    if LooksLikeHost(input) && !HasHttpScheme(input) {
      PrefixedHostStaysHost(input);
    } else if !LooksLikeHost(input) && !StartsWith(input, "file://") && !StartsWith(input, "breach://") {
      SearchUrlIsHost(input, escape);
    }
  }

  /** Prefixing `http://` keeps a host-like input host-like. */
  lemma PrefixedHostStaysHost(input: string)
    requires LooksLikeHost(input) && !HasHttpScheme(input)
    ensures LooksLikeHost("http://" + input) && HasHttpScheme("http://" + input)
  {
    var url := "http://" + input;
    assert url[7..] == input;
    assert url[..7] == "http://";
    if DomainAt(input) {
      assert DomainLike(url);
    } else if IpAt(input) {
      assert IpLike(url);
    } else {
      assert StartsWith(input, "localhost");
      assert LocalhostLike(url);
    }
  }

  /** A search URL matches `^https?://[a-z0-9\-\.]+`. */
  lemma SearchUrlIsHost(input: string, escape: string -> string)
    ensures LooksLikeHost(SearchUrl(input, escape)) && HasHttpScheme(SearchUrl(input, escape))
  {
    var url := SearchUrl(input, escape);
    assert url[..8] == "https://" && url[8] == 'w';
    assert SchemeHostLike(url);
  }

  /* ------------------------------------------------------------------ */
  /* The per-tab records                                                 */
  /* ------------------------------------------------------------------ */

  /** The key `my.state[my.visible]` looks up: a `null` visible id is the
      string "null" as a property name. */
  function VisibleKey(visible: Option<string>): (key: string)
    ensures visible.Some? ==> key == visible.value
  {
    if visible.Some? then visible.value else "null"
  }

  /** The payload `socket_push` sends: `{}` unless the visible id is a
      non-empty string, and then that tab's record. */
  function PushPayload(state: map<string, BoxEntry>, visible: Option<string>): (u: Update)
    ensures u.EmptyObject? <==> visible.None? || visible.value == ""
    ensures u.Shown? <==> visible.Some? && visible.value != "" && visible.value in state
    ensures u.Shown? ==> u.entry == state[visible.value]
  {
    if visible.None? || visible.value == "" then EmptyObject
    else if visible.value in state then Shown(state[visible.value])
    else Missing
  }

  /** A visible navigation entry shows its page in the record, except the
      default page, which blanks url, title and ssl. */
  function ShowEntry(b: BoxEntry, e: Entry): BoxEntry {
    if !e.visible then b
    else if e.href != DefaultPage then b.(url := Text(e.href), title := e.title, ssl := e.ssl)
    else b.(url := Null, title := Null, ssl := Null)
  }

  function ShowEntries(b: BoxEntry, entries: seq<Entry>): BoxEntry {
    if entries == [] then b else ShowEntry(ShowEntries(b, entries[..|entries| - 1]), entries[|entries| - 1])
  }

  /** The record shows the last visible entry: its page, or nothing for the
      default page; with no visible entry it is left as it was. */
  lemma {:induction false} ShowEntriesLastVisible(b: BoxEntry, entries: seq<Entry>)
    ensures var r := ShowEntries(b, entries); var k := LastVisibleAt(entries);
      r.input == b.input && r.lastUpdate == b.lastUpdate
      && (k < 0 ==> r == b)
      && (k >= 0 && entries[k].href != DefaultPage ==>
            r.url == Text(entries[k].href) && r.title == entries[k].title && r.ssl == entries[k].ssl)
      && (k >= 0 && entries[k].href == DefaultPage ==> r.url == Null && r.title == Null && r.ssl == Null)
  {
    if entries != [] {
      var n := |entries| - 1;
      ShowEntriesLastVisible(b, entries[..n]);
      if !entries[n].visible {
        var k := LastVisibleAt(entries[..n]);
        assert k >= 0 ==> entries[..n][k] == entries[k];
      }
    }
  }

  /** The record at the start of one tab's update: the existing one (or `{}`),
      with a missing `input` set to null and the update time set. */
  function Opened(prev: Option<BoxEntry>, stamp: int): BoxEntry {
    var b := if prev.Some? then prev.value else BoxEntry(Absent, stamp, Absent, Absent, Absent);
    b.(input := if b.input == Absent then Null else b.input, lastUpdate := stamp)
  }

  function Lookup(m: map<string, BoxEntry>, id: string): Option<BoxEntry> {
    if id in m then Some(m[id]) else None
  }

  /** The records after the first `n` tabs of a notification, each stamped
      with the time read while it was handled. */
  function Absorb(m: map<string, BoxEntry>, incoming: seq<(string, TabState)>, stamps: seq<int>, n: nat): map<string, BoxEntry>
    requires n <= |incoming| == |stamps|
  {
    if n == 0 then m
    else
      var before := Absorb(m, incoming, stamps, n - 1);
      var id := incoming[n - 1].0;
      before[id := ShowEntries(Opened(Lookup(before, id), stamps[n - 1]), incoming[n - 1].1.entries)]
  }

  /** Every record the handler creates has its typed input set: null for a
      new record, the earlier input otherwise. */
  lemma {:induction false} AbsorbSetsInput(m: map<string, BoxEntry>, incoming: seq<(string, TabState)>, stamps: seq<int>, n: nat)
    requires n <= |incoming| == |stamps|
    ensures var r := Absorb(m, incoming, stamps, n); forall id | id in r :: id in m || r[id].input != Absent
  {
    if n > 0 {
      AbsorbSetsInput(m, incoming, stamps, n - 1);
      var before := Absorb(m, incoming, stamps, n - 1);
      var id := incoming[n - 1].0;
      ShowEntriesLastVisible(Opened(Lookup(before, id), stamps[n - 1]), incoming[n - 1].1.entries);
    }
  }

  /** The records not updated since `now` are dropped. */
  function Prune(m: map<string, BoxEntry>, now: int): (r: map<string, BoxEntry>)
    ensures forall id :: id in r <==> id in m && m[id].lastUpdate >= now
    ensures forall id | id in r :: r[id] == m[id]
  {
    map id | id in m && m[id].lastUpdate >= now :: m[id]
  }

  /** The visible id after the first `n` tabs: the last of them that is
      visible, or the previous one when none is. */
  function VisibleAfter(visible: Option<string>, incoming: seq<(string, TabState)>, n: nat): (r: Option<string>)
    requires n <= |incoming|
    ensures (forall j | 0 <= j < n :: !incoming[j].1.visible) ==> r == visible
    ensures r != visible ==>
      exists j | 0 <= j < n ::
        incoming[j].1.visible && r == Some(incoming[j].0) && forall k | j < k < n :: !incoming[k].1.visible
  {
    if n == 0 then visible
    else if incoming[n - 1].1.visible then Some(incoming[n - 1].0)
    else VisibleAfter(visible, incoming, n - 1)
  }

  /** Tab ids of a notification are distinct (they are an object's keys). */
  predicate DistinctIds(incoming: seq<(string, TabState)>) {
    forall i, j | 0 <= i < j < |incoming| :: incoming[i].0 != incoming[j].0
  }

  /** A tab of the notification ends with the record built from its own
      state and its previous record. */
  lemma {:induction false} AbsorbEntry(m: map<string, BoxEntry>, incoming: seq<(string, TabState)>, stamps: seq<int>, n: nat, j: nat)
    requires n <= |incoming| == |stamps| && DistinctIds(incoming) && j < n
    ensures incoming[j].0 in Absorb(m, incoming, stamps, n)
    ensures Absorb(m, incoming, stamps, n)[incoming[j].0]
      == ShowEntries(Opened(Lookup(m, incoming[j].0), stamps[j]), incoming[j].1.entries)
  {
    if j < n - 1 {
      AbsorbEntry(m, incoming, stamps, n - 1, j);
    } else {
      AbsorbOthers(m, incoming, stamps, n - 1, incoming[j].0);
    }
  }

  /** A tab missing from the notification keeps its record (or its absence). */
  lemma {:induction false} AbsorbOthers(m: map<string, BoxEntry>, incoming: seq<(string, TabState)>, stamps: seq<int>, n: nat, id: string)
    requires n <= |incoming| == |stamps|
    requires forall j | 0 <= j < n :: incoming[j].0 != id
    ensures Lookup(Absorb(m, incoming, stamps, n), id) == Lookup(m, id)
  {
    if n > 0 {
      AbsorbOthers(m, incoming, stamps, n - 1, id);
    }
  }

  /** The records `core_state_handler` leaves. */
  function Handled(m: map<string, BoxEntry>, incoming: seq<(string, TabState)>, stamps: seq<int>, now: int): (r: map<string, BoxEntry>)
    requires |incoming| == |stamps|
    ensures forall id | id in r :: r[id].lastUpdate >= now && (id in m || r[id].input != Absent)
  {
    AbsorbSetsInput(m, incoming, stamps, |incoming|);
    Prune(Absorb(m, incoming, stamps, |incoming|), now)
  }

  /** With a clock that moves forward between notifications, the records
      are exactly those of the tabs in the latest notification. */
  lemma HandledKeepsReportedTabs(m: map<string, BoxEntry>, incoming: seq<(string, TabState)>, stamps: seq<int>, now: int)
    requires |incoming| == |stamps| && DistinctIds(incoming)
    requires forall id | id in m :: m[id].lastUpdate < now
    requires forall j | 0 <= j < |stamps| :: stamps[j] >= now
    ensures Handled(m, incoming, stamps, now).Keys == set j | 0 <= j < |incoming| :: incoming[j].0
  {
    var r := Handled(m, incoming, stamps, now);
    var a := Absorb(m, incoming, stamps, |incoming|);
    forall id
      ensures id in r <==> exists j | 0 <= j < |incoming| :: incoming[j].0 == id
    {
      if j :| 0 <= j < |incoming| && incoming[j].0 == id {
        AbsorbEntry(m, incoming, stamps, |incoming|, j);
        ShowEntriesLastVisible(Opened(Lookup(m, id), stamps[j]), incoming[j].1.entries);
      } else {
        AbsorbOthers(m, incoming, stamps, |incoming|, id);
      }
    }
  }

  /** What a reported tab's record holds after `core_state_handler`: its
      previous input (null for a new record or one with none), the time it
      was handled, and the page of its last visible entry, blank for the
      default page. */
  lemma HandledRecord(m: map<string, BoxEntry>, incoming: seq<(string, TabState)>, stamps: seq<int>, now: int, j: nat)
    requires |incoming| == |stamps| && DistinctIds(incoming) && j < |incoming| && stamps[j] >= now
    ensures var r := Handled(m, incoming, stamps, now); var id := incoming[j].0;
      var entries := incoming[j].1.entries; var k := LastVisibleAt(entries);
      id in r
      && r[id].input == (if id in m && m[id].input != Absent then m[id].input else Null)
      && r[id].lastUpdate == stamps[j]
      && (k >= 0 && entries[k].href != DefaultPage ==>
            r[id].url == Text(entries[k].href) && r[id].title == entries[k].title && r[id].ssl == entries[k].ssl)
      && (k >= 0 && entries[k].href == DefaultPage ==> r[id].url == Null && r[id].title == Null && r[id].ssl == Null)
  {
    var id := incoming[j].0;
    AbsorbEntry(m, incoming, stamps, |incoming|, j);
    ShowEntriesLastVisible(Opened(Lookup(m, id), stamps[j]), incoming[j].1.entries);
  }

  /** One tab's turn in `core_state_handler`: open its record and show each
      visible navigation entry in it. */
  method Refresh(prev: Option<BoxEntry>, tab: TabState, stamp: int) returns (entry: BoxEntry)
    ensures entry == ShowEntries(Opened(prev, stamp), tab.entries)
  {
    entry := Opened(prev, stamp);
    var j := 0;
    while j < |tab.entries|
      invariant 0 <= j <= |tab.entries|
      invariant entry == ShowEntries(Opened(prev, stamp), tab.entries[..j])
    {
      var e := tab.entries[j];
      if e.visible {
        if e.href != DefaultPage {
          entry := entry.(url := Text(e.href), title := e.title, ssl := e.ssl);
        } else {
          entry := entry.(url := Null, title := Null, ssl := Null);
        }
      }
      assert tab.entries[..j + 1][..j] == tab.entries[..j];
      j := j + 1;
    }
    assert tab.entries[..j] == tab.entries;
  }

  /** The record of the visible tab after the user submits `url`. */
  function Submitted(e: BoxEntry, url: string): BoxEntry {
    e.(input := Null, url := Text(url), title := Null, ssl := Null)
  }

  /* ------------------------------------------------------------------ */
  /* The module                                                          */
  /* ------------------------------------------------------------------ */

  class BoxModule {
    /** `my.state`: the record of each tab, by id. */
    var state: map<string, BoxEntry>
    /** `my.visible`: the id of the visible tab, null at start. */
    var visible: Option<string>
    /** Every payload pushed to the box's sockets, in order. */
    var pushed: seq<Update>
    /** Every URL the box asked the core to load, in order. */
    var loaded: seq<string>

    constructor()
      ensures state == map[] && visible == None && pushed == [] && loaded == []
    {
      state := map[];
      visible := None;
      pushed := [];
      loaded := [];
    }

    /** `socket_push`. */
    method Push()
      modifies this`pushed
      ensures pushed == old(pushed) + [PushPayload(state, visible)]
    {
      var update := EmptyObject;
      if visible.Some? && visible.value != "" {
        update := if visible.value in state then Shown(state[visible.value]) else Missing;
      }
      pushed := pushed + [update];
    }

    /** `core_state_handler`: `now` is the time read at its start and
        `stamps[j]` the time read while handling the `j`-th tab. */
    method CoreStateHandler(incoming: seq<(string, TabState)>, now: int, stamps: seq<int>)
      requires |stamps| == |incoming|
      modifies this`state, this`visible, this`pushed
      ensures state == Handled(old(state), incoming, stamps, now)
      ensures visible == VisibleAfter(old(visible), incoming, |incoming|)
      ensures pushed == old(pushed) + [PushPayload(state, visible)]
    {
      AbsorbAll(incoming, stamps);
      DropStale(now);
      Push();
    }

    /** The loop of `core_state_handler` over the tabs of a notification. */
    method AbsorbAll(incoming: seq<(string, TabState)>, stamps: seq<int>)
      requires |stamps| == |incoming|
      modifies this`state, this`visible
      ensures state == Absorb(old(state), incoming, stamps, |incoming|)
      ensures visible == VisibleAfter(old(visible), incoming, |incoming|)
    {
      var i := 0;
      while i < |incoming|
        invariant 0 <= i <= |incoming|
        invariant state == Absorb(old(state), incoming, stamps, i)
        invariant visible == VisibleAfter(old(visible), incoming, i)
      {
        var id := incoming[i].0;
        if incoming[i].1.visible {
          visible := Some(id);
        }
        var entry := Refresh(Lookup(state, id), incoming[i].1, stamps[i]);
        state := state[id := entry];
        i := i + 1;
      }
    }

    /** The deletion loop of `core_state_handler`. */
    method DropStale(now: int)
      modifies this`state
      ensures state == Prune(old(state), now)
    {
      var pending := state.Keys;
      while pending != {}
        invariant pending <= old(state).Keys
        invariant state == map id | id in old(state) && (id in pending || old(state)[id].lastUpdate >= now) :: old(state)[id]
        decreases |pending|
      {
        var id :| id in pending;
        if state[id].lastUpdate < now {
          state := map k | k in state && k != id :: state[k];
        }
        pending := pending - {id};
      }
    }

    /** `socket_submit`: load the URL for `input`, and show it in the
        visible tab's record, if there is one, with the typed input, title
        and ssl cleared. */
    method Submit(input: string, escape: string -> string)
      modifies this`state, this`loaded, this`pushed
      ensures loaded == old(loaded) + [SubmitUrl(input, escape)]
      ensures var key := VisibleKey(visible);
        state == if key in old(state) then old(state)[key := Submitted(old(state)[key], SubmitUrl(input, escape))] else old(state)
      ensures forall id | id != VisibleKey(visible) :: Lookup(state, id) == Lookup(old(state), id)
      ensures pushed == old(pushed) + [PushPayload(state, visible)]
    {
      var url: string;
      if LooksLikeHost(input) {
        url := input;
        if !HasHttpScheme(input) {
          url := "http://" + input;
        }
      } else if StartsWith(input, "file://") {
        url := input;
      } else if StartsWith(input, "breach://") {
        url := input;
      } else {
        url := SearchPrefix + escape(input) + SearchSuffix;
      }
      loaded := loaded + [url];
      var key := VisibleKey(visible);
      if key in state {
        state := state[key := state[key].(input := Null, url := Text(url), title := Null, ssl := Null)];
      }
      Push();
    }

    /** `socket_input`: record what the user is typing in the visible tab's
        record, if there is one. */
    method Input(value: Field)
      modifies this`state, this`pushed
      ensures var key := VisibleKey(visible);
        state == if key in old(state) then old(state)[key := old(state)[key].(input := value)] else old(state)
      ensures forall id | id != VisibleKey(visible) :: Lookup(state, id) == Lookup(old(state), id)
      ensures pushed == old(pushed) + [PushPayload(state, visible)]
    {
      var key := VisibleKey(visible);
      if key in state {
        state := state[key := state[key].(input := value)];
      }
      Push();
    }
  }
}
