/**
 * The per-tab state that the browser core reports in its `tabs:state`
 * notification. Both the tab bookkeeping (lib/tabs.js) and the address box
 * (lib/box.js) read it.
 */
module CoreState {
  import opened JsValues

  /** One navigation entry of a tab's history (`url.href`, `title`, `ssl`). */
  datatype Entry = Entry(visible: bool, href: string, title: Field, ssl: Field)

  /** The state of one live tab: whether it is shown, its navigation entries,
      and whether it can go back or forward. */
  datatype TabState = TabState(visible: bool, entries: seq<Entry>, canGoBack: bool, canGoForward: bool)

  /** Index of the last visible entry, or -1 when no entry is visible. Every
      loop of the source over `entries` overwrites its result at each visible
      entry, so it is the last visible entry that counts. */
  function LastVisibleAt(entries: seq<Entry>): (k: int)
    ensures -1 <= k < |entries|
    ensures k >= 0 ==> entries[k].visible
    ensures forall j :: k < j < |entries| ==> !entries[j].visible
  {
    if entries == [] then -1
    else if entries[|entries| - 1].visible then |entries| - 1
    else LastVisibleAt(entries[..|entries| - 1])
  }
}
