/**
 * lib/keyboard_shortcuts.js: the handler that turns raw keyboard events from
 * the browser core into shortcut events.
 *
 * The source is one chain of `if` statements. Each of them is a rule: an event
 * type, a required modifier mask (or none), a set of key codes, whether a
 * repetition of the previous event is ignored, what is emitted, and whether it
 * arms the commit that the release of the modifier key later emits. The rules
 * are listed once, as data, in `RuleAt`; the class method runs the chain as
 * written and is proved to agree with running the rules in order.
 */
module KeyboardShortcuts {
  import opened JsValues

  /** `process.platform`, as far as the handler looks at it. */
  datatype Platform = Darwin | OtherPlatform

  /** A keyboard event: `type`, `modifiers` bit mask and `keycode`. */
  datatype KeyEvent = KeyEvent(kind: int, modifiers: int, keycode: int)

  const RawKeyDown := 7
  const KeyUp := 9
  const ShiftMask := 1
  const ControlMask := 2
  const MetaMask := 8
  const ControlKey := 17

  /** The modifier of most shortcuts: Command on Darwin, Control elsewhere. */
  function Modifier(p: Platform): (m: int)
    ensures m == ControlMask || m == MetaMask
  {
    if p == Darwin then MetaMask else ControlMask
  }

  /** The key code of that modifier. */
  function ModifierKey(p: Platform): (k: int)
    ensures k == ControlKey || k == 91
  {
    if p == Darwin then 91 else ControlKey
  }

  /** `1 << 0 | mask` for the two masks used with Shift; the bits are disjoint,
      so the bitwise or is a sum. */
  function WithShift(mask: int): int {
    ShiftMask + mask
  }

  /** The events the handler emits. */
  datatype Shortcut =
    | NewTab | Recover | Go | Next | Prev | SelectByIndex(index: int)
    | Back | Forward | Toggle | Commit | Close | StackPin | FindInPage | Reload | Clear

  /** What a matching rule does. */
  datatype Action = Emit(shortcut: Shortcut) | EmitIndex | CommitIfArmed

  /** The key codes a rule accepts: one, either of two, or a closed range. */
  datatype Keys = Key(code: int) | EitherKey(first: int, second: int) | Range(lo: int, hi: int)

  predicate InKeys(keys: Keys, code: int) {
    match keys
    case Key(k) => code == k
    case EitherKey(a, b) => code == a || code == b
    case Range(lo, hi) => lo <= code <= hi
  }

  /** One `if` of the handler. `mods` is `None` when the rule does not look at
      the modifiers; `once` when it ignores a repetition of the previous event. */
  datatype Rule = Rule(kind: int, mods: Option<int>, keys: Keys, once: bool, action: Action, arms: bool)

  /** `is_last(evt)`: the event equals the previous one in type, modifiers and
      key code. */
  predicate IsLast(last: Option<KeyEvent>, evt: KeyEvent) {
    last.Some? && last.value.kind == evt.kind && last.value.modifiers == evt.modifiers
    && last.value.keycode == evt.keycode
  }

  /** The number of rules: two more on Darwin. */
  function RuleCount(p: Platform): nat {
    if p == Darwin then 22 else 20
  }

  /** Ctrl-T: new tab, also when repeated. */
  function NewTabRule(p: Platform): Rule {
    Rule(RawKeyDown, Some(Modifier(p)), Key(84), false, Emit(NewTab), false)
  }

  /** Ctrl-Shift-T: recover a closed tab, not when repeated. */
  function RecoverRule(p: Platform): Rule {
    Rule(RawKeyDown, Some(WithShift(Modifier(p))), Key(84), true, Emit(Recover), false)
  }

  /** Ctrl-L or Space: go, not when repeated. */
  function GoRule(p: Platform): Rule {
    Rule(RawKeyDown, Some(Modifier(p)), EitherKey(76, 32), true, Emit(Go), false)
  }

  /** Ctrl-J or Down: next tab, arms the commit. */
  function NextRule(p: Platform): Rule {
    Rule(RawKeyDown, Some(Modifier(p)), EitherKey(74, 40), false, Emit(Next), true)
  }

  /** Ctrl-K or Up: previous tab, arms the commit. */
  function PrevRule(p: Platform): Rule {
    Rule(RawKeyDown, Some(Modifier(p)), EitherKey(75, 38), false, Emit(Prev), true)
  }

  /** Ctrl-Tab, seen on key up and always with Control: next tab, arms the commit. */
  function CtrlTabRule(p: Platform): Rule {
    Rule(KeyUp, Some(ControlMask), Key(9), false, Emit(Next), true)
  }

  /** Ctrl-Shift-Tab, always with Control: previous tab, arms the commit. */
  function CtrlShiftTabRule(p: Platform): Rule {
    Rule(RawKeyDown, Some(WithShift(ControlMask)), Key(9), false, Emit(Prev), true)
  }

  /** Ctrl-1 to Ctrl-9: select tab `keycode - 49`, arms the commit. */
  function SelectRule(p: Platform): Rule {
    Rule(RawKeyDown, Some(Modifier(p)), Range(49, 57), false, EmitIndex, true)
  }

  /** Ctrl-Shift-J: back, not when repeated. */
  function ShiftBackRule(p: Platform): Rule {
    Rule(RawKeyDown, Some(WithShift(Modifier(p))), Key(74), true, Emit(Back), false)
  }

  /** Ctrl-Shift-K: forward, not when repeated. */
  function ShiftForwardRule(p: Platform): Rule {
    Rule(RawKeyDown, Some(WithShift(Modifier(p))), Key(75), true, Emit(Forward), false)
  }

  /** Ctrl-Left: back, not when repeated. */
  function LeftBackRule(p: Platform): Rule {
    Rule(RawKeyDown, Some(Modifier(p)), Key(37), true, Emit(Back), false)
  }

  /** Ctrl-Right: forward, not when repeated. */
  function RightForwardRule(p: Platform): Rule {
    Rule(RawKeyDown, Some(Modifier(p)), Key(39), true, Emit(Forward), false)
  }

  /** Ctrl-Shift-H: toggle, not when repeated. */
  function ToggleRule(p: Platform): Rule {
    Rule(RawKeyDown, Some(WithShift(Modifier(p))), Key(72), true, Emit(Toggle), false)
  }

  /** Release of the modifier key or of Control, whatever the modifiers: commit if armed. */
  function ReleaseRule(p: Platform): Rule {
    Rule(KeyUp, None, EitherKey(ModifierKey(p), ControlKey), false, CommitIfArmed, false)
  }

  /** CapsLock released with the modifier: commit if armed. */
  function CapsLockRule(p: Platform): Rule {
    Rule(KeyUp, Some(Modifier(p)), Key(20), false, CommitIfArmed, false)
  }

  /** Ctrl-W: close, also when repeated. */
  function CloseRule(p: Platform): Rule {
    Rule(RawKeyDown, Some(Modifier(p)), Key(87), false, Emit(Close), false)
  }

  /** Ctrl-P: stack pin, not when repeated. */
  function StackPinRule(p: Platform): Rule {
    Rule(RawKeyDown, Some(Modifier(p)), Key(80), true, Emit(StackPin), false)
  }

  /** Ctrl-F: find in page, not when repeated. */
  function FindRule(p: Platform): Rule {
    Rule(RawKeyDown, Some(Modifier(p)), Key(70), true, Emit(FindInPage), false)
  }

  /** Ctrl-R: reload, not when repeated. */
  function ReloadRule(p: Platform): Rule {
    Rule(RawKeyDown, Some(Modifier(p)), Key(82), true, Emit(Reload), false)
  }

  /** Escape, whatever the modifiers: clear. */
  function EscapeRule(p: Platform): Rule {
    Rule(RawKeyDown, None, Key(27), false, Emit(Clear), false)
  }

  /** Darwin only, Command-Shift-} (key 221): next tab, arms the commit. */
  function DarwinNextRule(p: Platform): Rule {
    Rule(RawKeyDown, Some(WithShift(Modifier(p))), Key(221), false, Emit(Next), true)
  }

  /** Darwin only, Command-Shift-{ (key 219): previous tab, arms the commit. */
  function DarwinPrevRule(p: Platform): Rule {
    Rule(RawKeyDown, Some(WithShift(Modifier(p))), Key(219), false, Emit(Prev), true)
  }

  /** The rules in the order the handler tests them. */
  function RuleAt(p: Platform, i: nat): Rule
    requires i < RuleCount(p)
  {
    match i
    case 0 => NewTabRule(p)
    case 1 => RecoverRule(p)
    case 2 => GoRule(p)
    case 3 => NextRule(p)
    case 4 => PrevRule(p)
    case 5 => CtrlTabRule(p)
    case 6 => CtrlShiftTabRule(p)
    case 7 => SelectRule(p)
    case 8 => ShiftBackRule(p)
    case 9 => ShiftForwardRule(p)
    case 10 => LeftBackRule(p)
    case 11 => RightForwardRule(p)
    case 12 => ToggleRule(p)
    case 13 => ReleaseRule(p)
    case 14 => CapsLockRule(p)
    case 15 => CloseRule(p)
    case 16 => StackPinRule(p)
    case 17 => FindRule(p)
    case 18 => ReloadRule(p)
    case 19 => EscapeRule(p)
    case 20 => DarwinNextRule(p)
    case _ => DarwinPrevRule(p)
  }

  predicate Matches(r: Rule, last: Option<KeyEvent>, evt: KeyEvent) {
    evt.kind == r.kind && (r.mods.None? || evt.modifiers == r.mods.value)
    && InKeys(r.keys, evt.keycode) && (!r.once || !IsLast(last, evt))
  }

  /** The effect of one rule on `can_commit` and on the emitted events. */
  function Fire(r: Rule, last: Option<KeyEvent>, evt: KeyEvent, acc: (bool, seq<Shortcut>)): (bool, seq<Shortcut>) {
    if !Matches(r, last, evt) then acc
    else match r.action
      case Emit(s) => (acc.0 || r.arms, acc.1 + [s])
      case EmitIndex => (acc.0 || r.arms, acc.1 + [SelectByIndex(evt.keycode - 49)])
      case CommitIfArmed => if acc.0 then (false, acc.1 + [Commit]) else acc
  }

  /** The first `n` rules applied in order, starting from `can_commit`. */
  function RunRules(p: Platform, n: nat, last: Option<KeyEvent>, evt: KeyEvent, armed: bool): (r: (bool, seq<Shortcut>))
    requires n <= RuleCount(p)
    ensures |r.1| <= n
  {
    if n == 0 then (armed, [])
    else Fire(RuleAt(p, n - 1), last, evt, RunRules(p, n - 1, last, evt, armed))
  }

  /** The handler: the new `can_commit` and the events emitted, in order. */
  function Handle(p: Platform, last: Option<KeyEvent>, armed: bool, evt: KeyEvent): (r: (bool, seq<Shortcut>))
    ensures |r.1| <= RuleCount(p)
  {
    RunRules(p, RuleCount(p), last, evt, armed)
  }

  /** Shortcuts that fire again while a key is held down. */
  predicate Repeatable(s: Shortcut) {
    s.NewTab? || s.Next? || s.Prev? || s.SelectByIndex? || s.Commit? || s.Close? || s.Clear?
  }

  /** Shortcuts that arm the commit. */
  predicate Navigation(s: Shortcut) {
    s.Next? || s.Prev? || s.SelectByIndex?
  }

  /** The shape every rule of the table has. */
  predicate WellShaped(p: Platform, r: Rule) {
    (r.once ==> r.action.Emit? && !Repeatable(r.action.shortcut))
    && (!r.once && r.action.Emit? ==> Repeatable(r.action.shortcut))
    && (r.action.Emit? ==> r.action.shortcut != Commit && !r.action.shortcut.SelectByIndex?)
    && (r.arms <==> r.action.EmitIndex? || (r.action.Emit? && Navigation(r.action.shortcut)))
    && (r.action.EmitIndex? ==> r.kind == RawKeyDown && r.keys == Range(49, 57))
    && (r.action.Emit? && Navigation(r.action.shortcut) ==> r.kind == RawKeyDown || (r.kind == KeyUp && r.keys == Key(9)))
    && (r.action.CommitIfArmed? ==> r.kind == KeyUp && !InKeys(r.keys, 9))
  }

  lemma RuleShape(p: Platform, i: nat)
    requires i < RuleCount(p)
    ensures WellShaped(p, RuleAt(p, i))
  {
  }

  /** Every rule is for a raw key-down or a key-up; a rule without modifiers
      only clears or commits, and a rule with modifiers asks for the platform
      modifier or Control, with or without Shift. */
  lemma RuleModifiers(p: Platform, i: nat)
    requires i < RuleCount(p)
    ensures var r := RuleAt(p, i);
      (r.kind == RawKeyDown || r.kind == KeyUp)
      && (r.mods.None? ==> r.action == Emit(Clear) || r.action.CommitIfArmed?)
      && (r.mods.Some? ==> r.mods.value in {Modifier(p), WithShift(Modifier(p)), ControlMask, WithShift(ControlMask)})
  {
  }

  function CountCommits(out: seq<Shortcut>): nat {
    if out == [] then 0 else CountCommits(out[..|out| - 1]) + if out[|out| - 1] == Commit then 1 else 0
  }

  function CountArming(out: seq<Shortcut>): nat {
    if out == [] then 0 else CountArming(out[..|out| - 1]) + if Navigation(out[|out| - 1]) then 1 else 0
  }

  lemma {:induction false} CountAppend(a: seq<Shortcut>, b: seq<Shortcut>)
    ensures CountCommits(a + b) == CountCommits(a) + CountCommits(b)
    ensures CountArming(a + b) == CountArming(a) + CountArming(b)
    decreases |b|
  {
    if b == [] {
      assert a + b == a;
    } else {
      CountAppend(a, b[..|b| - 1]);
      assert (a + b)[..|a + b| - 1] == a + b[..|b| - 1];
    }
  }

  /** What holds after any prefix of the rules: a repeated event fires only
      rules that allow repetition, and selection indices lie in 0..8. */
  predicate EmitFacts(last: Option<KeyEvent>, evt: KeyEvent, out: seq<Shortcut>) {
    (IsLast(last, evt) ==> forall s | s in out :: Repeatable(s))
    && (forall s | s in out && s.SelectByIndex? :: 0 <= s.index <= 8)
  }

  lemma FireKeepsEmitFacts(p: Platform, rule: Rule, last: Option<KeyEvent>, evt: KeyEvent, acc: (bool, seq<Shortcut>))
    requires WellShaped(p, rule) && EmitFacts(last, evt, acc.1)
    ensures EmitFacts(last, evt, Fire(rule, last, evt, acc).1)
  {
    var out := Fire(rule, last, evt, acc).1;
    if Matches(rule, last, evt) && !rule.action.CommitIfArmed? {
      var s := out[|out| - 1];
      assert out == acc.1 + [s];
      forall t | t in out
        ensures (IsLast(last, evt) ==> Repeatable(t)) && (t.SelectByIndex? ==> 0 <= t.index <= 8)
      {
        if t != s {
          assert t in acc.1;
        }
      }
    }
  }

  lemma {:induction false} RunRulesEmits(p: Platform, n: nat, last: Option<KeyEvent>, evt: KeyEvent, armed: bool)
    requires n <= RuleCount(p)
    ensures EmitFacts(last, evt, RunRules(p, n, last, evt, armed).1)
  {
    if n > 0 {
      RunRulesEmits(p, n - 1, last, evt, armed);
      RuleShape(p, n - 1);
      FireKeepsEmitFacts(p, RuleAt(p, n - 1), last, evt, RunRules(p, n - 1, last, evt, armed));
    }
  }

  /** What holds after any prefix of the rules: navigation and commit never
      come from the same event, a commit-free output counts no commit, and the
      handler is armed only if it was armed and did not commit, or it
      navigated. */
  predicate ArmingFacts(armed: bool, evt: KeyEvent, r: (bool, seq<Shortcut>)) {
    (CountArming(r.1) >= 1 ==> evt.kind == RawKeyDown || evt.keycode == 9)
    && (Commit in r.1 ==> evt.kind == KeyUp && evt.keycode != 9)
    && (Commit !in r.1 ==> CountCommits(r.1) == 0)
    && (r.0 ==> (armed && Commit !in r.1) || CountArming(r.1) >= 1)
  }

  /** ... and the commit is emitted at most once, only when armed, and leaves
      the handler disarmed. */
  predicate CommitFacts(armed: bool, r: (bool, seq<Shortcut>)) {
    Commit in r.1 ==> armed && !r.0 && CountCommits(r.1) == 1 && CountArming(r.1) == 0
  }

  lemma FireKeepsFacts(p: Platform, rule: Rule, last: Option<KeyEvent>, evt: KeyEvent, armed: bool, prev: (bool, seq<Shortcut>))
    requires WellShaped(p, rule) && ArmingFacts(armed, evt, prev) && CommitFacts(armed, prev)
    ensures ArmingFacts(armed, evt, Fire(rule, last, evt, prev))
    ensures CommitFacts(armed, Fire(rule, last, evt, prev))
  {
    if Matches(rule, last, evt) {
      match rule.action
      case Emit(s) =>
        EmitKeepsFacts(p, rule, evt, armed, prev, s);
      case EmitIndex =>
        EmitKeepsFacts(p, rule, evt, armed, prev, SelectByIndex(evt.keycode - 49));
      case CommitIfArmed =>
        CountAppend(prev.1, [Commit]);
    }
  }

  /** A matching rule that emits `s` keeps both sets of facts. */
  lemma EmitKeepsFacts(p: Platform, rule: Rule, evt: KeyEvent, armed: bool, prev: (bool, seq<Shortcut>), s: Shortcut)
    requires WellShaped(p, rule) && ArmingFacts(armed, evt, prev) && CommitFacts(armed, prev)
    requires evt.kind == rule.kind && InKeys(rule.keys, evt.keycode)
    requires rule.action == Emit(s) || (rule.action.EmitIndex? && s.SelectByIndex?)
    ensures ArmingFacts(armed, evt, (prev.0 || rule.arms, prev.1 + [s]))
    ensures CommitFacts(armed, (prev.0 || rule.arms, prev.1 + [s]))
  {
    CountAppend(prev.1, [s]);
  }

  lemma {:induction false} RunRulesCommits(p: Platform, n: nat, last: Option<KeyEvent>, evt: KeyEvent, armed: bool)
    requires n <= RuleCount(p)
    ensures ArmingFacts(armed, evt, RunRules(p, n, last, evt, armed))
    ensures CommitFacts(armed, RunRules(p, n, last, evt, armed))
  {
    if n > 0 {
      RunRulesCommits(p, n - 1, last, evt, armed);
      RuleShape(p, n - 1);
      FireKeepsFacts(p, RuleAt(p, n - 1), last, evt, armed, RunRules(p, n - 1, last, evt, armed));
    }
  }

  /** The handler over a sequence of events: the final `last`, `can_commit`
      and everything emitted. */
  function HandleAll(p: Platform, last: Option<KeyEvent>, armed: bool, evts: seq<KeyEvent>): (Option<KeyEvent>, bool, seq<Shortcut>) {
    if evts == [] then (last, armed, [])
    else
      var prev := HandleAll(p, last, armed, evts[..|evts| - 1]);
      var evt := evts[|evts| - 1];
      var step := Handle(p, prev.0, prev.1, evt);
      (Some(evt), step.0, prev.2 + step.1)
  }

  /** Every commit is paid for by an earlier navigation (or by the handler
      being armed at the start): no run of events commits twice without a
      navigation in between. */
  lemma {:induction false} CommitsNeedNavigation(p: Platform, last: Option<KeyEvent>, armed: bool, evts: seq<KeyEvent>)
    ensures var r := HandleAll(p, last, armed, evts);
      CountCommits(r.2) + (if r.1 then 1 else 0) <= CountArming(r.2) + (if armed then 1 else 0)
  {
    if evts != [] {
      var prev := HandleAll(p, last, armed, evts[..|evts| - 1]);
      CommitsNeedNavigation(p, last, armed, evts[..|evts| - 1]);
      var evt := evts[|evts| - 1];
      var step := Handle(p, prev.0, prev.1, evt);
      RunRulesCommits(p, RuleCount(p), prev.0, evt, prev.1);
      CountAppend(prev.2, step.1);
    }
  }

  /** Holding a key down (the same event again) only repeats the shortcuts
      that allow it: new tab, next, previous, select, commit, close and clear. */
  lemma HeldKeyRepeatsOnly(p: Platform, armed: bool, evt: KeyEvent)
    ensures forall s | s in Handle(p, Some(evt), armed, evt).1 :: Repeatable(s)
  {
    RunRulesEmits(p, RuleCount(p), Some(evt), evt, armed);
  }

  /** Selection by index only ever names tabs 0 to 8. */
  lemma SelectIndexInRange(p: Platform, last: Option<KeyEvent>, armed: bool, evt: KeyEvent)
    ensures forall s | s in Handle(p, last, armed, evt).1 && s.SelectByIndex? :: 0 <= s.index <= 8
  {
    RunRulesEmits(p, RuleCount(p), last, evt, armed);
  }

  /** A single event commits at most once, only when armed, and disarms. */
  lemma CommitOncePerEvent(p: Platform, last: Option<KeyEvent>, armed: bool, evt: KeyEvent)
    ensures var r := Handle(p, last, armed, evt);
      CountCommits(r.1) <= 1 && (Commit in r.1 ==> armed && !r.0)
  {
    RunRulesCommits(p, RuleCount(p), last, evt, armed);

  }

  /** When no rule but the `k`th matches an event, the handler does what that
      rule does. */
  lemma {:induction false} OnlyRule(p: Platform, k: nat, n: nat, last: Option<KeyEvent>, evt: KeyEvent, armed: bool)
    requires k < RuleCount(p) && n <= RuleCount(p)
    requires forall i | 0 <= i < RuleCount(p) && i != k :: !Matches(RuleAt(p, i), last, evt)
    ensures RunRules(p, n, last, evt, armed) == if n <= k then (armed, []) else Fire(RuleAt(p, k), last, evt, (armed, []))
  {
    if n > 0 {
      OnlyRule(p, k, n - 1, last, evt, armed);
    }
  }

  /** Ctrl-T (Command-T on Darwin) opens a tab on every press, held or not. */
  lemma NewTabOnEveryPress(p: Platform, last: Option<KeyEvent>, armed: bool)
    ensures Handle(p, last, armed, KeyEvent(RawKeyDown, Modifier(p), 84)) == (armed, [NewTab])
  {
    var evt := KeyEvent(RawKeyDown, Modifier(p), 84);
    assert forall i | 0 <= i < RuleCount(p) && i != 0 :: !Matches(RuleAt(p, i), last, evt);
    OnlyRule(p, 0, RuleCount(p), last, evt, armed);
    assert [] + [NewTab] == [NewTab];
  }

  /** Ctrl-Shift-T recovers a closed tab on a fresh press ... */
  lemma RecoverOnPress(p: Platform, last: Option<KeyEvent>, armed: bool)
    requires !IsLast(last, KeyEvent(RawKeyDown, WithShift(Modifier(p)), 84))
    ensures Handle(p, last, armed, KeyEvent(RawKeyDown, WithShift(Modifier(p)), 84)) == (armed, [Recover])
  {
    var evt := KeyEvent(RawKeyDown, WithShift(Modifier(p)), 84);
    assert forall i | 0 <= i < RuleCount(p) && i != 1 :: !Matches(RuleAt(p, i), last, evt);
    OnlyRule(p, 1, RuleCount(p), last, evt, armed);
    assert [] + [Recover] == [Recover];
  }

  /** ... and holding it down recovers nothing more. */
  lemma NoRecoverWhenHeld(p: Platform, armed: bool)
    ensures var evt := KeyEvent(RawKeyDown, WithShift(Modifier(p)), 84);
      Handle(p, Some(evt), armed, evt) == (armed, [])
  {
    var evt := KeyEvent(RawKeyDown, WithShift(Modifier(p)), 84);
    assert forall i | 0 <= i < RuleCount(p) && i != 1 :: !Matches(RuleAt(p, i), Some(evt), evt);
    OnlyRule(p, 1, RuleCount(p), Some(evt), evt, armed);
  }

  /** Releasing the modifier key commits exactly when a navigation armed it. */
  lemma ReleaseCommits(p: Platform, last: Option<KeyEvent>, armed: bool, modifiers: int)
    ensures Handle(p, last, armed, KeyEvent(KeyUp, modifiers, ModifierKey(p))) == (false, if armed then [Commit] else [])
  {
    var evt := KeyEvent(KeyUp, modifiers, ModifierKey(p));
    assert forall i | 0 <= i < RuleCount(p) && i != 13 :: !Matches(RuleAt(p, i), last, evt);
    OnlyRule(p, 13, RuleCount(p), last, evt, armed);
    assert [] + [Commit] == [Commit];
  }

  /** Escape clears, whatever the modifiers and however often. */
  lemma EscapeClears(p: Platform, last: Option<KeyEvent>, armed: bool, modifiers: int)
    ensures Handle(p, last, armed, KeyEvent(RawKeyDown, modifiers, 27)) == (armed, [Clear])
  {
    var evt := KeyEvent(RawKeyDown, modifiers, 27);
    assert forall i | 0 <= i < RuleCount(p) && i != 19 :: !Matches(RuleAt(p, i), last, evt);
    OnlyRule(p, 19, RuleCount(p), last, evt, armed);
    assert [] + [Clear] == [Clear];
  }

  /*
   * The same rules in the groups the handler below is written in.
   */

  function TabGroup(p: Platform, last: Option<KeyEvent>, evt: KeyEvent, acc: (bool, seq<Shortcut>)): (bool, seq<Shortcut>) {
    Fire(NextRule(p), last, evt, Fire(GoRule(p), last, evt, Fire(RecoverRule(p), last, evt, Fire(NewTabRule(p), last, evt, acc))))
  }

  function SwitchGroup(p: Platform, last: Option<KeyEvent>, evt: KeyEvent, acc: (bool, seq<Shortcut>)): (bool, seq<Shortcut>) {
    Fire(SelectRule(p), last, evt, Fire(CtrlShiftTabRule(p), last, evt, Fire(CtrlTabRule(p), last, evt, Fire(PrevRule(p), last, evt, acc))))
  }

  function HistoryGroup(p: Platform, last: Option<KeyEvent>, evt: KeyEvent, acc: (bool, seq<Shortcut>)): (bool, seq<Shortcut>) {
    Fire(ToggleRule(p), last, evt, Fire(RightForwardRule(p), last, evt, Fire(LeftBackRule(p), last, evt, Fire(ShiftForwardRule(p), last, evt, Fire(ShiftBackRule(p), last, evt, acc)))))
  }

  function CommitGroup(p: Platform, last: Option<KeyEvent>, evt: KeyEvent, acc: (bool, seq<Shortcut>)): (bool, seq<Shortcut>) {
    Fire(StackPinRule(p), last, evt, Fire(CloseRule(p), last, evt, Fire(CapsLockRule(p), last, evt, Fire(ReleaseRule(p), last, evt, acc))))
  }

  function PageGroup(p: Platform, last: Option<KeyEvent>, evt: KeyEvent, acc: (bool, seq<Shortcut>)): (bool, seq<Shortcut>) {
    var s := Fire(EscapeRule(p), last, evt, Fire(ReloadRule(p), last, evt, Fire(FindRule(p), last, evt, acc)));
    if p == Darwin then Fire(DarwinPrevRule(p), last, evt, Fire(DarwinNextRule(p), last, evt, s)) else s
  }

  lemma TabGroupRuns(p: Platform, last: Option<KeyEvent>, evt: KeyEvent, armed: bool)
    ensures RunRules(p, 4, last, evt, armed) == TabGroup(p, last, evt, (armed, []))
  {
    assert RunRules(p, 1, last, evt, armed) == Fire(NewTabRule(p), last, evt, RunRules(p, 0, last, evt, armed));
    assert RunRules(p, 2, last, evt, armed) == Fire(RecoverRule(p), last, evt, RunRules(p, 1, last, evt, armed));
    assert RunRules(p, 3, last, evt, armed) == Fire(GoRule(p), last, evt, RunRules(p, 2, last, evt, armed));
    assert RunRules(p, 4, last, evt, armed) == Fire(NextRule(p), last, evt, RunRules(p, 3, last, evt, armed));
  }

  lemma SwitchGroupRuns(p: Platform, last: Option<KeyEvent>, evt: KeyEvent, armed: bool)
    ensures RunRules(p, 8, last, evt, armed) == SwitchGroup(p, last, evt, RunRules(p, 4, last, evt, armed))
  {
    assert RunRules(p, 5, last, evt, armed) == Fire(PrevRule(p), last, evt, RunRules(p, 4, last, evt, armed));
    assert RunRules(p, 6, last, evt, armed) == Fire(CtrlTabRule(p), last, evt, RunRules(p, 5, last, evt, armed));
    assert RunRules(p, 7, last, evt, armed) == Fire(CtrlShiftTabRule(p), last, evt, RunRules(p, 6, last, evt, armed));
    assert RunRules(p, 8, last, evt, armed) == Fire(SelectRule(p), last, evt, RunRules(p, 7, last, evt, armed));
  }

  lemma HistoryGroupRuns(p: Platform, last: Option<KeyEvent>, evt: KeyEvent, armed: bool)
    ensures RunRules(p, 13, last, evt, armed) == HistoryGroup(p, last, evt, RunRules(p, 8, last, evt, armed))
  {
    assert RunRules(p, 9, last, evt, armed) == Fire(ShiftBackRule(p), last, evt, RunRules(p, 8, last, evt, armed));
    assert RunRules(p, 10, last, evt, armed) == Fire(ShiftForwardRule(p), last, evt, RunRules(p, 9, last, evt, armed));
    assert RunRules(p, 11, last, evt, armed) == Fire(LeftBackRule(p), last, evt, RunRules(p, 10, last, evt, armed));
    assert RunRules(p, 12, last, evt, armed) == Fire(RightForwardRule(p), last, evt, RunRules(p, 11, last, evt, armed));
    assert RunRules(p, 13, last, evt, armed) == Fire(ToggleRule(p), last, evt, RunRules(p, 12, last, evt, armed));
  }

  lemma CommitGroupRuns(p: Platform, last: Option<KeyEvent>, evt: KeyEvent, armed: bool)
    ensures RunRules(p, 17, last, evt, armed) == CommitGroup(p, last, evt, RunRules(p, 13, last, evt, armed))
  {
    assert RunRules(p, 14, last, evt, armed) == Fire(ReleaseRule(p), last, evt, RunRules(p, 13, last, evt, armed));
    assert RunRules(p, 15, last, evt, armed) == Fire(CapsLockRule(p), last, evt, RunRules(p, 14, last, evt, armed));
    assert RunRules(p, 16, last, evt, armed) == Fire(CloseRule(p), last, evt, RunRules(p, 15, last, evt, armed));
    assert RunRules(p, 17, last, evt, armed) == Fire(StackPinRule(p), last, evt, RunRules(p, 16, last, evt, armed));
  }

  lemma PageGroupRuns(p: Platform, last: Option<KeyEvent>, evt: KeyEvent, armed: bool)
    ensures RunRules(p, RuleCount(p), last, evt, armed) == PageGroup(p, last, evt, RunRules(p, 17, last, evt, armed))
  {
    assert RunRules(p, 18, last, evt, armed) == Fire(FindRule(p), last, evt, RunRules(p, 17, last, evt, armed));
    assert RunRules(p, 19, last, evt, armed) == Fire(ReloadRule(p), last, evt, RunRules(p, 18, last, evt, armed));
    assert RunRules(p, 20, last, evt, armed) == Fire(EscapeRule(p), last, evt, RunRules(p, 19, last, evt, armed));
    if p == Darwin {
      assert RunRules(p, 21, last, evt, armed) == Fire(DarwinNextRule(p), last, evt, RunRules(p, 20, last, evt, armed));
      assert RunRules(p, 22, last, evt, armed) == Fire(DarwinPrevRule(p), last, evt, RunRules(p, 21, last, evt, armed));
    }
  }

  /*
   * The handler as written, one group of rules per method (the chain is too
   * long for a single proof). Each group takes `can_commit` and the events
   * emitted so far and applies its rules to them, in order.
   */

  /** Ctrl-T, Ctrl-Shift-T, Ctrl-L / Space, Ctrl-J / Down. */
  method TabKeys(p: Platform, prev: Option<KeyEvent>, evt: KeyEvent, commit0: bool, emitted0: seq<Shortcut>)
    returns (commit: bool, emitted: seq<Shortcut>)
    ensures (commit, emitted) == TabGroup(p, prev, evt, (commit0, emitted0))
  {
    var modifier := if p == Darwin then MetaMask else ControlMask;
    commit, emitted := commit0, emitted0;
    if evt.kind == 7 && evt.modifiers == modifier && evt.keycode == 84 {
      emitted := emitted + [NewTab];
    }
    ghost var s1 := (commit, emitted);
    assert s1 == Fire(NewTabRule(p), prev, evt, (commit0, emitted0));
    if evt.kind == 7 && evt.modifiers == WithShift(modifier) && evt.keycode == 84 && !IsLast(prev, evt) {
      emitted := emitted + [Recover];
    }
    ghost var s2 := (commit, emitted);
    assert s2 == Fire(RecoverRule(p), prev, evt, s1);
    if evt.kind == 7 && evt.modifiers == modifier && (evt.keycode == 76 || evt.keycode == 32) && !IsLast(prev, evt) {
      emitted := emitted + [Go];
    }
    ghost var s3 := (commit, emitted);
    assert s3 == Fire(GoRule(p), prev, evt, s2);
    if evt.kind == 7 && evt.modifiers == modifier && (evt.keycode == 74 || evt.keycode == 40) {
      emitted := emitted + [Next];
      commit := true;
    }
  }

  /** Ctrl-K / Up, Ctrl-Tab, Ctrl-Shift-Tab, Ctrl-1 to Ctrl-9. */
  method SwitchKeys(p: Platform, prev: Option<KeyEvent>, evt: KeyEvent, commit0: bool, emitted0: seq<Shortcut>)
    returns (commit: bool, emitted: seq<Shortcut>)
    ensures (commit, emitted) == SwitchGroup(p, prev, evt, (commit0, emitted0))
  {
    var modifier := if p == Darwin then MetaMask else ControlMask;
    var ctrl := ControlMask;
    commit, emitted := commit0, emitted0;
    if evt.kind == 7 && evt.modifiers == modifier && (evt.keycode == 75 || evt.keycode == 38) {
      emitted := emitted + [Prev];
      commit := true;
    }
    ghost var s1 := (commit, emitted);
    assert s1 == Fire(PrevRule(p), prev, evt, (commit0, emitted0));
    if evt.kind == 9 && evt.modifiers == ctrl && evt.keycode == 9 {
      emitted := emitted + [Next];
      commit := true;
    }
    ghost var s2 := (commit, emitted);
    assert s2 == Fire(CtrlTabRule(p), prev, evt, s1);
    if evt.kind == 7 && evt.modifiers == WithShift(ctrl) && evt.keycode == 9 {
      emitted := emitted + [Prev];
      commit := true;
    }
    ghost var s3 := (commit, emitted);
    assert s3 == Fire(CtrlShiftTabRule(p), prev, evt, s2);
    if evt.kind == 7 && evt.modifiers == modifier && evt.keycode >= 49 && evt.keycode <= 57 {
      emitted := emitted + [SelectByIndex(evt.keycode - 49)];
      commit := true;
    }
  }

  /** Ctrl-Shift-J, Ctrl-Shift-K, Ctrl-Left, Ctrl-Right, Ctrl-Shift-H. */
  method HistoryKeys(p: Platform, prev: Option<KeyEvent>, evt: KeyEvent, commit0: bool, emitted0: seq<Shortcut>)
    returns (commit: bool, emitted: seq<Shortcut>)
    ensures (commit, emitted) == HistoryGroup(p, prev, evt, (commit0, emitted0))
  {
    var modifier := if p == Darwin then MetaMask else ControlMask;
    commit, emitted := commit0, emitted0;
    if evt.kind == 7 && evt.modifiers == WithShift(modifier) && evt.keycode == 74 && !IsLast(prev, evt) {
      emitted := emitted + [Back];
    }
    ghost var s1 := (commit, emitted);
    assert s1 == Fire(ShiftBackRule(p), prev, evt, (commit0, emitted0));
    if evt.kind == 7 && evt.modifiers == WithShift(modifier) && evt.keycode == 75 && !IsLast(prev, evt) {
      emitted := emitted + [Forward];
    }
    ghost var s2 := (commit, emitted);
    assert s2 == Fire(ShiftForwardRule(p), prev, evt, s1);
    if evt.kind == 7 && evt.modifiers == modifier && evt.keycode == 37 && !IsLast(prev, evt) {
      emitted := emitted + [Back];
    }
    ghost var s3 := (commit, emitted);
    assert s3 == Fire(LeftBackRule(p), prev, evt, s2);
    if evt.kind == 7 && evt.modifiers == modifier && evt.keycode == 39 && !IsLast(prev, evt) {
      emitted := emitted + [Forward];
    }
    ghost var s4 := (commit, emitted);
    assert s4 == Fire(RightForwardRule(p), prev, evt, s3);
    if evt.kind == 7 && evt.modifiers == WithShift(modifier) && evt.keycode == 72 && !IsLast(prev, evt) {
      emitted := emitted + [Toggle];
    }
  }

  /** Release of the modifier (or CapsLock with it), Ctrl-W, Ctrl-P. */
  method CommitKeys(p: Platform, prev: Option<KeyEvent>, evt: KeyEvent, commit0: bool, emitted0: seq<Shortcut>)
    returns (commit: bool, emitted: seq<Shortcut>)
    ensures (commit, emitted) == CommitGroup(p, prev, evt, (commit0, emitted0))
  {
    var modifier := if p == Darwin then MetaMask else ControlMask;
    var modifierKey := if p == Darwin then 91 else ControlKey;
    var ctrlKey := ControlKey;
    commit, emitted := commit0, emitted0;
    if evt.kind == 9 && (evt.keycode == modifierKey || evt.keycode == ctrlKey) {
      if commit {
        commit := false;
        emitted := emitted + [Commit];
      }
    }
    ghost var s1 := (commit, emitted);
    assert s1 == Fire(ReleaseRule(p), prev, evt, (commit0, emitted0));
    if evt.kind == 9 && evt.modifiers == modifier && evt.keycode == 20 {
      if commit {
        commit := false;
        emitted := emitted + [Commit];
      }
    }
    ghost var s2 := (commit, emitted);
    assert s2 == Fire(CapsLockRule(p), prev, evt, s1);
    if evt.kind == 7 && evt.modifiers == modifier && evt.keycode == 87 {
      emitted := emitted + [Close];
    }
    ghost var s3 := (commit, emitted);
    assert s3 == Fire(CloseRule(p), prev, evt, s2);
    if evt.kind == 7 && evt.modifiers == modifier && evt.keycode == 80 && !IsLast(prev, evt) {
      emitted := emitted + [StackPin];
    }
  }

  /** Ctrl-F, Ctrl-R, Escape, and on Darwin Command-Shift-} and -{. */
  method PageKeys(p: Platform, prev: Option<KeyEvent>, evt: KeyEvent, commit0: bool, emitted0: seq<Shortcut>)
    returns (commit: bool, emitted: seq<Shortcut>)
    ensures (commit, emitted) == PageGroup(p, prev, evt, (commit0, emitted0))
  {
    var modifier := if p == Darwin then MetaMask else ControlMask;
    commit, emitted := commit0, emitted0;
    if evt.kind == 7 && evt.modifiers == modifier && evt.keycode == 70 && !IsLast(prev, evt) {
      emitted := emitted + [FindInPage];
    }
    ghost var s1 := (commit, emitted);
    assert s1 == Fire(FindRule(p), prev, evt, (commit0, emitted0));
    if evt.kind == 7 && evt.modifiers == modifier && evt.keycode == 82 && !IsLast(prev, evt) {
      emitted := emitted + [Reload];
    }
    ghost var s2 := (commit, emitted);
    assert s2 == Fire(ReloadRule(p), prev, evt, s1);
    if evt.kind == 7 && evt.keycode == 27 {
      emitted := emitted + [Clear];
    }
    assert (commit, emitted) == Fire(EscapeRule(p), prev, evt, s2);
    if p == Darwin {
      ghost var s3 := (commit, emitted);
      if evt.kind == 7 && evt.modifiers == WithShift(modifier) && evt.keycode == 221 {
        emitted := emitted + [Next];
        commit := true;
      }
      ghost var s4 := (commit, emitted);
      assert s4 == Fire(DarwinNextRule(p), prev, evt, s3);
      if evt.kind == 7 && evt.modifiers == WithShift(modifier) && evt.keycode == 219 {
        emitted := emitted + [Prev];
        commit := true;
      }
    }
  }

  class KeyboardShortcutsHandler {
    const platform: Platform
    /** `my.last`, the previous event. */
    var last: Option<KeyEvent>
    /** `my.can_commit`. */
    var canCommit: bool

    constructor(p: Platform)
      ensures platform == p && last == None && !canCommit
    {
      platform := p;
      last := None;
      canCommit := false;
    }

    /** `handler(evt)`: runs the rules in order, records the event as the
        last one, and returns the events emitted, in order. */
    method Handler(evt: KeyEvent) returns (emitted: seq<Shortcut>)
      modifies this
      ensures last == Some(evt)
      ensures (canCommit, emitted) == Handle(platform, old(last), old(canCommit), evt)
    {
      TabGroupRuns(platform, last, evt, canCommit);
      SwitchGroupRuns(platform, last, evt, canCommit);
      HistoryGroupRuns(platform, last, evt, canCommit);
      CommitGroupRuns(platform, last, evt, canCommit);
      PageGroupRuns(platform, last, evt, canCommit);
      var commit;
      commit, emitted := TabKeys(platform, last, evt, canCommit, []);
      commit, emitted := SwitchKeys(platform, last, evt, commit, emitted);
      commit, emitted := HistoryKeys(platform, last, evt, commit, emitted);
      commit, emitted := CommitKeys(platform, last, evt, commit, emitted);
      commit, emitted := PageKeys(platform, last, evt, commit, emitted);
      canCommit := commit;
      last := Some(evt);
    }
  }
}
