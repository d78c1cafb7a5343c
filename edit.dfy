/**
 * The "ctrl" edit protocol of a level as a value: the remaining budget,
 * the index last selected with the pointer, the copy buffer and whether a
 * paste is armed. The scene's key handlers and its pointer handling are
 * specified by the functions here; the lemmas say what any sequence of
 * edit events does to the budget.
 */
module Edit {
  import opened Wrappers
  import opened Tiles

  datatype EditState = EditState(ctrls: int, selected: Option<int>, copied: Option<int>, pasting: bool)

  /**
   * What every reachable edit state satisfies: the budget is never negative,
   * an armed paste has something to paste, and the copy buffer is only ever
   * filled from a selection.
   */
  ghost predicate Inv(s: EditState)
  {
    s.ctrls >= 0 && (s.pasting ==> s.copied.Some?) && (s.copied.Some? ==> s.selected.Some?)
  }

  /** JavaScript truthiness of a field holding a tile index or `undefined`. */
  predicate Truthy(v: Option<int>)
  {
    v.Some? && v.value != 0
  }

  /** Ctrl+C: with a ctrl left, copy the selection, whatever it holds, and spend one. */
  function Copy(s: EditState, ctrlHeld: bool): EditState
  {
    if ctrlHeld && s.ctrls != 0 then s.(copied := s.selected, ctrls := s.ctrls - 1) else s
  }

  /** Ctrl+V: with a ctrl left and something copied, arm a paste and spend one. */
  function ArmPaste(s: EditState, ctrlHeld: bool): EditState
  {
    if ctrlHeld && s.ctrls != 0 && Truthy(s.copied) then s.(pasting := true, ctrls := s.ctrls - 1) else s
  }

  /** Whether a tick with this pointer state writes the copied tile into the cell under the pointer. */
  predicate Commits(s: EditState, under: Cell, down: bool)
  {
    s.pasting && down && under.Empty?
  }

  /**
   * The pointer part of a tick: pressing on a tile selects its index;
   * pressing on an empty cell while a paste is armed commits it.
   */
  function PressEffect(s: EditState, under: Cell, down: bool): EditState
  {
    if under.Tile? then
      if down then s.(selected := Some(under.index)) else s
    else if Commits(s, under, down) then s.(pasting := false)
    else s
  }

  /** The edit events of a level, in the order they happen. */
  datatype EditEvent =
    | KeyDownC(ctrlHeld: bool)
    | KeyDownV(ctrlHeld: bool)
    | PointerAt(under: Cell, down: bool)

  function Step(s: EditState, e: EditEvent): EditState
  {
    match e
    case KeyDownC(c) => Copy(s, c)
    case KeyDownV(c) => ArmPaste(s, c)
    case PointerAt(under, down) => PressEffect(s, under, down)
  }

  /** The events that spend a ctrl. */
  predicate Spends(s: EditState, e: EditEvent)
  {
    match e
    case KeyDownC(c) => c && s.ctrls != 0
    case KeyDownV(c) => c && s.ctrls != 0 && Truthy(s.copied)
    case PointerAt(_, _) => false
  }

  function Replay(s: EditState, events: seq<EditEvent>): EditState
    decreases |events|
  {
    if events == [] then s else Replay(Step(s, events[0]), events[1..])
  }

  /** How many of `events`, replayed from `s`, spend a ctrl. */
  function Spent(s: EditState, events: seq<EditEvent>): nat
    decreases |events|
  {
    if events == [] then 0
    else (if Spends(s, events[0]) then 1 else 0) + Spent(Step(s, events[0]), events[1..])
  }

  /** One event keeps the invariant and lowers the budget by exactly one when it spends, else not at all. */
  lemma StepAccounting(s: EditState, e: EditEvent)
    requires Inv(s)
    ensures Inv(Step(s, e))
    ensures Step(s, e).ctrls == s.ctrls - (if Spends(s, e) then 1 else 0)
  {
  }

  /**
   * Over any sequence of edit events the budget drops by exactly the number
   * of events that spend, never goes below zero, and so no more events spend
   * than the budget the level started with.
   */
  lemma {:induction false} BudgetAccounting(s: EditState, events: seq<EditEvent>)
    requires Inv(s)
    ensures Inv(Replay(s, events))
    ensures Replay(s, events).ctrls == s.ctrls - Spent(s, events)
    ensures Spent(s, events) <= s.ctrls
    decreases |events|
  {
    if events != [] {
      StepAccounting(s, events[0]);
      BudgetAccounting(Step(s, events[0]), events[1..]);
    }
  }

  /**
   * Once the budget is exhausted no key does anything: the copy buffer stays,
   * no paste can be armed, and the budget stays at zero.
   */
  lemma {:induction false} OutOfCtrlsFreezesKeys(s: EditState, events: seq<EditEvent>)
    requires s.ctrls == 0
    ensures Replay(s, events).ctrls == 0
    ensures Replay(s, events).copied == s.copied
    ensures Replay(s, events).pasting ==> s.pasting
    ensures Spent(s, events) == 0
    decreases |events|
  {
    if events != [] {
      OutOfCtrlsFreezesKeys(Step(s, events[0]), events[1..]);
    }
  }

  /** A second Ctrl+V before any commit spends a second ctrl. */
  lemma ArmTwiceSpendsTwice(s: EditState)
    requires s.ctrls >= 2 && Truthy(s.copied)
    ensures Replay(s, [KeyDownV(true), KeyDownV(true)]).ctrls == s.ctrls - 2
    ensures Replay(s, [KeyDownV(true), KeyDownV(true)]).pasting
  {
    assert [KeyDownV(true), KeyDownV(true)][1..] == [KeyDownV(true)];
  }

  /** Ctrl+C with a ctrl left spends it even when nothing has been selected, and empties the buffer. */
  lemma CopyWithoutSelectionSpends(s: EditState)
    requires s.ctrls > 0 && s.selected.None?
    ensures Copy(s, true).ctrls == s.ctrls - 1
    ensures Copy(s, true).copied.None?
  {
  }

  /**
   * Pressing on a cell that holds a tile never disarms a paste, so one armed
   * paste survives any number of presses on occupied cells and is committed
   * by the first press on an empty cell.
   */
  lemma {:induction false} PasteWaitsForEmptyCell(s: EditState, presses: seq<EditEvent>)
    requires s.pasting
    requires forall i :: 0 <= i < |presses| ==> presses[i].PointerAt? && presses[i].under.Tile?
    ensures Replay(s, presses).pasting
    ensures Replay(s, presses).ctrls == s.ctrls && Replay(s, presses).copied == s.copied
    ensures !Replay(s, presses + [PointerAt(Empty, true)]).pasting
    decreases |presses|
  {
    if presses == [] {
      assert presses + [PointerAt(Empty, true)] == [PointerAt(Empty, true)];
    } else {
      assert (presses + [PointerAt(Empty, true)])[1..] == presses[1..] + [PointerAt(Empty, true)];
      PasteWaitsForEmptyCell(Step(s, presses[0]), presses[1..]);
    }
  }
}
