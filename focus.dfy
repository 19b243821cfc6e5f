/** Keyboard navigation of the subcategory dropdown, `handleSubcategoryKeydown`
    (app.js:411-498): the index of the highlighted entry, `currentFocusedIndex`, with -1
    for "none", moved cyclically by Tab / Shift+Tab and the arrow keys. Enter picks the
    highlighted entry, which closes the list, and Escape closes the list. The transition is a function of the
    index, the key, whether the list is shown and how many entries it holds. */
module Focus {
  import opened Wrappers
  import opened Arith

  datatype Key = Tab(shift: bool) | ArrowDown | ArrowUp | Enter | Escape | OtherKey

  /** What one key press does: the new index, the entry that gets highlighted, the entry
      that is picked, and whether the list is closed. */
  datatype Outcome = Outcome(index: int, highlighted: Option<nat>, selected: Option<nat>, closes: bool)

  /** One step forward, wrapping from the end to the first entry. */
  function Forward(index: int, count: nat): int
  {
    if index + 1 >= count then 0 else index + 1
  }

  /** One step back, wrapping from before the first entry to the last. */
  function Backward(index: int, count: nat): int
  {
    if index - 1 < 0 then count - 1 else index - 1
  }

  /** The entry at `index`, if `index` names one. */
  function Entry(index: int, count: nat): Option<nat>
  {
    if 0 <= index < count then Some(index) else None
  }

  function KeyDown(index: int, key: Key, shown: bool, count: nat): Outcome
  {
    var idle := Outcome(index, None, None, false);
    if !shown || count == 0 then idle
    else match key
      case Tab(shift) =>
        var i := if shift then Backward(index, count) else Forward(index, count);
        Outcome(i, Entry(i, count), None, false)
      case ArrowDown =>
        var i := Forward(index, count);
        Outcome(i, Entry(i, count), None, false)
      case ArrowUp =>
        var i := Backward(index, count);
        Outcome(i, Entry(i, count), None, false)
      case Enter =>
        if 0 <= index < count then Outcome(-1, None, Some(index), true) else idle
      case Escape => Outcome(-1, None, None, true)
      case OtherKey => idle
  }

  /** The index is either -1 or names an entry of the list. */
  predicate InRange(index: int, count: nat)
  {
    -1 <= index < count
  }

  /** Keys do nothing while the list is hidden or empty. */
  lemma HiddenOrEmptyIgnoresKeys(index: int, key: Key, shown: bool, count: nat)
    requires !shown || count == 0
    ensures KeyDown(index, key, shown, count) == Outcome(index, None, None, false)
  {
  }

  /** Every key keeps the index in range, and a move always highlights an entry. */
  lemma KeyDownKeepsRange(index: int, key: Key, shown: bool, count: nat)
    requires InRange(index, count)
    ensures InRange(KeyDown(index, key, shown, count).index, count)
    ensures var o := KeyDown(index, key, shown, count);
      shown && count > 0 && (key.Tab? || key.ArrowDown? || key.ArrowUp?) ==> o.highlighted == Some(o.index)
  {
  }

  /** From any index not below -1, a forward step lands on an entry; from any index not
      past the end, a backward step does. */
  lemma StepsLandOnEntries(index: int, count: nat)
    requires count > 0
    ensures index >= -1 ==> 0 <= Forward(index, count) < count
    ensures index <= count ==> 0 <= Backward(index, count) < count
  {
  }

  /** A stale index beyond the end (left over from a longer list) makes a backward step
      highlight nothing. */
  lemma StaleIndexHighlightsNothing(count: nat)
    requires count > 0
    ensures KeyDown(count + 1, ArrowUp, true, count).highlighted == None
  {
  }

  /** Shift+Tab undoes Tab, and Arrow Up undoes Arrow Down, on any entry. */
  lemma BackwardUndoesForward(index: int, count: nat)
    requires 0 <= index < count
    ensures Backward(Forward(index, count), count) == index
    ensures Forward(Backward(index, count), count) == index
  {
  }

  /** `k` forward steps from an entry. */
  function ForwardSteps(index: int, count: nat, k: nat): int
  {
    if k == 0 then index else Forward(ForwardSteps(index, count, k - 1), count)
  }

  /** Adding one to `a` moves its remainder one step forward, cyclically. */
  lemma ModNext(a: int, n: int)
    requires n > 0
    ensures (a + 1) % n == if a % n + 1 < n then a % n + 1 else 0
  {
    var q := a / n;
    if a % n + 1 < n {
      ModUnique(a + 1, n, q, a % n + 1);
    } else {
      assert a + 1 == (q + 1) * n + 0;
      ModUnique(a + 1, n, q + 1, 0);
    }
  }

  /** `k` forward steps from entry `index` reach entry `(index + k) mod count`. */
  lemma {:induction false} ForwardStepsWrap(index: int, count: nat, k: nat)
    requires 0 <= index < count
    ensures ForwardSteps(index, count, k) == (index + k) % count
  {
    if k == 0 {
      ModUnique(index, count, 0, index);
    } else {
      ForwardStepsWrap(index, count, k - 1);
      ModNext(index + k - 1, count);
    }
  }

  /** A full round of Tab presses returns to the entry it started from. */
  lemma FullCycle(index: int, count: nat)
    requires 0 <= index < count
    ensures ForwardSteps(index, count, count) == index
  {
    ForwardStepsWrap(index, count, count);
    ModUnique(index + count, count, 1, index);
  }

  /** Enter on a highlighted entry picks it, closes the list and resets the index to -1
      (the click selects the entry and hides the dropdown); with no entry highlighted it
      does nothing. Escape always resets to -1 and closes the list. */
  lemma EnterAndEscape(index: int, shown: bool, count: nat)
    requires shown && count > 0
    ensures KeyDown(index, Enter, shown, count)
      == (if 0 <= index < count then Outcome(-1, None, Some(index), true) else Outcome(index, None, None, false))
    ensures KeyDown(index, Escape, shown, count) == Outcome(-1, None, None, true)
  {
  }
}
