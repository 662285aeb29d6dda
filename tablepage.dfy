/**
 * The checkbox handling of the table script: one page holds an array of row
 * checkboxes, the optional "select all" and "select all on page" boxes, the
 * optional count field and the optional action menu. A missing element that
 * the script dereferences raises a TypeError in the browser; the methods
 * return `ok == false` for it, with the state as the script left it at
 * the throw.
 */
module TableScriptPage {
  import opened Wrappers
  import opened Strings

  /** A row checkbox. */
  datatype Box = Box(checked: bool, disabled: bool)

  /** The number of checked boxes (`.select-checkbox:checked`). */
  function CheckedCount(s: seq<Box>): nat
    decreases |s|
  {
    if s == [] then 0 else CheckedCount(s[..|s| - 1]) + (if s[|s| - 1].checked then 1 else 0)
  }

  /** The count is at most the number of boxes; it is zero exactly when no box
      is checked and equals the number of boxes exactly when all are. */
  lemma {:induction false} CheckedCountBounds(s: seq<Box>)
    ensures CheckedCount(s) <= |s|
    ensures CheckedCount(s) == 0 <==> forall i :: 0 <= i < |s| ==> !s[i].checked
    ensures CheckedCount(s) == |s| <==> forall i :: 0 <= i < |s| ==> s[i].checked
    decreases |s|
  {
    if s != [] {
      var init := s[..|s| - 1];
      CheckedCountBounds(init);
      assert forall i :: 0 <= i < |init| ==> init[i] == s[i];
    }
  }

  /** The values of the page's controls other than the row checkboxes. */
  datatype Controls = Controls(
    lastChecked: Option<nat>,
    selAllChecked: bool,
    selAllShown: bool,
    selAllPageChecked: bool,
    selAllPageDisabled: bool,
    countText: string,
    actionMenuDisabled: bool,
    actionMenuEnabled: bool)

  /** What `countChecked` leaves behind: nothing changes while "select all" is
      checked; otherwise the count field shows the number of checked boxes and
      the action menu is disabled iff that number is zero. */
  function Counted(c: Controls, s: seq<Box>, hasCountField: bool, hasActionMenu: bool): Controls {
    if c.selAllChecked then c
    else
      var n := CheckedCount(s);
      c.(countText := if hasCountField then NatToString(n) else c.countText,
         actionMenuDisabled := if hasActionMenu then n == 0 else c.actionMenuDisabled,
         actionMenuEnabled := if hasActionMenu then n > 0 else c.actionMenuEnabled)
  }

  /** With "select all" unchecked, the action menu after `countChecked` is
      disabled exactly when no box is checked and enabled exactly when one is,
      and the count field's text reads back as the number of checked boxes. */
  lemma CountedMenu(c: Controls, s: seq<Box>, hasCountField: bool, hasActionMenu: bool)
    requires !c.selAllChecked
    ensures var r := Counted(c, s, hasCountField, hasActionMenu);
      hasActionMenu ==>
        (r.actionMenuDisabled <==> forall i :: 0 <= i < |s| ==> !s[i].checked) &&
        (r.actionMenuEnabled <==> exists i :: 0 <= i < |s| && s[i].checked)
    ensures var r := Counted(c, s, hasCountField, hasActionMenu);
      hasCountField ==> AllDigits(r.countText) && DigitsValue(r.countText) == CheckedCount(s)
    ensures Counted(c, s, hasCountField, hasActionMenu).lastChecked == c.lastChecked
  {
    CheckedCountBounds(s);
    DigitsValueOfNatToString(CheckedCount(s));
  }

  class Page {
    const boxes: array<Box>
    const hasSelAll: bool
    const hasSelAllPage: bool
    const hasCountField: bool
    const hasActionMenu: bool
    /** The index of the last clicked box (`null` is `None`). */
    var lastChecked: Option<nat>
    var selAllChecked: bool
    /** Whether the "select all" box's container is displayed. */
    var selAllShown: bool
    var selAllPageChecked: bool
    var selAllPageDisabled: bool
    var countText: string
    var actionMenuDisabled: bool
    var actionMenuEnabled: bool

    ghost predicate Valid()
      reads this
    {
      lastChecked.Some? ==> lastChecked.value < boxes.Length
    }

    function State(): Controls
      reads this
    {
      Controls(lastChecked, selAllChecked, selAllShown, selAllPageChecked, selAllPageDisabled,
        countText, actionMenuDisabled, actionMenuEnabled)
    }

    constructor (initial: seq<Box>, selAll: bool, selAllPage: bool, countField: bool, actionMenu: bool)
      ensures Valid() && fresh(boxes) && boxes[..] == initial
      ensures hasSelAll == selAll && hasSelAllPage == selAllPage
      ensures hasCountField == countField && hasActionMenu == actionMenu
      ensures State() == Controls(None, false, false, false, false, "", false, false)
    {
      boxes := new Box[|initial|](i requires 0 <= i < |initial| => initial[i]);
      hasSelAll := selAll;
      hasSelAllPage := selAllPage;
      hasCountField := countField;
      hasActionMenu := actionMenu;
      lastChecked := None;
      selAllChecked := false;
      selAllShown := false;
      selAllPageChecked := false;
      selAllPageDisabled := false;
      countText := "";
      actionMenuDisabled := false;
      actionMenuEnabled := false;
    }

    /** The number of checked row boxes. */
    method Checked() returns (n: nat)
      ensures n == CheckedCount(boxes[..])
    {
      n := 0;
      var i := 0;
      while i < boxes.Length
        invariant 0 <= i <= boxes.Length
        invariant n == CheckedCount(boxes[..i])
      {
        assert boxes[..i + 1][..i] == boxes[..i];
        if boxes[i].checked {
          n := n + 1;
        }
        i := i + 1;
      }
      assert boxes[..i] == boxes[..];
    }

    /** `countChecked`. */
    method CountChecked() returns (ok: bool)
      modifies this
      ensures ok == hasSelAll
      ensures ok ==> State() == Counted(old(State()), boxes[..], hasCountField, hasActionMenu)
      ensures !ok ==> State() == old(State())
    {
      if !hasSelAll {
        return false;
      }
      ok := true;
      if selAllChecked {
        return;
      }
      var count := Checked();
      if hasCountField {
        countText := NatToString(count);
      }
      if hasActionMenu {
        actionMenuDisabled := count == 0;
        actionMenuEnabled := count > 0 || selAllChecked;
      }
    }

    /** Sets the controls other than the row boxes to `c`. */
    method SetControls(c: Controls)
      modifies this
      ensures State() == c
    {
      lastChecked, selAllChecked, selAllShown, selAllPageChecked := c.lastChecked, c.selAllChecked,
        c.selAllShown, c.selAllPageChecked;
      selAllPageDisabled, countText, actionMenuDisabled, actionMenuEnabled := c.selAllPageDisabled,
        c.countText, c.actionMenuDisabled, c.actionMenuEnabled;
    }

    /** Sets `checked` of every row box to `v`. */
    method SetAllChecked(v: bool)
      modifies boxes
      ensures forall i :: 0 <= i < boxes.Length ==> boxes[i] == old(boxes[i]).(checked := v)
    {
      var i := 0;
      while i < boxes.Length
        invariant 0 <= i <= boxes.Length
        invariant forall j :: 0 <= j < i ==> boxes[j] == old(boxes[j]).(checked := v)
        invariant forall j :: i <= j < boxes.Length ==> boxes[j] == old(boxes[j])
      {
        boxes[i] := boxes[i].(checked := v);
        i := i + 1;
      }
    }

    /** Sets `disabled` of every row box to `v`. */
    method SetAllDisabled(v: bool)
      modifies boxes
      ensures forall i :: 0 <= i < boxes.Length ==> boxes[i] == old(boxes[i]).(disabled := v)
    {
      var i := 0;
      while i < boxes.Length
        invariant 0 <= i <= boxes.Length
        invariant forall j :: 0 <= j < i ==> boxes[j] == old(boxes[j]).(disabled := v)
        invariant forall j :: i <= j < boxes.Length ==> boxes[j] == old(boxes[j])
      {
        boxes[i] := boxes[i].(disabled := v);
        i := i + 1;
      }
    }

    /** Sets `checked` of the boxes `lo..hi` (inclusive) to `v`. */
    method SetRangeChecked(lo: nat, hi: nat, v: bool)
      requires lo <= hi < boxes.Length
      modifies boxes
      ensures forall i :: 0 <= i < boxes.Length ==>
        boxes[i] == if lo <= i <= hi then old(boxes[i]).(checked := v) else old(boxes[i])
    {
      var i := lo;
      while i <= hi
        invariant lo <= i <= hi + 1
        invariant forall j :: 0 <= j < boxes.Length ==>
          boxes[j] == if lo <= j < i then old(boxes[j]).(checked := v) else old(boxes[j])
      {
        boxes[i] := boxes[i].(checked := v);
        i := i + 1;
      }
    }

    /** `selectAllPage`: every row box takes the state of "select all on page",
        the "select all" box is shown iff it is checked, the count is
        refreshed and `lastChecked` is cleared. */
    method SelectAllPage() returns (ok: bool)
      requires Valid() && hasSelAllPage
      modifies this, boxes
      ensures Valid()
      ensures ok == hasSelAll
      ensures !ok ==> State() == old(State()) && boxes[..] == old(boxes[..])
      ensures ok ==> forall i :: 0 <= i < boxes.Length ==>
        boxes[i] == old(boxes[i]).(checked := old(selAllPageChecked))
      ensures ok ==> State() == Counted(old(State()).(selAllShown := old(selAllPageChecked), lastChecked := None),
        boxes[..], hasCountField, hasActionMenu)
    {
      if !hasSelAll {
        return false;
      }
      var checked := selAllPageChecked;
      selAllShown := checked;
      SetAllChecked(checked);
      // As in `SelectAll`, clearing `lastChecked` before `countChecked` leaves the same state.
      lastChecked := None;
      ok := CountChecked();
    }

    /** `selectAll`: with "select all" checked the count reads `All` and
        "select all on page" is disabled, otherwise it is enabled; every row
        box is disabled iff "select all" is checked; then the count is
        refreshed and `lastChecked` cleared. */
    method SelectAll() returns (ok: bool)
      requires Valid() && hasSelAll
      modifies this, boxes
      ensures Valid()
      ensures ok == (hasCountField || !old(selAllChecked))
      ensures !ok ==> State() == old(State()) && boxes[..] == old(boxes[..])
      ensures ok ==> forall i :: 0 <= i < boxes.Length ==>
        boxes[i] == old(boxes[i]).(disabled := old(selAllChecked))
      ensures ok ==> State() == Counted(
        old(State()).(
          countText := if old(selAllChecked) then "All" else old(countText),
          selAllPageDisabled := if hasSelAllPage then old(selAllChecked) else old(selAllPageDisabled),
          lastChecked := None),
        boxes[..], hasCountField, hasActionMenu)
    {
      var checked := selAllChecked;
      if checked && !hasCountField {
        return false;
      }
      // `countChecked` neither reads nor writes `lastChecked`, so clearing it
      // first leaves the same state as the script's order.
      SetControls(State().(
        countText := if checked then "All" else countText,
        selAllPageDisabled := if hasSelAllPage then checked else selAllPageDisabled,
        lastChecked := None));
      SetAllDisabled(checked);
      ok := CountChecked();
    }

    /** The checkbox part of `tableClick` for a click on box `c`, whose
        `checked` the browser has already toggled. "Select all on page" is
        unchecked; a shift-click with a previous click sets every box between
        the two, inclusive, to the clicked box's state; the clicked box becomes
        `lastChecked`; then the count is refreshed. */
    method ClickCheckbox(c: nat, shift: bool) returns (ok: bool)
      requires Valid() && c < boxes.Length
      modifies this, boxes
      ensures Valid()
      ensures ok == hasSelAll
      ensures old(lastChecked).Some? && shift ==>
        var lo := Min(c, old(lastChecked).value);
        var hi := Max(c, old(lastChecked).value);
        forall i :: 0 <= i < boxes.Length ==>
          boxes[i] == if lo <= i <= hi then old(boxes[i]).(checked := old(boxes[c].checked)) else old(boxes[i])
      ensures !(old(lastChecked).Some? && shift) ==> boxes[..] == old(boxes[..])
      ensures ok ==> State() == Counted(Clicked(old(State()), c, hasSelAllPage), boxes[..], hasCountField, hasActionMenu)
      ensures !ok ==> State() == Clicked(old(State()), c, hasSelAllPage)
    {
      // The boxes are set first: the script unchecks "select all on page"
      // before, but the two steps touch different elements.
      if lastChecked.Some? && shift {
        var start := c;
        var end := lastChecked.value;
        SetRangeChecked(Min(start, end), Max(start, end), boxes[c].checked);
      }
      SetControls(Clicked(State(), c, hasSelAllPage));
      ok := CountChecked();
    }
  }

  function Min(a: nat, b: nat): nat { if a <= b then a else b }
  function Max(a: nat, b: nat): nat { if a <= b then b else a }

  /** The controls after a click on box `c`, before the count is refreshed:
      "select all on page" (when present) is unchecked and `c` is the last clicked box. */
  function Clicked(s: Controls, c: nat, hasSelAllPage: bool): Controls {
    s.(selAllPageChecked := if hasSelAllPage then false else s.selAllPageChecked, lastChecked := Some(c))
  }

  /** After "select all on page", the count is the number of boxes when it is
      checked and zero when it is not. */
  lemma UniformCount(s: seq<Box>, v: bool)
    requires forall i :: 0 <= i < |s| ==> s[i].checked == v
    ensures CheckedCount(s) == if v then |s| else 0
  {
    CheckedCountBounds(s);
  }
}
