/**
 * The header navigation controller as state transitions. The part of the
 * DOM the controller reads or writes is a value: every element with an id
 * the controller can open (the `.js-navigation__secondary` dropdowns and the
 * other toggle targets), the `aria-expanded` attribute of every control, the
 * classes of every `.js-navigation__item`, and the body's `on--navigation`
 * class. Element relations the controller finds with `closest` or
 * `querySelector` are part of a fixed layout. Each listener is a function
 * from the state before the event to the state after it.
 */
module NavigationModel {
  import opened Wrappers

  /** Below this viewport width the hover listeners do nothing. */
  const DesktopBreakpoint: int := 1000

  /** The inline style properties the controller writes on a dropdown. */
  datatype InlineStyle = InlineStyle(visibility: string, clip: string, opacity: string)

  /** The style `closeAllDropdowns` writes. */
  const ClosedStyle := InlineStyle("hidden", "rect(0, 0, 0, 0)", "0")
  /** The style initialisation writes (its clip value is spelt without commas). */
  const ResetStyle := InlineStyle("hidden", "rect(0 0 0 0)", "0")
  /** The style a hovered dropdown is given. */
  const OpenStyle := InlineStyle("visible", "auto", "1")

  /** A styled element is shown / hidden by its `visibility`. */
  predicate Hidden(st: InlineStyle) { st.visibility == "hidden" }
  predicate Shown(st: InlineStyle) { st.visibility == "visible" }

  /** An element with an id: its classes `is-open`, `is--active` and
      `is-active` (three distinct classes) and its inline style. */
  datatype Panel = Panel(isOpen: bool, isDashActive: bool, isActive: bool, style: InlineStyle)

  /** A `.js-navigation__item`: its classes `is--active` and `active`. */
  datatype NavItem = NavItem(isDashActive: bool, active: bool)

  /** An element carrying toggle attributes (`data-target`, `href`,
      `aria-controls`) and the index of the nav item that encloses it. */
  datatype Control = Control(dataTarget: Option<string>, href: Option<string>,
                             ariaControls: Option<string>, navItem: Option<nat>)

  /** What the controller never changes: the controls in document order,
      the ids of the `.js-navigation__secondary` dropdowns in document order,
      the desktop button (`.desktop-nav[data-target]`) of each nav item, and
      whether the page has a `#menu-header`. */
  datatype Layout = Layout(controls: seq<Control>, secondaries: seq<string>,
                           desktopButtons: seq<Option<nat>>, hasHeader: bool)

  /** What the controller changes: elements by id, each control's
      `aria-expanded` (absent or a string), the nav items, the body's
      `on--navigation` class, and whether the listeners are installed. */
  datatype PageState = PageState(panels: map<string, Panel>, ariaExpanded: seq<Option<string>>,
                                 items: seq<NavItem>, onNavigation: bool, listening: bool)

  /** A state fits its layout: every dropdown exists, there is one attribute
      per control and one nav item per desktop-button slot, and every
      relation points at an existing element. */
  predicate WellFormed(l: Layout, s: PageState) {
    && (forall i :: 0 <= i < |l.secondaries| ==> l.secondaries[i] in s.panels)
    && "" !in s.panels
    && |s.ariaExpanded| == |l.controls|
    && |s.items| == |l.desktopButtons|
    && (forall c :: 0 <= c < |l.controls| && l.controls[c].navItem.Some? ==>
          l.controls[c].navItem.value < |s.items|)
    && (forall k :: 0 <= k < |l.desktopButtons| && l.desktopButtons[k].Some? ==>
          l.desktopButtons[k].value < |l.controls| && l.controls[l.desktopButtons[k].value].dataTarget.Some?)
  }

  /** Two states have the same elements. */
  predicate SameShape(s: PageState, r: PageState) {
    r.panels.Keys == s.panels.Keys && |r.ariaExpanded| == |s.ariaExpanded| && |r.items| == |s.items|
  }

  /** `setAttribute('aria-expanded', b)` stores the boolean as text. */
  function BoolText(b: bool): string { if b then "true" else "false" }

  /** `getAttribute('aria-expanded') === 'true'`. */
  predicate IsTrue(a: Option<string>) { a == Some("true") }

  /** A character that may start a CSS name (section 4.2 of CSS Syntax
      Module Level 3): a letter, '_' or any non-ASCII character. */
  predicate NameStart(c: char) {
    ('a' <= c <= 'z') || ('A' <= c <= 'Z') || c == '_' || c >= '\U{80}'
  }

  /** A character that may continue a CSS name: a name-start character, a
      digit or '-'. */
  predicate NameChar(c: char) {
    NameStart(c) || ('0' <= c <= '9') || c == '-'
  }

  /** A CSS identifier without escapes (section 4.3.9 of CSS Syntax Module
      Level 3): name characters only, starting with a name-start character,
      with '-' and a name-start character, or with "--". Only such an `x`
      makes `#x` a valid id selector. */
  predicate IsCssIdent(x: string) {
    && x != []
    && (forall i :: 0 <= i < |x| ==> NameChar(x[i]))
    && (NameStart(x[0]) || (x[0] == '-' && |x| >= 2 && (NameStart(x[1]) || x[1] == '-')))
  }

  /** `document.querySelector(selector)`: a selector `#x`, with `x` a CSS
      identifier, finds the element with id `x`; no other selector finds an
      element in the model. When `#x` is an invalid selector (`x` such as
      `1a`, empty, or `/contact`) the browser throws; at both places the
      controller resolves a selector, that throw leaves the page as "found
      nothing" does. Valid non-identifier forms such as `#a.b` or `#a b`
      also find nothing here, which the browser does not promise. */
  function Resolve(s: PageState, selector: string): (r: Option<string>)
    ensures r.Some? ==> r.value in s.panels && IsCssIdent(r.value) && selector == "#" + r.value
    ensures r.None? ==> forall id :: id in s.panels && IsCssIdent(id) ==> selector != "#" + id
  {
    if |selector| >= 1 && selector[0] == '#' && IsCssIdent(selector[1..]) && selector[1..] in s.panels
    then Some(selector[1..])
    else None
  }

  /** In the model, a selector `#x` whose `x` is not a CSS identifier finds
      nothing, whatever the page holds. */
  lemma NonIdentifierFindsNothing(s: PageState, x: string)
    requires !IsCssIdent(x)
    ensures Resolve(s, "#" + x).None?
  {
    assert ("#" + x)[1..] == x;
  }

  /** The first control at or after `from` whose `data-target` is `value`. */
  function FirstControlFrom(cs: seq<Control>, value: string, from: nat): (r: Option<nat>)
    requires from <= |cs|
    ensures r.Some? ==> from <= r.value < |cs| && cs[r.value].dataTarget == Some(value)
                        && forall c :: from <= c < r.value ==> cs[c].dataTarget != Some(value)
    ensures r.None? ==> forall c :: from <= c < |cs| ==> cs[c].dataTarget != Some(value)
    decreases |cs| - from
  {
    if from == |cs| then None
    else if cs[from].dataTarget == Some(value) then Some(from)
    else FirstControlFrom(cs, value, from + 1)
  }

  /** `document.querySelector('[data-target="value"]')`: the first control,
      in document order, whose `data-target` is exactly `value`. */
  function ControlFor(l: Layout, value: string): (r: Option<nat>)
    ensures r.Some? ==> r.value < |l.controls| && l.controls[r.value].dataTarget == Some(value)
                        && forall c :: 0 <= c < r.value ==> l.controls[c].dataTarget != Some(value)
    ensures r.None? <==> forall c :: 0 <= c < |l.controls| ==> l.controls[c].dataTarget != Some(value)
  {
    FirstControlFrom(l.controls, value, 0)
  }

  // ---------------------------------------------------------------------
  // closeAllDropdowns
  // ---------------------------------------------------------------------

  /** A dropdown after `closeAllDropdowns` has closed it. */
  function Closed(p: Panel): Panel {
    p.(isOpen := false, isDashActive := false, style := ClosedStyle)
  }

  /** Closing one dropdown: its own classes and style, then the control
      whose `data-target` names it and that control's nav item. */
  function CloseDropdown(l: Layout, s: PageState, id: string): (r: PageState)
    requires WellFormed(l, s) && id in s.panels
    ensures WellFormed(l, r) && SameShape(s, r)
  {
    var s1 := s.(panels := s.panels[id := Closed(s.panels[id])]);
    match ControlFor(l, "#" + id)
    case None => s1
    case Some(c) =>
      var s2 := s1.(ariaExpanded := s1.ariaExpanded[c := Some("false")]);
      match l.controls[c].navItem
      case None => s2
      case Some(k) => s2.(items := s2.items[k := s2.items[k].(isDashActive := false)])
  }

  /** The dropdowns among `ids` that are open, in order
      (`querySelectorAll('.js-navigation__secondary.is-open')`). */
  function OpenAmong(ids: seq<string>, s: PageState): (r: seq<string>)
    requires forall i :: 0 <= i < |ids| ==> ids[i] in s.panels
    ensures forall x :: x in r <==> x in ids && s.panels[x].isOpen
    ensures forall i :: 0 <= i < |r| ==> r[i] in s.panels
  {
    if ids == [] then []
    else
      var n := |ids| - 1;
      OpenAmong(ids[..n], s) + (if s.panels[ids[n]].isOpen then [ids[n]] else [])
  }

  /** Closing each of `ids` in turn. */
  function CloseEach(l: Layout, s: PageState, ids: seq<string>): (r: PageState)
    requires WellFormed(l, s)
    requires forall i :: 0 <= i < |ids| ==> ids[i] in s.panels
    ensures WellFormed(l, r) && SameShape(s, r)
  {
    if ids == [] then s
    else
      var n := |ids| - 1;
      CloseDropdown(l, CloseEach(l, s, ids[..n]), ids[n])
  }

  /** Closing one more of `ids`: the next dropdown still exists and is
      closed after the ones before it. */
  lemma CloseEachStep(l: Layout, s: PageState, ids: seq<string>, i: nat)
    requires WellFormed(l, s)
    requires forall j :: 0 <= j < |ids| ==> ids[j] in s.panels
    requires i < |ids|
    ensures ids[i] in CloseEach(l, s, ids[..i]).panels
    ensures CloseEach(l, s, ids[..i + 1]) == CloseDropdown(l, CloseEach(l, s, ids[..i]), ids[i])
  {
    assert ids[..i + 1][..i] == ids[..i];
  }

  /** The open dropdowns of a state. */
  function OpenDropdowns(l: Layout, s: PageState): seq<string>
    requires WellFormed(l, s)
  {
    OpenAmong(l.secondaries, s)
  }

  /** `closeAllDropdowns()`. */
  function CloseAll(l: Layout, s: PageState): (r: PageState)
    requires WellFormed(l, s)
    ensures WellFormed(l, r) && SameShape(s, r)
  {
    CloseEach(l, s, OpenDropdowns(l, s))
  }

  /** The controls whose `aria-expanded` closing `ids` resets. */
  function ClosedControls(l: Layout, ids: seq<string>): set<nat> {
    set id | id in ids && ControlFor(l, "#" + id).Some? :: ControlFor(l, "#" + id).value
  }

  /** The nav items of a set of controls. */
  function ItemsOf(l: Layout, cs: set<nat>): set<nat> {
    set c | c in cs && c < |l.controls| && l.controls[c].navItem.Some? :: l.controls[c].navItem.value
  }

  /** The nav items whose `is--active` closing `ids` removes. */
  function ClosedItems(l: Layout, ids: seq<string>): set<nat> {
    ItemsOf(l, ClosedControls(l, ids))
  }

  /** The control closing `id` resets, if any. */
  function ControlClosedBy(l: Layout, id: string): set<nat> {
    if ControlFor(l, "#" + id).Some? then {ControlFor(l, "#" + id).value} else {}
  }

  /** Closing one more dropdown adds its control and that control's nav item. */
  lemma ClosedSetsStep(l: Layout, ids: seq<string>)
    requires ids != []
    ensures var n := |ids| - 1;
      && ClosedControls(l, ids) == ClosedControls(l, ids[..n]) + ControlClosedBy(l, ids[n])
      && ClosedItems(l, ids) == ClosedItems(l, ids[..n]) + ItemsOf(l, ControlClosedBy(l, ids[n]))
  {
    var n := |ids| - 1;
    assert forall id :: id in ids <==> id in ids[..n] || id == ids[n] by {
      assert ids == ids[..n] + [ids[n]];
    }
  }

  /** The nav item closing `id` touches is the one `ItemClosedBy` names. */
  lemma ItemsOfOneClosed(l: Layout, id: string)
    ensures forall k :: k in ItemsOf(l, ControlClosedBy(l, id)) <==> ItemClosedBy(l, id, k)
  {
    forall k | ItemClosedBy(l, id, k)
      ensures k in ItemsOf(l, ControlClosedBy(l, id))
    {
      assert ControlFor(l, "#" + id).value in ControlClosedBy(l, id);
    }
  }

  /** What closing one dropdown does, element by element. */
  lemma CloseDropdownEffect(l: Layout, s: PageState, id: string)
    requires WellFormed(l, s) && id in s.panels
    ensures var r := CloseDropdown(l, s, id);
      && r.panels == s.panels[id := Closed(s.panels[id])]
      && (forall c :: 0 <= c < |s.ariaExpanded| ==>
            r.ariaExpanded[c] == if ControlFor(l, "#" + id) == Some(c) then Some("false") else s.ariaExpanded[c])
      && (forall k :: 0 <= k < |s.items| ==>
            r.items[k] == if ItemClosedBy(l, id, k) then s.items[k].(isDashActive := false) else s.items[k])
      && r.onNavigation == s.onNavigation && r.listening == s.listening
  {
  }

  /** Closing `id` removes `is--active` from nav item `k`. */
  predicate ItemClosedBy(l: Layout, id: string, k: nat) {
    var c := ControlFor(l, "#" + id);
    c.Some? && c.value < |l.controls| && l.controls[c.value].navItem == Some(k)
  }

  /** Closing each of `ids` closes exactly the named elements. */
  lemma {:induction false} CloseEachPanels(l: Layout, s: PageState, ids: seq<string>)
    requires WellFormed(l, s)
    requires forall i :: 0 <= i < |ids| ==> ids[i] in s.panels
    ensures var r := CloseEach(l, s, ids);
      forall id :: id in s.panels ==>
        r.panels[id] == if id in ids then Closed(s.panels[id]) else s.panels[id]
  {
    if ids != [] {
      var n := |ids| - 1;
      CloseEachPanels(l, s, ids[..n]);
      CloseDropdownEffect(l, CloseEach(l, s, ids[..n]), ids[n]);
      assert forall id :: id in ids <==> id in ids[..n] || id == ids[n] by {
        assert ids == ids[..n] + [ids[n]];
      }
    }
  }

  /** Closing each of `ids` resets `aria-expanded` exactly on their controls. */
  lemma {:induction false} CloseEachControls(l: Layout, s: PageState, ids: seq<string>)
    requires WellFormed(l, s)
    requires forall i :: 0 <= i < |ids| ==> ids[i] in s.panels
    ensures var r := CloseEach(l, s, ids);
      forall c :: 0 <= c < |s.ariaExpanded| ==>
        r.ariaExpanded[c] == if c in ClosedControls(l, ids) then Some("false") else s.ariaExpanded[c]
  {
    if ids != [] {
      var n := |ids| - 1;
      CloseEachControls(l, s, ids[..n]);
      CloseDropdownEffect(l, CloseEach(l, s, ids[..n]), ids[n]);
      ClosedSetsStep(l, ids);
    }
  }

  /** Closing each of `ids` removes `is--active` exactly from their
      controls' nav items. */
  lemma {:induction false} CloseEachItems(l: Layout, s: PageState, ids: seq<string>)
    requires WellFormed(l, s)
    requires forall i :: 0 <= i < |ids| ==> ids[i] in s.panels
    ensures var r := CloseEach(l, s, ids);
      forall k :: 0 <= k < |s.items| ==>
        r.items[k] == if k in ClosedItems(l, ids) then s.items[k].(isDashActive := false) else s.items[k]
  {
    if ids != [] {
      var n := |ids| - 1;
      CloseEachItems(l, s, ids[..n]);
      CloseDropdownEffect(l, CloseEach(l, s, ids[..n]), ids[n]);
      ClosedSetsStep(l, ids);
      ItemsOfOneClosed(l, ids[n]);
    }
  }

  /** Closing each of `ids` leaves the body and the listeners alone. */
  lemma {:induction false} CloseEachKeepsBody(l: Layout, s: PageState, ids: seq<string>)
    requires WellFormed(l, s)
    requires forall i :: 0 <= i < |ids| ==> ids[i] in s.panels
    ensures CloseEach(l, s, ids).onNavigation == s.onNavigation
    ensures CloseEach(l, s, ids).listening == s.listening
  {
    if ids != [] {
      var n := |ids| - 1;
      CloseEachKeepsBody(l, s, ids[..n]);
    }
  }

  /** What closing each of `ids` does: each named element is closed; each
      control found for one of them gets `aria-expanded="false"`; each of
      their nav items loses `is--active`; nothing else changes. */
  lemma CloseEachEffect(l: Layout, s: PageState, ids: seq<string>)
    requires WellFormed(l, s)
    requires forall i :: 0 <= i < |ids| ==> ids[i] in s.panels
    ensures var r := CloseEach(l, s, ids);
      && (forall id :: id in s.panels ==>
            r.panels[id] == if id in ids then Closed(s.panels[id]) else s.panels[id])
      && (forall c :: 0 <= c < |s.ariaExpanded| ==>
            r.ariaExpanded[c] == if c in ClosedControls(l, ids) then Some("false") else s.ariaExpanded[c])
      && (forall k :: 0 <= k < |s.items| ==>
            r.items[k] == if k in ClosedItems(l, ids) then s.items[k].(isDashActive := false) else s.items[k])
      && r.onNavigation == s.onNavigation && r.listening == s.listening
  {
    CloseEachPanels(l, s, ids);
    CloseEachControls(l, s, ids);
    CloseEachItems(l, s, ids);
    CloseEachKeepsBody(l, s, ids);
  }

  /** After `closeAllDropdowns` no dropdown is open. Each dropdown that was
      open has lost `is-open` and `is--active` and is hidden, the first
      control whose `data-target` names it has `aria-expanded="false"`, and
      that control's nav item has lost `is--active`; every other element,
      control and nav item is as it was, and so is the body. */
  lemma CloseAllEffect(l: Layout, s: PageState)
    requires WellFormed(l, s)
    ensures var r := CloseAll(l, s);
      && (forall i :: 0 <= i < |l.secondaries| ==> !r.panels[l.secondaries[i]].isOpen)
      && (forall id :: id in s.panels ==>
            r.panels[id] == if id in l.secondaries && s.panels[id].isOpen then Closed(s.panels[id]) else s.panels[id])
      && (forall id, c :: id in l.secondaries && s.panels[id].isOpen && ControlFor(l, "#" + id) == Some(c) ==>
            r.ariaExpanded[c] == Some("false")
            && (l.controls[c].navItem.Some? ==> !r.items[l.controls[c].navItem.value].isDashActive))
      && (forall c :: 0 <= c < |s.ariaExpanded| && c !in ClosedControls(l, OpenDropdowns(l, s)) ==>
            r.ariaExpanded[c] == s.ariaExpanded[c])
      && (forall k :: 0 <= k < |s.items| && k !in ClosedItems(l, OpenDropdowns(l, s)) ==>
            r.items[k] == s.items[k])
      && (forall k :: 0 <= k < |s.items| ==> r.items[k].active == s.items[k].active)
      && r.onNavigation == s.onNavigation && r.listening == s.listening
  {
    var open := OpenDropdowns(l, s);
    CloseEachEffect(l, s, open);
    var r := CloseAll(l, s);
    forall id, c | id in l.secondaries && s.panels[id].isOpen && ControlFor(l, "#" + id) == Some(c)
      ensures r.ariaExpanded[c] == Some("false")
      ensures l.controls[c].navItem.Some? ==> !r.items[l.controls[c].navItem.value].isDashActive
    {
      assert id in open;
      assert c in ClosedControls(l, open);
      if l.controls[c].navItem.Some? {
        assert l.controls[c].navItem.value in ClosedItems(l, open);
      }
    }
  }

  /** When none of `ids` is open, none is listed as open. */
  lemma {:induction false} OpenAmongNoneOpen(ids: seq<string>, s: PageState)
    requires forall i :: 0 <= i < |ids| ==> ids[i] in s.panels && !s.panels[ids[i]].isOpen
    ensures OpenAmong(ids, s) == []
  {
    if ids != [] {
      OpenAmongNoneOpen(ids[..|ids| - 1], s);
    }
  }

  /** Closing everything twice is closing it once. */
  lemma CloseAllIdempotent(l: Layout, s: PageState)
    requires WellFormed(l, s)
    ensures CloseAll(l, CloseAll(l, s)) == CloseAll(l, s)
  {
    var r := CloseAll(l, s);
    CloseAllEffect(l, s);
    OpenAmongNoneOpen(l.secondaries, r);
  }

  // ---------------------------------------------------------------------
  // toggleElement and the delegated toggle-click listener
  // ---------------------------------------------------------------------

  /** `toggleElement(targetId, button)` with the control `c` as button. */
  function Toggle(l: Layout, s: PageState, targetId: string, c: nat): (r: PageState)
    requires WellFormed(l, s) && c < |l.controls|
    ensures WellFormed(l, r) && SameShape(s, r)
  {
    match Resolve(s, targetId)
    case None => s
    case Some(id) =>
      var newState := !IsTrue(s.ariaExpanded[c]);
      var s1 := s.(ariaExpanded := s.ariaExpanded[c := Some(BoolText(newState))],
                   panels := s.panels[id := s.panels[id].(isOpen := newState)]);
      match l.controls[c].navItem
      case None => s1
      case Some(k) => s1.(items := s1.items[k := s1.items[k].(active := newState)])
  }

  /** A target that resolves to no element changes nothing. */
  lemma ToggleMissingTarget(l: Layout, s: PageState, targetId: string, c: nat)
    requires WellFormed(l, s) && c < |l.controls|
    requires forall id :: id in s.panels && IsCssIdent(id) ==> targetId != "#" + id
    ensures Toggle(l, s, targetId, c) == s
  {
  }

  /** In the model, a target `#x` whose `x` is not a CSS identifier changes
      nothing. For an invalid selector this is the browser's throw, which
      comes before `toggleElement` has changed anything. */
  lemma ToggleNonIdentifier(l: Layout, s: PageState, x: string, c: nat)
    requires WellFormed(l, s) && c < |l.controls|
    requires !IsCssIdent(x)
    ensures Toggle(l, s, "#" + x, c) == s
  {
    NonIdentifierFindsNothing(s, x);
  }

  /** On an existing target, `aria-expanded` becomes the negation of
      (previous value == "true"), and the target's `is-open` and the
      enclosing nav item's `active` become that same value; nothing else
      changes. */
  lemma ToggleExisting(l: Layout, s: PageState, id: string, c: nat)
    requires WellFormed(l, s) && c < |l.controls| && id in s.panels && IsCssIdent(id)
    ensures var r := Toggle(l, s, "#" + id, c);
      var newState := !IsTrue(s.ariaExpanded[c]);
      && r.ariaExpanded == s.ariaExpanded[c := Some(BoolText(newState))]
      && r.panels == s.panels[id := s.panels[id].(isOpen := newState)]
      && (l.controls[c].navItem.Some? ==>
            r.items == s.items[l.controls[c].navItem.value := s.items[l.controls[c].navItem.value].(active := newState)])
      && (l.controls[c].navItem.None? ==> r.items == s.items)
      && r.onNavigation == s.onNavigation && r.listening == s.listening
  {
    assert ("#" + id)[1..] == id;
  }

  /** A target whose state agrees with its control. */
  predicate InSync(l: Layout, s: PageState, id: string, c: nat)
    requires WellFormed(l, s) && c < |l.controls| && id in s.panels
  {
    && s.ariaExpanded[c] in {Some("true"), Some("false")}
    && s.panels[id].isOpen == IsTrue(s.ariaExpanded[c])
    && (l.controls[c].navItem.Some? ==> s.items[l.controls[c].navItem.value].active == IsTrue(s.ariaExpanded[c]))
  }

  /** Toggling keeps a synchronised target synchronised, and toggling it
      twice restores the state. */
  lemma ToggleTwice(l: Layout, s: PageState, id: string, c: nat)
    requires WellFormed(l, s) && c < |l.controls| && id in s.panels && IsCssIdent(id)
    requires InSync(l, s, id, c)
    ensures InSync(l, Toggle(l, s, "#" + id, c), id, c)
    ensures Toggle(l, Toggle(l, s, "#" + id, c), "#" + id, c) == s
  {
    var r := Toggle(l, s, "#" + id, c);
    ToggleExisting(l, s, id, c);
    ToggleExisting(l, r, id, c);
    var t := Toggle(l, r, "#" + id, c);
    assert t.ariaExpanded == s.ariaExpanded;
    assert t.panels == s.panels;
    assert t.items == s.items;
  }

  /** The target of a toggle control: `data-target`, else `href`, else
      `aria-controls`, the first that is present and not empty. */
  function TargetOf(ctrl: Control): (r: Option<string>)
    ensures r.Some? ==> r.value != ""
    ensures r.None? <==> !Truthy(ctrl.dataTarget) && !Truthy(ctrl.href) && !Truthy(ctrl.ariaControls)
    ensures Truthy(ctrl.dataTarget) ==> r == ctrl.dataTarget
    ensures !Truthy(ctrl.dataTarget) && Truthy(ctrl.href) ==> r == ctrl.href
    ensures !Truthy(ctrl.dataTarget) && !Truthy(ctrl.href) && Truthy(ctrl.ariaControls) ==> r == ctrl.ariaControls
  {
    if Truthy(ctrl.dataTarget) then ctrl.dataTarget
    else if Truthy(ctrl.href) then ctrl.href
    else if Truthy(ctrl.ariaControls) then ctrl.ariaControls
    else None
  }

  /** A target id as a selector: `#` is put in front unless already there. */
  function Normalize(t: string): (r: string)
    ensures |r| >= 1 && r[0] == '#'
    ensures t != [] && t[0] == '#' ==> r == t
    ensures !(t != [] && t[0] == '#') ==> r == "#" + t
  {
    if t != [] && t[0] == '#' then t else "#" + t
  }

  /** Normalising twice is normalising once. */
  lemma NormalizeIdempotent(t: string)
    ensures Normalize(Normalize(t)) == Normalize(t)
  {
  }

  /** The id of the mobile navigation container. */
  const NavigationSelector: string := "#navigation"

  /** The delegated click listener for toggle controls; `toggle` is the
      control the click landed in (`closest('.js-toggle, …')`), if any. */
  function ToggleClick(l: Layout, s: PageState, toggle: Option<nat>): (r: PageState)
    requires WellFormed(l, s)
    requires toggle.Some? ==> toggle.value < |l.controls|
    ensures WellFormed(l, r) && SameShape(s, r)
  {
    if toggle.None? then s
    else
      var c := toggle.value;
      match TargetOf(l.controls[c])
      case None => s
      case Some(raw) =>
        var target := Normalize(raw);
        if target == NavigationSelector then
          var wasExpanded := IsTrue(s.ariaExpanded[c]);
          s.(onNavigation := !wasExpanded,
             ariaExpanded := s.ariaExpanded[c := Some(BoolText(!wasExpanded))])
        else
          Toggle(l, s, target, c)
  }

  /** A click outside any toggle, or on a toggle without a target, changes
      nothing. */
  lemma ToggleClickWithoutTarget(l: Layout, s: PageState, toggle: Option<nat>)
    requires WellFormed(l, s)
    requires toggle.Some? ==> toggle.value < |l.controls|
    requires toggle.Some? ==> TargetOf(l.controls[toggle.value]).None?
    ensures ToggleClick(l, s, toggle) == s
  {
  }

  /** A toggle whose target is `#navigation` (written with or without `#`)
      sets the body's `on--navigation` to the negation of its previous
      expanded value and flips its own `aria-expanded`; no element or nav
      item changes. */
  lemma HamburgerToggle(l: Layout, s: PageState, c: nat)
    requires WellFormed(l, s) && c < |l.controls|
    requires TargetOf(l.controls[c]) in {Some("#navigation"), Some("navigation")}
    ensures var r := ToggleClick(l, s, Some(c));
      var was := IsTrue(s.ariaExpanded[c]);
      && r.onNavigation == !was
      && r.ariaExpanded == s.ariaExpanded[c := Some(BoolText(!was))]
      && r.panels == s.panels && r.items == s.items && r.listening == s.listening
  {
    assert "#" + "navigation" == NavigationSelector;
  }

  /** Any other toggle target is handed to `toggleElement` as a selector. */
  lemma ToggleClickDelegates(l: Layout, s: PageState, c: nat)
    requires WellFormed(l, s) && c < |l.controls|
    requires TargetOf(l.controls[c]).Some?
    requires Normalize(TargetOf(l.controls[c]).value) != NavigationSelector
    ensures ToggleClick(l, s, Some(c)) == Toggle(l, s, Normalize(TargetOf(l.controls[c]).value), c)
    ensures s.onNavigation == ToggleClick(l, s, Some(c)).onNavigation
  {
  }

  // ---------------------------------------------------------------------
  // Desktop hover
  // ---------------------------------------------------------------------

  /** A hovered dropdown after it has been opened. */
  function Opened(p: Panel): Panel {
    p.(isOpen := true, isDashActive := true, style := OpenStyle)
  }

  /** The `mouseover` listener of the header; `hovered` is the nav item the
      pointer is in (`closest('.js-navigation__item')`), if any. */
  function Hover(l: Layout, s: PageState, width: int, hovered: Option<nat>): (r: PageState)
    requires WellFormed(l, s)
    requires hovered.Some? ==> hovered.value < |l.desktopButtons|
    ensures WellFormed(l, r) && SameShape(s, r)
  {
    if width < DesktopBreakpoint || hovered.None? then s
    else
      var k := hovered.value;
      match l.desktopButtons[k]
      case None => s
      case Some(c) =>
        var targetId := l.controls[c].dataTarget.value;
        if targetId == "" then s
        else
          var closed := CloseAll(l, s);
          match Resolve(closed, targetId)
          case None => closed
          case Some(id) =>
            closed.(panels := closed.panels[id := Opened(closed.panels[id])],
                    items := closed.items[k := closed.items[k].(isDashActive := true)],
                    ariaExpanded := closed.ariaExpanded[c := Some("true")])
  }

  /** The `mouseleave` listener of the header. */
  function Leave(l: Layout, s: PageState, width: int): (r: PageState)
    requires WellFormed(l, s)
    ensures WellFormed(l, r) && SameShape(s, r)
  {
    if width < DesktopBreakpoint then s else CloseAll(l, s)
  }

  /** Below the breakpoint, hovering and leaving change nothing. */
  lemma NarrowViewportIgnoresHover(l: Layout, s: PageState, width: int, hovered: Option<nat>)
    requires WellFormed(l, s)
    requires hovered.Some? ==> hovered.value < |l.desktopButtons|
    requires width < DesktopBreakpoint
    ensures Hover(l, s, width, hovered) == s && Leave(l, s, width) == s
  {
  }

  /** Hovering a nav item whose desktop button names an existing element
      leaves exactly that dropdown open: it is open, `is--active` and shown,
      every other dropdown is closed, the button is expanded and the nav
      item is `is--active`. */
  lemma HoverOpensOnlyTarget(l: Layout, s: PageState, width: int, k: nat, id: string)
    requires WellFormed(l, s) && k < |l.desktopButtons| && width >= DesktopBreakpoint
    requires l.desktopButtons[k].Some?
    requires l.controls[l.desktopButtons[k].value].dataTarget == Some("#" + id)
    requires id in s.panels && IsCssIdent(id)
    ensures var r := Hover(l, s, width, Some(k));
      var c := l.desktopButtons[k].value;
      && r.panels[id].isOpen && r.panels[id].isDashActive && Shown(r.panels[id].style)
      && r.panels[id] == Opened(s.panels[id])
      && (forall i :: 0 <= i < |l.secondaries| ==> (r.panels[l.secondaries[i]].isOpen <==> l.secondaries[i] == id))
      && r.ariaExpanded[c] == Some("true")
      && r.items[k].isDashActive
      && r.onNavigation == s.onNavigation
  {
    var closed := CloseAll(l, s);
    CloseAllEffect(l, s);
    assert ("#" + id)[1..] == id;
    assert ("#" + id) != "";
    assert Opened(closed.panels[id]) == Opened(s.panels[id]);
  }

  /** Hovering a nav item whose desktop button names no element still
      closes every dropdown and opens nothing. */
  lemma HoverMissingTargetClosesAll(l: Layout, s: PageState, width: int, k: nat)
    requires WellFormed(l, s) && k < |l.desktopButtons| && width >= DesktopBreakpoint
    requires l.desktopButtons[k].Some?
    requires Truthy(l.controls[l.desktopButtons[k].value].dataTarget)
    requires Resolve(s, l.controls[l.desktopButtons[k].value].dataTarget.value).None?
    ensures Hover(l, s, width, Some(k)) == CloseAll(l, s)
  {
  }

  /** In the model, a desktop target `#x` whose `x` is not a CSS identifier
      closes every dropdown and opens nothing. For an invalid selector this
      is the browser's throw, which comes after `closeAllDropdowns` has run. */
  lemma HoverNonIdentifierClosesAll(l: Layout, s: PageState, width: int, k: nat, x: string)
    requires WellFormed(l, s) && k < |l.desktopButtons| && width >= DesktopBreakpoint
    requires l.desktopButtons[k].Some?
    requires l.controls[l.desktopButtons[k].value].dataTarget == Some("#" + x)
    requires !IsCssIdent(x)
    ensures Hover(l, s, width, Some(k)) == CloseAll(l, s)
  {
    NonIdentifierFindsNothing(CloseAll(l, s), x);
  }

  /** Mutual exclusion on the desktop: hovering one nav item and then
      another leaves only the second one's dropdown open. */
  lemma HoverMutualExclusion(l: Layout, s: PageState, width: int, a: nat, b: nat, idA: string, idB: string)
    requires WellFormed(l, s) && width >= DesktopBreakpoint
    requires a < |l.desktopButtons| && b < |l.desktopButtons|
    requires l.desktopButtons[a].Some? && l.desktopButtons[b].Some?
    requires l.controls[l.desktopButtons[a].value].dataTarget == Some("#" + idA)
    requires l.controls[l.desktopButtons[b].value].dataTarget == Some("#" + idB)
    requires idA in s.panels && idB in s.panels && idA != idB && IsCssIdent(idB)
    requires idA in l.secondaries
    ensures var r := Hover(l, Hover(l, s, width, Some(a)), width, Some(b));
      r.panels[idB].isOpen && !r.panels[idA].isOpen
  {
    var mid := Hover(l, s, width, Some(a));
    HoverOpensOnlyTarget(l, mid, width, b, idB);
    var i :| 0 <= i < |l.secondaries| && l.secondaries[i] == idA;
  }

  /** On the desktop, leaving the header leaves no dropdown open. */
  lemma LeaveClosesAll(l: Layout, s: PageState, width: int)
    requires WellFormed(l, s) && width >= DesktopBreakpoint
    ensures forall i :: 0 <= i < |l.secondaries| ==> !Leave(l, s, width).panels[l.secondaries[i]].isOpen
  {
    CloseAllEffect(l, s);
  }

  // ---------------------------------------------------------------------
  // Click outside and initialisation
  // ---------------------------------------------------------------------

  /** The document click listener that closes the dropdowns when the click
      is outside the header; it applies at every width. */
  function ClickOutside(l: Layout, s: PageState, insideHeader: bool): (r: PageState)
    requires WellFormed(l, s)
    ensures WellFormed(l, r) && SameShape(s, r)
  {
    if insideHeader then s else CloseAll(l, s)
  }

  /** A click outside the header closes every dropdown; one inside changes
      nothing through this listener. */
  lemma ClickOutsideEffect(l: Layout, s: PageState, insideHeader: bool)
    requires WellFormed(l, s)
    ensures insideHeader ==> ClickOutside(l, s, insideHeader) == s
    ensures !insideHeader ==> forall i :: 0 <= i < |l.secondaries| ==>
              !ClickOutside(l, s, insideHeader).panels[l.secondaries[i]].isOpen
  {
    CloseAllEffect(l, s);
  }

  /** Both document click listeners run on every click, the toggle
      listener first: a click outside the header leaves no dropdown open,
      even when it landed on a toggle control. */
  lemma ClickOutsideHeaderAfterToggle(l: Layout, s: PageState, toggle: Option<nat>)
    requires WellFormed(l, s)
    requires toggle.Some? ==> toggle.value < |l.controls|
    ensures var r := ClickOutside(l, ToggleClick(l, s, toggle), false);
      forall i :: 0 <= i < |l.secondaries| ==> !r.panels[l.secondaries[i]].isOpen
  {
    CloseAllEffect(l, ToggleClick(l, s, toggle));
  }

  /** A dropdown after initialisation has reset it; `is--active` is kept. */
  function Reset(p: Panel): Panel {
    p.(isActive := false, isOpen := false, style := ResetStyle)
  }

  /** Resetting each of `ids` in turn. */
  function ResetEach(s: PageState, ids: seq<string>): (r: PageState)
    requires forall i :: 0 <= i < |ids| ==> ids[i] in s.panels
    ensures r.panels.Keys == s.panels.Keys
    ensures r.ariaExpanded == s.ariaExpanded && r.items == s.items
    ensures r.onNavigation == s.onNavigation && r.listening == s.listening
  {
    if ids == [] then s
    else
      var n := |ids| - 1;
      var t := ResetEach(s, ids[..n]);
      t.(panels := t.panels[ids[n] := Reset(t.panels[ids[n]])])
  }

  /** Resetting one more of `ids`: the next dropdown still exists and is
      reset after the ones before it. */
  lemma ResetEachStep(s: PageState, ids: seq<string>, i: nat)
    requires forall j :: 0 <= j < |ids| ==> ids[j] in s.panels
    requires i < |ids|
    ensures ids[i] in ResetEach(s, ids[..i]).panels
    ensures var t := ResetEach(s, ids[..i]);
      ResetEach(s, ids[..i + 1]) == t.(panels := t.panels[ids[i] := Reset(t.panels[ids[i]])])
  {
    assert ids[..i + 1][..i] == ids[..i];
  }

  /** `initializeNavigation()`: without a header nothing happens; otherwise
      the listeners are installed and every dropdown is reset. */
  function Initialize(l: Layout, s: PageState): (r: PageState)
    requires WellFormed(l, s)
    ensures WellFormed(l, r) && SameShape(s, r)
  {
    if !l.hasHeader then s
    else ResetEach(s.(listening := true), l.secondaries)
  }

  /** What resetting each of `ids` does to the elements. */
  lemma {:induction false} ResetEachEffect(s: PageState, ids: seq<string>)
    requires forall i :: 0 <= i < |ids| ==> ids[i] in s.panels
    ensures forall id :: id in s.panels ==>
      ResetEach(s, ids).panels[id] == if id in ids then Reset(s.panels[id]) else s.panels[id]
  {
    if ids != [] {
      var n := |ids| - 1;
      ResetEachEffect(s, ids[..n]);
      assert forall id :: id in ids <==> id in ids[..n] || id == ids[n] by {
        assert ids == ids[..n] + [ids[n]];
      }
    }
  }

  /** Without a header, initialisation installs nothing and changes nothing.
      With one, every dropdown ends without `is-open` and `is-active` and
      hidden, while `is--active`, the other elements, every
      `aria-expanded`, every nav item and the body are left as they were. */
  lemma InitializeEffect(l: Layout, s: PageState)
    requires WellFormed(l, s)
    ensures !l.hasHeader ==> Initialize(l, s) == s
    ensures l.hasHeader ==> var r := Initialize(l, s);
      && r.listening
      && (forall i :: 0 <= i < |l.secondaries| ==>
            var p := r.panels[l.secondaries[i]];
            !p.isOpen && !p.isActive && Hidden(p.style)
            && p.isDashActive == s.panels[l.secondaries[i]].isDashActive)
      && (forall id :: id in s.panels && id !in l.secondaries ==> r.panels[id] == s.panels[id])
      && r.ariaExpanded == s.ariaExpanded && r.items == s.items && r.onNavigation == s.onNavigation
  {
    if l.hasHeader {
      ResetEachEffect(s.(listening := true), l.secondaries);
    }
  }
}
