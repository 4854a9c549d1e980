/**
 * The header navigation controller as an object over the page. Its fields
 * are the parts of the DOM the listeners change; each listener is a method
 * that updates them step by step, and each is proved to produce the state
 * the matching function of `NavigationModel` describes.
 */
module Navigation {
  import opened Wrappers
  import opened NavigationModel

  class Page {
    /** Element relations the controller looks up but never changes. */
    const layout: Layout
    /** Elements by id: classes and inline style. */
    var panels: map<string, Panel>
    /** `aria-expanded` of each control, in document order. */
    var ariaExpanded: seq<Option<string>>
    /** Classes of each `.js-navigation__item`. */
    var items: seq<NavItem>
    /** The body's `on--navigation` class. */
    var onNavigation: bool
    /** Whether the header and document listeners are installed. */
    var listening: bool

    /** The page as a value. */
    function State(): PageState
      reads this
    {
      PageState(panels, ariaExpanded, items, onNavigation, listening)
    }

    ghost predicate Valid()
      reads this
    {
      WellFormed(layout, State())
    }

    /** A loaded page before the controller runs. */
    constructor (layout: Layout, initial: PageState)
      requires WellFormed(layout, initial)
      ensures Valid()
      ensures this.layout == layout && State() == initial
    {
      this.layout := layout;
      panels := initial.panels;
      ariaExpanded := initial.ariaExpanded;
      items := initial.items;
      onNavigation := initial.onNavigation;
      listening := initial.listening;
    }

    /** One iteration of `closeAllDropdowns`: the dropdown `id`, then the
        control whose `data-target` names it and that control's nav item. */
    method CloseOne(id: string)
      requires Valid() && id in panels
      modifies this
      ensures Valid()
      ensures State() == CloseDropdown(layout, old(State()), id)
    {
      panels := panels[id := panels[id].(isOpen := false, isDashActive := false, style := ClosedStyle)];
      var button := ControlFor(layout, "#" + id);
      if button.Some? {
        ariaExpanded := ariaExpanded[button.value := Some("false")];
        var item := layout.controls[button.value].navItem;
        if item.Some? {
          items := items[item.value := items[item.value].(isDashActive := false)];
        }
      }
    }

    /** `closeAllDropdowns()`: closes the dropdowns that are open when it
        starts, one by one in document order. */
    method CloseAllDropdowns()
      requires Valid()
      modifies this
      ensures Valid()
      ensures State() == CloseAll(layout, old(State()))
    {
      ghost var s0 := State();
      var open := OpenDropdowns(layout, State());
      var i := 0;
      while i < |open|
        invariant 0 <= i <= |open|
        invariant State() == CloseEach(layout, s0, open[..i])
      {
        CloseEachStep(layout, s0, open, i);
        CloseOne(open[i]);
        i := i + 1;
      }
      assert open[..|open|] == open;
    }

    /** `toggleElement(targetId, button)`. */
    method ToggleElement(targetId: string, button: nat)
      requires Valid() && button < |layout.controls|
      modifies this
      ensures Valid()
      ensures State() == Toggle(layout, old(State()), targetId, button)
    {
      var target := Resolve(State(), targetId);
      if target.None? {
        return;
      }
      var id := target.value;
      var isExpanded := IsTrue(ariaExpanded[button]);
      var newState := !isExpanded;
      ariaExpanded := ariaExpanded[button := Some(BoolText(newState))];
      panels := panels[id := panels[id].(isOpen := newState)];
      var item := layout.controls[button].navItem;
      if item.Some? {
        items := items[item.value := items[item.value].(active := newState)];
      }
    }

    /** The delegated click listener for toggle controls. */
    method OnToggleClick(toggle: Option<nat>)
      requires Valid() && (toggle.Some? ==> toggle.value < |layout.controls|)
      modifies this
      ensures Valid()
      ensures State() == ToggleClick(layout, old(State()), toggle)
    {
      if toggle.None? {
        return;
      }
      var button := toggle.value;
      var raw := TargetOf(layout.controls[button]);
      if raw.None? {
        return;
      }
      var targetId := Normalize(raw.value);
      if targetId == NavigationSelector {
        var isExpanded := IsTrue(ariaExpanded[button]);
        onNavigation := !isExpanded;
        ariaExpanded := ariaExpanded[button := Some(BoolText(!isExpanded))];
      } else {
        ToggleElement(targetId, button);
      }
    }

    /** The header's `mouseover` listener. */
    method OnMouseOver(width: int, hovered: Option<nat>)
      requires Valid() && (hovered.Some? ==> hovered.value < |layout.desktopButtons|)
      modifies this
      ensures Valid()
      ensures State() == Hover(layout, old(State()), width, hovered)
    {
      if width < DesktopBreakpoint || hovered.None? {
        return;
      }
      var navItem := hovered.value;
      var desktopButton := layout.desktopButtons[navItem];
      if desktopButton.None? {
        return;
      }
      var button := desktopButton.value;
      var targetId := layout.controls[button].dataTarget.value;
      if targetId == "" {
        return;
      }
      CloseAllDropdowns();
      var dropdown := Resolve(State(), targetId);
      if dropdown.Some? {
        var id := dropdown.value;
        panels := panels[id := panels[id].(isOpen := true, isDashActive := true, style := OpenStyle)];
        items := items[navItem := items[navItem].(isDashActive := true)];
        ariaExpanded := ariaExpanded[button := Some("true")];
      }
    }

    /** The header's `mouseleave` listener. */
    method OnMouseLeave(width: int)
      requires Valid()
      modifies this
      ensures Valid()
      ensures State() == Leave(layout, old(State()), width)
    {
      if width >= DesktopBreakpoint {
        CloseAllDropdowns();
      }
    }

    /** The document click listener that closes the dropdowns. */
    method OnClickOutside(insideHeader: bool)
      requires Valid()
      modifies this
      ensures Valid()
      ensures State() == ClickOutside(layout, old(State()), insideHeader)
    {
      if !insideHeader {
        CloseAllDropdowns();
      }
    }

    /** `initializeNavigation()`, run once when the document has loaded. */
    method InitializeNavigation()
      requires Valid() && !listening
      modifies this
      ensures Valid()
      ensures State() == Initialize(layout, old(State()))
    {
      if !layout.hasHeader {
        return;
      }
      listening := true;
      ghost var s1 := State();
      assert forall j :: 0 <= j < |layout.secondaries| ==> layout.secondaries[j] in s1.panels;
      var i := 0;
      while i < |layout.secondaries|
        invariant 0 <= i <= |layout.secondaries|
        invariant State() == ResetEach(s1, layout.secondaries[..i])
      {
        ResetEachStep(s1, layout.secondaries, i);
        var id := layout.secondaries[i];
        panels := panels[id := panels[id].(isActive := false, isOpen := false, style := ResetStyle)];
        i := i + 1;
      }
      assert layout.secondaries[..|layout.secondaries|] == layout.secondaries;
    }

    /** A click anywhere in the document: the installed listeners run in the
        order they were added, the toggle listener first. */
    method Click(toggle: Option<nat>, insideHeader: bool)
      requires Valid() && (toggle.Some? ==> toggle.value < |layout.controls|)
      modifies this
      ensures Valid()
      ensures State() == if old(listening)
                         then ClickOutside(layout, ToggleClick(layout, old(State()), toggle), insideHeader)
                         else old(State())
    {
      if listening {
        OnToggleClick(toggle);
        OnClickOutside(insideHeader);
      }
    }

    /** The pointer entering part of the header. */
    method MouseOver(width: int, hovered: Option<nat>)
      requires Valid() && (hovered.Some? ==> hovered.value < |layout.desktopButtons|)
      modifies this
      ensures Valid()
      ensures State() == if old(listening) then Hover(layout, old(State()), width, hovered) else old(State())
    {
      if listening {
        OnMouseOver(width, hovered);
      }
    }

    /** The pointer leaving the header. */
    method MouseLeave(width: int)
      requires Valid()
      modifies this
      ensures Valid()
      ensures State() == if old(listening) then Leave(layout, old(State()), width) else old(State())
    {
      if listening {
        OnMouseLeave(width);
      }
    }
  }
}
