/**
 * The pop-up menu of one group (`GroupMenuWindow`): finding the group by name, the
 * menu it shows, and the rectangle of the taskbar computed from the primary screen's
 * bounds and working area.
 */
module GroupMenu {
  import opened Wrappers
  import Paths
  import opened Groups

  /** The text shown instead of menu items for a group without applications. */
  const NoApplicationsText := "No applications in this group"

  /**
   * The index of the first group named exactly `groupName` (ordinal, case-sensitive),
   * or -1 when there is none.
   */
  function FirstNamed(groups: seq<TaskbarGroup>, groupName: string): (i: int)
    reads set g | g in groups
    ensures -1 <= i < |groups|
    ensures i >= 0 ==> groups[i].name == groupName
    ensures forall j | 0 <= j < |groups| && (i < 0 || j < i) :: groups[j].name != groupName
  {
    if |groups| == 0 then -1
    else if groups[0].name == groupName then 0
    else
      var i := FirstNamed(groups[1..], groupName);
      if i < 0 then -1 else i + 1
  }

  /**
   * `LoadGroup`: `stored` is what loading the saved groups gave, `None` when it threw.
   * The first stored group with exactly this name, or else a new empty group with this
   * name and the id `newId`.
   */
  method LoadGroup(stored: Option<seq<TaskbarGroup>>, groupName: string, newId: string) returns (g: TaskbarGroup)
    ensures stored.Some? && FirstNamed(stored.value, groupName) >= 0 ==>
      g == stored.value[FirstNamed(stored.value, groupName)]
    ensures stored.None? || FirstNamed(stored.value, groupName) < 0 ==>
      fresh(g) && g.name == groupName && g.applications == [] && g.id == newId
  {
    if stored.None? {
      g := new TaskbarGroup.Named(groupName, newId);
      return;
    }
    var i := FirstNamed(stored.value, groupName);
    if i >= 0 {
      g := stored.value[i];
    } else {
      g := new TaskbarGroup.Named(groupName, newId);
    }
  }

  /** One child of the menu panel: an application item, or the placeholder text. */
  datatype MenuEntry = MenuItem(text: string, path: string) | Placeholder(message: string)

  /** `CreateMenuItem`: an item launching `appPath`, labelled with its file name without extension. */
  function MenuItemFor(appPath: string): (e: MenuEntry)
    ensures e.MenuItem? && e.path == appPath
    ensures var name := Paths.FileName(appPath);
      |e.text| <= |name| && name[..|e.text|] == e.text
  {
    MenuItem(Paths.NameWithoutExtension(appPath), appPath)
  }

  /** The children `LoadMenuItems` puts in the panel for a group with these applications. */
  function MenuItems(applications: seq<string>): (r: seq<MenuEntry>)
    ensures applications == [] ==> r == [Placeholder(NoApplicationsText)]
    ensures applications != [] ==> |r| == |applications|
  {
    if applications == [] then [Placeholder(NoApplicationsText)]
    else seq(|applications|, k requires 0 <= k < |applications| => MenuItemFor(applications[k]))
  }

  /**
   * A non-empty group shows one item per application, in the group's order, each
   * launching that application and labelled with the start of its file name; the
   * placeholder appears exactly when the group is empty.
   */
  lemma MenuFollowsGroup(applications: seq<string>)
    ensures var r := MenuItems(applications);
      (applications != [] ==> forall k | 0 <= k < |r| ::
        r[k].MenuItem? && r[k].path == applications[k] && r[k].text == Paths.NameWithoutExtension(applications[k]))
      && (Placeholder(NoApplicationsText) in r <==> applications == [])
  {
    var r := MenuItems(applications);
    if applications != [] {
      forall k | 0 <= k < |r| ensures r[k] != Placeholder(NoApplicationsText) {
        assert r[k] == MenuItemFor(applications[k]);
      }
    }
  }

  class GroupMenuWindow {
    var currentGroup: TaskbarGroup
    var title: string
    /** The children of the menu panel. */
    var menu: seq<MenuEntry>

    /** The constructor: load the group, set the title, build the menu. */
    constructor (stored: Option<seq<TaskbarGroup>>, groupName: string, newId: string)
      ensures stored.Some? && FirstNamed(stored.value, groupName) >= 0 ==>
        currentGroup == stored.value[FirstNamed(stored.value, groupName)]
      ensures stored.None? || FirstNamed(stored.value, groupName) < 0 ==>
        fresh(currentGroup) && currentGroup.name == groupName && currentGroup.applications == []
      ensures title == "Group: " + groupName
      ensures menu == MenuItems(currentGroup.applications)
    {
      var g := LoadGroup(stored, groupName, newId);
      currentGroup := g;
      title := "Group: " + groupName;
      menu := [];
      new;
      LoadMenuItems();
    }

    /** `LoadMenuItems`: one item per application of the group, or the placeholder text. */
    method LoadMenuItems()
      modifies this
      ensures menu == MenuItems(currentGroup.applications)
      ensures currentGroup == old(currentGroup) && title == old(title)
    {
      var applications := currentGroup.applications;
      var panel: seq<MenuEntry> := [];
      if applications != [] {
        var i := 0;
        while i < |applications|
          invariant 0 <= i <= |applications|
          invariant panel == MenuItems(applications)[..i]
        {
          panel := panel + [MenuItemFor(applications[i])];
          i := i + 1;
        }
      } else {
        panel := [Placeholder(NoApplicationsText)];
      }
      menu := panel;
    }
  }

  /** An integer rectangle (`System.Drawing.Rectangle`). */
  datatype Rect = Rect(x: int, y: int, width: int, height: int) {
    function Right(): int { x + width }
    function Bottom(): int { y + height }
  }

  /** The edge `GetTaskbarRect` decides the taskbar is docked at, in the order it considers them. */
  datatype Edge = LeftEdge | RightEdge | TopEdge | BottomEdge | AutoHidden

  function Abs(n: int): (r: nat)
    ensures r == n || r == -n
  {
    if n < 0 then -n else n
  }

  function LeftDocked(bounds: Rect, workingArea: Rect): nat {
    Abs(bounds.x - workingArea.x)
  }

  function TopDocked(bounds: Rect, workingArea: Rect): nat {
    Abs(bounds.y - workingArea.y)
  }

  function RightDocked(bounds: Rect, workingArea: Rect): int {
    (bounds.width - LeftDocked(bounds, workingArea)) - workingArea.width
  }

  function BottomDocked(bounds: Rect, workingArea: Rect): int {
    (bounds.height - TopDocked(bounds, workingArea)) - workingArea.height
  }

  /** The edge chosen: left first, then right, top and bottom; auto-hidden when none is docked. */
  function DockedEdge(bounds: Rect, workingArea: Rect): (e: Edge)
    ensures e == LeftEdge <==> LeftDocked(bounds, workingArea) > 0
    ensures e == RightEdge <==> LeftDocked(bounds, workingArea) == 0 && RightDocked(bounds, workingArea) > 0
    ensures e == TopEdge <==>
      LeftDocked(bounds, workingArea) == 0 && RightDocked(bounds, workingArea) <= 0 && TopDocked(bounds, workingArea) > 0
    ensures e == BottomEdge <==>
      LeftDocked(bounds, workingArea) == 0 && RightDocked(bounds, workingArea) <= 0 && TopDocked(bounds, workingArea) == 0
      && BottomDocked(bounds, workingArea) > 0
  {
    if LeftDocked(bounds, workingArea) > 0 then LeftEdge
    else if RightDocked(bounds, workingArea) > 0 then RightEdge
    else if TopDocked(bounds, workingArea) > 0 then TopEdge
    else if BottomDocked(bounds, workingArea) > 0 then BottomEdge
    else AutoHidden
  }

  /** The height assumed for an auto-hidden taskbar. */
  const HiddenTaskbarHeight := 40

  /** `GetTaskbarRect`: the taskbar's rectangle on the screen with these bounds and working area. */
  function TaskbarRect(bounds: Rect, workingArea: Rect): (r: Rect)
    ensures DockedEdge(bounds, workingArea) == LeftEdge ==>
      r == Rect(bounds.x, bounds.y, LeftDocked(bounds, workingArea), bounds.height)
    ensures DockedEdge(bounds, workingArea) == RightEdge ==>
      r == Rect(workingArea.Right(), bounds.y, RightDocked(bounds, workingArea), bounds.height)
    ensures DockedEdge(bounds, workingArea) == TopEdge ==>
      r == Rect(workingArea.x, bounds.y, workingArea.width, TopDocked(bounds, workingArea))
    ensures DockedEdge(bounds, workingArea) == BottomEdge ==>
      r == Rect(workingArea.x, workingArea.Bottom(), workingArea.width, BottomDocked(bounds, workingArea))
    ensures DockedEdge(bounds, workingArea) == AutoHidden ==>
      r == Rect(workingArea.x, bounds.height - HiddenTaskbarHeight, workingArea.width, HiddenTaskbarHeight)
  {
    var leftDocked := LeftDocked(bounds, workingArea);
    var rightDocked := RightDocked(bounds, workingArea);
    var topDocked := TopDocked(bounds, workingArea);
    var bottomDocked := BottomDocked(bounds, workingArea);
    if leftDocked > 0 then Rect(bounds.x, bounds.y, leftDocked, bounds.height)
    else if rightDocked > 0 then Rect(workingArea.Right(), bounds.y, rightDocked, bounds.height)
    else if topDocked > 0 then Rect(workingArea.x, bounds.y, workingArea.width, topDocked)
    else if bottomDocked > 0 then Rect(workingArea.x, workingArea.Bottom(), workingArea.width, bottomDocked)
    else Rect(workingArea.x, bounds.height - HiddenTaskbarHeight, workingArea.width, HiddenTaskbarHeight)
  }

  /** `inner` lies within `outer` and has no negative size. */
  predicate Within(inner: Rect, outer: Rect) {
    0 <= inner.width && 0 <= inner.height
    && outer.x <= inner.x && inner.Right() <= outer.Right()
    && outer.y <= inner.y && inner.Bottom() <= outer.Bottom()
  }

  /** The two rectangles share no interior point. */
  predicate Disjoint(a: Rect, b: Rect) {
    a.Right() <= b.x || b.Right() <= a.x || a.Bottom() <= b.y || b.Bottom() <= a.y
  }

  /**
   * On a screen whose working area lies within its bounds, a docked taskbar is the strip
   * of the screen between the working area and the chosen edge: within the screen,
   * outside the working area, and touching it along that edge.
   */
  lemma DockedTaskbarBesideWorkingArea(bounds: Rect, workingArea: Rect)
    requires Within(workingArea, bounds)
    requires DockedEdge(bounds, workingArea) != AutoHidden
    ensures var r := TaskbarRect(bounds, workingArea);
      Within(r, bounds) && Disjoint(r, workingArea)
      && match DockedEdge(bounds, workingArea)
         case LeftEdge => r.Right() == workingArea.x && r.x == bounds.x
         case RightEdge => r.x == workingArea.Right() && r.Right() == bounds.Right()
         case TopEdge => r.Bottom() == workingArea.y && r.y == bounds.y
         case BottomEdge => r.y == workingArea.Bottom() && r.Bottom() == bounds.Bottom()
         case AutoHidden => false
  {
  }

  /**
   * With the working area within the bounds, no docked edge means the working area is
   * the whole screen; the assumed strip is then the bottom 40 pixels only when the
   * screen's top is at 0 (its y is the screen height minus 40, not its bottom minus 40).
   */
  lemma AutoHiddenStrip(bounds: Rect, workingArea: Rect)
    requires Within(workingArea, bounds)
    requires DockedEdge(bounds, workingArea) == AutoHidden
    ensures workingArea == bounds
    ensures var r := TaskbarRect(bounds, workingArea);
      r.height == HiddenTaskbarHeight && r.x == bounds.x && r.width == bounds.width
      && (r.Bottom() == bounds.Bottom() <==> bounds.y == 0)
  {
  }
}
