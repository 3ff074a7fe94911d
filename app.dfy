/**
 * Application start-up (`App.OnStartup`): the command line decides between the menu of
 * one group and the main window, and the AppUserModelID the process takes, which keeps
 * each group's taskbar button apart from the others and from the main window's.
 */
module Startup {

  /** The identity the main window's process takes. */
  const MainId := "TaskbarGroupTool.main"
  /** The identity of a group menu's process is this prefix followed by the group name. */
  const MenuIdPrefix := "TaskbarGroupTool.menu."

  /** What the process shows: the menu of the named group, or the main window. */
  datatype Mode = MenuMode(groupName: string) | MainMode

  /**
   * The mode chosen from `Environment.GetCommandLineArgs()`, whose first element is
   * the program: a non-empty second argument names the group; nothing else is looked at.
   */
  function ModeOf(args: seq<string>): (m: Mode)
    ensures m.MenuMode? <==> |args| > 1 && args[1] != ""
    ensures m.MenuMode? ==> m.groupName == args[1]
  {
    if |args| > 1 && args[1] != "" then MenuMode(args[1]) else MainMode
  }

  /** The AppUserModelID set for a mode. */
  function AppUserModelId(m: Mode): (id: string)
    ensures m.MainMode? ==> id == MainId
    ensures m.MenuMode? ==>
      |id| == |MenuIdPrefix| + |m.groupName| && id[..|MenuIdPrefix|] == MenuIdPrefix
      && id[|MenuIdPrefix|..] == m.groupName
  {
    match m
    case MenuMode(groupName) => MenuIdPrefix + groupName
    case MainMode => MainId
  }

  /** Only the second argument matters: arguments after it change nothing. */
  lemma OnlySecondArgumentCounts(args: seq<string>, more: seq<string>)
    ensures |args| > 1 ==> ModeOf(args + more) == ModeOf(args)
    ensures |args| <= 1 && more == [] ==> ModeOf(args + more) == MainMode
  {
    if |args| > 1 {
      assert (args + more)[1] == args[1];
    }
  }

  /**
   * Every group menu has its own identity, different from the main window's: two
   * modes share an AppUserModelID only when they are the same mode.
   */
  lemma AppUserModelIdsDistinct(m1: Mode, m2: Mode)
    ensures AppUserModelId(m1) == AppUserModelId(m2) <==> m1 == m2
  {
    var id1, id2 := AppUserModelId(m1), AppUserModelId(m2);
    if m1.MenuMode? && m2.MainMode? {
      assert id1[18] == MenuIdPrefix[18] == 'e';
      assert id2[18] == MainId[18] == 'a';
    } else if m1.MainMode? && m2.MenuMode? {
      assert id2[18] == MenuIdPrefix[18] == 'e';
      assert id1[18] == MainId[18] == 'a';
    } else if m1.MenuMode? && m2.MenuMode? && id1 == id2 {
      assert m1.groupName == id1[|MenuIdPrefix|..] == id2[|MenuIdPrefix|..] == m2.groupName;
    }
  }

  /** What start-up leaves behind. */
  datatype Outcome = Outcome(appUserModelId: string, mode: Mode, windowShown: bool, errorShown: bool, shutDown: bool)

  /**
   * `OnStartup`: `windowFails` says whether constructing the chosen window throws. The
   * menu's failure shows the error and shuts the application down; the main window's
   * failure only shows the error.
   */
  function OnStartup(args: seq<string>, windowFails: bool): (r: Outcome)
    ensures r.mode == ModeOf(args)
    ensures r.mode.MainMode? ==> r.appUserModelId == MainId
    ensures r.mode.MenuMode? ==> r.appUserModelId == MenuIdPrefix + args[1]
    ensures r.errorShown <==> windowFails
    ensures r.windowShown != r.errorShown
    ensures r.shutDown <==> r.errorShown && r.mode.MenuMode?
  {
    var m := ModeOf(args);
    Outcome(AppUserModelId(m), m, !windowFails, windowFails, windowFails && m.MenuMode?)
  }
}
