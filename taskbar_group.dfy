/** A taskbar group (`TaskbarGroup`): a name, an ordered list of application paths and an id. */
module Groups {

  class TaskbarGroup {
    /** The group's name; the source's unset (null) name is the empty string here. */
    var name: string
    var applications: seq<string>
    var id: string

    /** The parameterless constructor; `newId` is the freshly generated GUID. */
    constructor (newId: string)
      ensures name == "" && applications == [] && id == newId
    {
      name := "";
      applications := [];
      id := newId;
    }

    /** The named constructor: the parameterless one, then `Name = name`. */
    constructor Named(groupName: string, newId: string)
      ensures name == groupName && applications == [] && id == newId
    {
      name := groupName;
      applications := [];
      id := newId;
    }

    /** `ToString` shows the group's name. */
    function ToString(): (s: string)
      reads this
      ensures s == name
    {
      name
    }
  }
}
