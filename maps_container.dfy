/**
 * The dot-maps container: the list of map names, the active map, the
 * new-map dialog, and the `dotmaps-list` storage entry the list is saved to.
 */
module MapsContainer {
  import opened Wrappers
  import opened Text

  const DefaultMap := "default"

  /** `!name.trim()`. */
  predicate IsBlank(name: string) {
    Trim(name) == []
  }

  /** The initial list: the saved one when the page runs in a browser and one is saved, else `["default"]`. */
  function InitialMaps(saved: Option<seq<string>>, inBrowser: bool): (maps: seq<string>)
    ensures !inBrowser || saved.None? ==> maps == [DefaultMap]
    ensures inBrowser && saved.Some? ==> maps == saved.value
  {
    if inBrowser && saved.Some? then saved.value else [DefaultMap]
  }

  /** `maps[0]`, or nothing for an empty list. */
  function FirstMap(maps: seq<string>): (r: Option<string>)
    ensures r.Some? <==> maps != []
    ensures r.Some? ==> r.value == maps[0] && r.value in maps
  {
    if maps == [] then None else Some(maps[0])
  }

  /** With nothing saved the list is `["default"]` and the default map is active. */
  lemma NothingSavedStartsWithDefault(inBrowser: bool)
    ensures FirstMap(InitialMaps(None, inBrowser)) == Some(DefaultMap)
  {}

  class Container {
    var maps: seq<string>
    var activeMap: Option<string>
    var newMapName: string
    var createDialogOpen: bool
    var isFullscreen: bool
    /** The `dotmaps-list` storage entry. */
    var storedMaps: Option<seq<string>>

    /** The active map is one of the maps, and a saved list is the list shown. */
    predicate Valid()
      reads this
    {
      (activeMap.Some? ==> activeMap.value in maps) && (storedMaps.Some? ==> storedMaps.value == maps)
    }

    constructor(saved: Option<seq<string>>, inBrowser: bool)
      requires inBrowser || saved.None?
      ensures Valid()
      ensures maps == InitialMaps(saved, inBrowser) && activeMap == FirstMap(maps)
      ensures newMapName == "" && !createDialogOpen && !isFullscreen && storedMaps == saved
    {
      maps := InitialMaps(saved, inBrowser);
      activeMap := FirstMap(InitialMaps(saved, inBrowser));
      newMapName := "";
      createDialogOpen := false;
      isFullscreen := false;
      storedMaps := saved;
    }

    method SetNewMapName(name: string)
      modifies this
      ensures newMapName == name
      ensures maps == old(maps) && activeMap == old(activeMap) && storedMaps == old(storedMaps)
      ensures createDialogOpen == old(createDialogOpen) && isFullscreen == old(isFullscreen)
    {
      newMapName := name;
    }

    method SetCreateDialogOpen(open: bool)
      modifies this
      ensures createDialogOpen == open
      ensures maps == old(maps) && activeMap == old(activeMap) && storedMaps == old(storedMaps)
      ensures newMapName == old(newMapName) && isFullscreen == old(isFullscreen)
    {
      createDialogOpen := open;
    }

    /**
     * `createNewMap`: a blank name does nothing; any other name is appended,
     * even when already present, made active, and the list is saved.
     */
    method CreateNewMap()
      requires Valid()
      modifies this
      ensures Valid()
      ensures IsBlank(old(newMapName)) ==>
                maps == old(maps) && activeMap == old(activeMap) && newMapName == old(newMapName)
                && createDialogOpen == old(createDialogOpen) && storedMaps == old(storedMaps)
      ensures !IsBlank(old(newMapName)) ==>
                maps == old(maps) + [old(newMapName)] && activeMap == Some(old(newMapName))
                && newMapName == "" && !createDialogOpen && storedMaps == Some(maps)
      ensures maps == AfterCreate(old(maps), old(newMapName))
      ensures isFullscreen == old(isFullscreen)
    {
      if IsBlank(newMapName) {
        return;
      }
      var updatedMaps := maps + [newMapName];
      assert updatedMaps[|maps|] == newMapName;
      maps := updatedMaps;
      activeMap := Some(newMapName);
      newMapName := "";
      createDialogOpen := false;
      storedMaps := Some(updatedMaps);
    }

    method ToggleFullscreen()
      modifies this
      ensures isFullscreen == !old(isFullscreen)
      ensures maps == old(maps) && activeMap == old(activeMap) && storedMaps == old(storedMaps)
      ensures newMapName == old(newMapName) && createDialogOpen == old(createDialogOpen)
    {
      isFullscreen := !isFullscreen;
    }
  }

  /** What `createNewMap` does to the list of names. */
  function AfterCreate(maps: seq<string>, name: string): seq<string> {
    if IsBlank(name) then maps else maps + [name]
  }

  /** A name is appended exactly when it is not blank, growing the list by one without a duplicate check. */
  lemma AfterCreateGrows(maps: seq<string>, name: string)
    ensures var r := AfterCreate(maps, name);
            (IsBlank(name) ==> r == maps)
            && (!IsBlank(name) ==> |r| == |maps| + 1 && r[..|maps|] == maps && r[|maps|] == name)
            && (name in maps && !IsBlank(name) ==> multiset(r)[name] == multiset(maps)[name] + 1)
  {
    var r := AfterCreate(maps, name);
    if !IsBlank(name) {
      assert r[..|maps|] == maps;
    }
  }

  /** Creating twice with the same name lists it twice. */
  lemma SameNameTwice(maps: seq<string>, name: string)
    requires !IsBlank(name)
    ensures AfterCreate(AfterCreate(maps, name), name) == maps + [name, name]
  {
    assert maps + [name] + [name] == maps + [name, name];
  }
}
