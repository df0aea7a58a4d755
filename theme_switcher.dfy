/**
 The plugin as `theme_switcher.py` has it: display names built with `built_res_name`,
 the cached main menu built by `RefreshThemeCacheCommand`, the picker lists of
 `SwitchThemeCommand` and `SwitchColorSchemeCommand`, and the settings changes of their
 common base `SwitchWindowCommandBase`.
 */
module ThemeSwitcher {
  import opened Optional
  import opened PyStr
  import opened Sorting
  import opened Resources
  import opened Menu
  import opened Settings
  import opened Commands

  /**
   `built_res_name`: the file name cut before its last `.`, reduced to its base name,
   with `-` and `.` read as spaces.
   */
  function BuiltResName(name: string): (r: string)
    ensures '-' !in r && '.' !in r && '/' !in r
  {
    var stem := Basename(SliceTo(name, RFind(name, '.')));
    var r := Spaced(stem);
    assert forall i :: 0 <= i < |r| ==> r[i] != '/' by {
      assert forall i :: 0 <= i < |stem| ==> stem[i] != '/';
    }
    r
  }

  /**
   When `name` has a `.`, the cut is at its last `.` (the one at `k`), and the name is
   the converted base name of what comes before, of the same length.
   */
  lemma BuiltResNameCutsAtLastDot(name: string, k: int)
    requires 0 <= k < |name| && name[k] == '.'
    requires forall j :: k < j < |name| ==> name[j] != '.'
    ensures BuiltResName(name) == Spaced(Basename(name[..k]))
    ensures |BuiltResName(name)| == |Basename(name[..k])|
  {
    assert RFind(name, '.') == k;
    assert SliceTo(name, k) == name[..k];
  }

  /** When `name` has no `.`, `rfind` gives -1 and the slice `[:-1]` drops the last character. */
  lemma BuiltResNameWithoutDot(name: string)
    requires '.' !in name
    ensures name != [] ==> BuiltResName(name) == Spaced(Basename(name[..|name| - 1]))
    ensures name == [] ==> BuiltResName(name) == []
  {
    assert RFind(name, '.') == -1;
    if name != [] {
      assert SliceTo(name, -1) == name[..|name| - 1];
    }
  }

  /** `RefreshThemeCacheCommand.create_menu(command, file_pattern)`, given the resources found for the pattern. */
  method CreateMenu(command: string, resources: seq<string>) returns (menu: seq<MenuNode>)
    requires AllResourcePaths(resources)
    ensures menu == ThemeMenu(resources, command, "refresh_theme_cache", BuiltResName)
    ensures IsThemeMenu(menu, resources, command, "refresh_theme_cache", BuiltResName)
  {
    var d := GroupByPackage(resources);
    var packages := Sort(d.order, Whole);
    assert packages == SortedPackages(resources);
    menu := PackageNodes(packages, d.lists, command, BuiltResName);
    menu := menu + [Separator, RefreshItem("refresh_theme_cache")];
    ThemeMenuShape(resources, command, "refresh_theme_cache", BuiltResName);
  }

  /**
   The structure `RefreshThemeCacheCommand.run` writes to `Main.sublime-menu`: the
   theme menu as the children of the "Theme" entry (id "theme") of "preferences".
   */
  method MainMenu(themes: seq<string>) returns (menu: seq<MenuNode>)
    requires AllResourcePaths(themes)
    ensures menu == [MenuNode(Some("preferences"), None, None, None,
              Some([MenuNode(Some("theme"), Some("Theme"), None, None,
                Some(ThemeMenu(themes, "switch_theme", "refresh_theme_cache", BuiltResName)))]))]
    ensures IsThemeMenu(menu[0].children.value[0].children.value, themes, "switch_theme", "refresh_theme_cache",
                        BuiltResName)
  {
    var items := CreateMenu("switch_theme", themes);
    menu := [MenuNode(Some("preferences"), None, None, None,
               Some([MenuNode(Some("theme"), Some("Theme"), None, None, Some(items))]))];
  }

  /** A picker row: `[title, description]`. */
  datatype Title = Title(caption: string, description: string)

  function ItemTitle(path: string): Title
    requires IsResourcePath(path)
  {
    Title(BuiltResName(Leaf(path)), "Package: " + Package(path))
  }

  /** The `values` list of `get_items`: resources sorted by base name, one value each. */
  function ItemValues(kind: ValueKind, resources: seq<string>): seq<string>
  {
    Mapped(Sort(resources, Basename), ValueFn(kind))
  }

  /** The picker rows of `paths`, in their order. */
  function TitlesOf(paths: seq<string>): (r: seq<Title>)
    requires AllResourcePaths(paths)
    ensures |r| == |paths|
  {
    if paths == [] then []
    else
      var init := paths[..|paths| - 1];
      assert forall p :: p in init ==> p in paths;
      TitlesOf(init) + [ItemTitle(paths[|paths| - 1])]
  }

  /** The `names` list of `get_items`, in the same order. */
  function ItemTitles(resources: seq<string>): seq<Title>
    requires AllResourcePaths(resources)
  {
    SortKeepsResourcePaths(resources, Basename);
    TitlesOf(Sort(resources, Basename))
  }

  /** One more row: the rows of the first `i + 1` paths are those of the first `i`, then path `i`'s. */
  lemma TitlesOfPrefix(paths: seq<string>, i: int)
    requires AllResourcePaths(paths) && 0 <= i < |paths|
    ensures AllResourcePaths(paths[..i]) && AllResourcePaths(paths[..i + 1]) && IsResourcePath(paths[i])
    ensures TitlesOf(paths[..i + 1]) == TitlesOf(paths[..i]) + [ItemTitle(paths[i])]
  {
    assert forall p :: p in paths[..i + 1] ==> p in paths;
    assert paths[..i + 1][..i] == paths[..i];
  }

  /** The loop of `get_items` over the sorted resources, appending one name and one value per path. */
  method Rows(sorted: seq<string>, kind: ValueKind) returns (names: seq<Title>, values: seq<string>)
    requires AllResourcePaths(sorted)
    ensures names == TitlesOf(sorted) && values == Mapped(sorted, ValueFn(kind))
  {
    names, values := [], [];
    for i := 0 to |sorted|
      invariant AllResourcePaths(sorted[..i])
      invariant names == TitlesOf(sorted[..i])
      invariant values == Mapped(sorted[..i], ValueFn(kind))
    {
      TitlesOfPrefix(sorted, i);
      MappedPrefix(sorted, i, ValueFn(kind));
      var path := sorted[i];
      names := names + [ItemTitle(path)];
      values := values + [ItemValue(kind, path)];
    }
    assert sorted[..|sorted|] == sorted;
  }

  /**
   `get_items` of both commands: two parallel lists with one row per resource, the
   values a rearrangement of the resources' values in ascending order of base name.
   */
  method GetItems(resources: seq<string>, kind: ValueKind) returns (names: seq<Title>, values: seq<string>)
    requires AllResourcePaths(resources)
    ensures names == ItemTitles(resources) && values == ItemValues(kind, resources)
    ensures |names| == |values| == |resources|
    ensures forall i, j :: 0 <= i < j < |values| ==> Leq(Basename(values[i]), Basename(values[j]))
    ensures multiset(values) == multiset(Mapped(resources, ValueFn(kind)))
    ensures forall i :: 0 <= i < |values| ==> names[i].caption == BuiltResName(Leaf(values[i]))
  {
    var sorted := Sort(resources, Basename);
    SortKeepsResourcePaths(resources, Basename);
    names, values := Rows(sorted, kind);
    ItemValuesSpec(kind, resources);
    ItemTitlesSpec(kind, resources);
  }

  /** The `i`-th row is the title of the `i`-th path. */
  lemma {:induction false} TitlesOfAt(paths: seq<string>, i: int)
    requires AllResourcePaths(paths) && 0 <= i < |paths|
    ensures TitlesOf(paths)[i] == ItemTitle(paths[i])
  {
    var init := paths[..|paths| - 1];
    if i < |paths| - 1 {
      assert AllResourcePaths(init);
      TitlesOfAt(init, i);
    }
  }

  /** Each row's title is the display name of its value's file name. */
  lemma ItemTitlesSpec(kind: ValueKind, resources: seq<string>)
    requires AllResourcePaths(resources)
    ensures |ItemTitles(resources)| == |ItemValues(kind, resources)|
    ensures forall i :: 0 <= i < |ItemValues(kind, resources)| ==>
              ItemTitles(resources)[i].caption == BuiltResName(Leaf(ItemValues(kind, resources)[i]))
  {
    var sorted := Sort(resources, Basename);
    SortKeepsResourcePaths(resources, Basename);
    forall i | 0 <= i < |sorted|
      ensures ItemTitles(resources)[i].caption == BuiltResName(Leaf(ItemValues(kind, resources)[i]))
    {
      TitlesOfAt(sorted, i);
      ItemValueLeaf(kind, sorted[i]);
    }
  }

  /** The values are ordered by base name and are the resources' values rearranged. */
  lemma ItemValuesSpec(kind: ValueKind, resources: seq<string>)
    ensures forall i, j :: 0 <= i < j < |ItemValues(kind, resources)| ==>
              Leq(Basename(ItemValues(kind, resources)[i]), Basename(ItemValues(kind, resources)[j]))
    ensures multiset(ItemValues(kind, resources)) == multiset(Mapped(resources, ValueFn(kind)))
  {
    var sorted := Sort(resources, Basename);
    SortSorted(resources, Basename);
    forall p
      ensures Basename(ItemValue(kind, p)) == Basename(p)
    {
      BasenameIdempotent(p);
    }
    MappedPermutation(sorted, resources, ValueFn(kind));
  }

  /** The `selected_index` of `run`: the first position of the current value, or -1. */
  function SelectedIndex(values: seq<string>, current: Option<string>): (r: int)
    ensures -1 <= r < |values|
    ensures r >= 0 <==> current.Some? && current.value in values
    ensures r >= 0 ==> values[r] == current.value
    ensures forall j :: 0 <= j < r ==> values[j] != current.value
  {
    if current.None? then -1 else IndexOf(values, current.value)
  }

  /** `any(sublime.find_resources(os.path.basename(name)))`: some resource has the same file name. */
  predicate ResourceExists(name: string, available: seq<string>)
  {
    exists p :: p in available && p != "" && Basename(p) == Basename(name)
  }

  /** What `run` leads to: the named value applied, the notice shown, or the picker opened with these arguments. */
  datatype RunOutcome =
    | Applied
    | Missing(notice: string)
    | Picker(items: seq<Title>, values: seq<string>, selected: int, current: Option<string>)

  /** `SwitchThemeCommand` (kind `FileName`) or `SwitchColorSchemeCommand` (kind `FullPath`). */
  class SwitchWindowCommand {
    const kind: ValueKind
    const key: string
    const settings: Preferences

    constructor (kind: ValueKind, settings: Preferences)
      ensures this.kind == kind && this.key == SettingKey(kind) && this.settings == settings
    {
      this.kind := kind;
      this.key := SettingKey(kind);
      this.settings := settings;
    }

    /**
     `run(name)`. A named value is written only when some resource of `available` has its
     file name; otherwise nothing changes and a notice is shown. Without a name the
     settings stay as they are and the picker opens on the current value.
     */
    method Run(name: Option<string>, available: seq<string>, listed: seq<string>) returns (outcome: RunOutcome)
      requires AllResourcePaths(listed)
      modifies settings
      ensures Truthy(name) && ResourceExists(name.value, available) ==>
                outcome == Applied && settings.entries == old(settings.entries)[key := name]
      ensures Truthy(name) && !ResourceExists(name.value, available) ==>
                outcome == Missing(name.value + " does not exist!") && settings.entries == old(settings.entries)
      ensures !Truthy(name) ==>
                settings.entries == old(settings.entries)
                && outcome == Picker(ItemTitles(listed), ItemValues(kind, listed),
                                     SelectedIndex(ItemValues(kind, listed), old(settings.Get(key))),
                                     old(settings.Get(key)))
    {
      if Truthy(name) {
        if ResourceExists(name.value, available) {
          settings.Set(key, name);
          outcome := Applied;
        } else {
          outcome := Missing(name.value + " does not exist!");
        }
      } else {
        var names, values := GetItems(listed, kind);
        var current := settings.Get(key);
        var selected := SelectedIndex(values, current);
        outcome := Picker(names, values, selected, current);
      }
    }

    /** `on_select(value, abort, abort_value)`: the key gets the pre-picker value on abort, else `value`. */
    method OnSelect(value: string, abort: bool, abortValue: Option<string>)
      modifies settings
      ensures settings.entries == old(settings.entries)[key := if abort then abortValue else Some(value)]
    {
      var chosen := Some(value);
      if abort {
        chosen := abortValue;
      }
      settings.Set(key, chosen);
    }

    /**
     The picker's `on_select` callback `on_select(values[x], x < 0, current_value)`; the
     host passes -1 on cancel. `values[-1]` of an empty list raises before anything is set.
     */
    method PickerSelected(values: seq<string>, x: int, current: Option<string>)
      requires -1 <= x < |values|
      modifies settings
      ensures x >= 0 ==> settings.entries == old(settings.entries)[key := Some(values[x])]
      ensures x < 0 && |values| > 0 ==> settings.entries == old(settings.entries)[key := current]
      ensures x < 0 && |values| == 0 ==> settings.entries == old(settings.entries)
    {
      if x >= 0 || |values| > 0 {
        OnSelect(At(values, x), x < 0, current);
      }
    }
  }
}
