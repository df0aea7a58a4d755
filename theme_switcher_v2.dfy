/**
 The plugin as `theme-switcher.py` has it: display names built with `parse_pkg_name`,
 the main menu built by `create_menu` and installed by `plugin_loaded`, the picker lists
 of `SwitchThemeCommand` and `SwitchColorSchemeCommand`, and the settings change of their
 common base `SwitchCommandBase`.
 */
module ThemeSwitcherV2 {
  import opened Optional
  import opened PyStr
  import opened Sorting
  import opened Resources
  import opened Menu
  import opened Settings
  import opened Commands
  import ThemeSwitcher

  /** `parse_pkg_name`: the name cut before its last `.`, with `-` and `.` read as spaces. */
  function ParsePkgName(name: string): (r: string)
    ensures '-' !in r && '.' !in r
  {
    Spaced(SliceTo(name, RFind(name, '.')))
  }

  /**
   When `name` has a `.`, the cut is at its last `.` (the one at `k`): the result is the
   converted text before it, so its length is `k`, and no directory part is removed.
   */
  lemma ParsePkgNameCutsAtLastDot(name: string, k: int)
    requires 0 <= k < |name| && name[k] == '.'
    requires forall j :: k < j < |name| ==> name[j] != '.'
    ensures ParsePkgName(name) == Spaced(name[..k])
    ensures |ParsePkgName(name)| == k
    ensures forall j :: 0 <= j < k && name[j] == '/' ==> ParsePkgName(name)[j] == '/'
  {
    assert RFind(name, '.') == k;
  }

  /** When `name` has no `.`, `rfind` gives -1 and the slice `[:-1]` drops the last character. */
  lemma ParsePkgNameWithoutDot(name: string)
    requires forall j :: 0 <= j < |name| ==> name[j] != '.'
    ensures |name| > 0 ==> ParsePkgName(name) == Spaced(name[..|name| - 1])
    ensures name == [] ==> ParsePkgName(name) == []
  {
    assert RFind(name, '.') == -1;
  }

  /** For a plain file name, which is what both menus pass, the two versions give the same caption. */
  lemma SameNameForFileNames(name: string)
    requires '/' !in name
    ensures ThemeSwitcher.BuiltResName(name) == ParsePkgName(name)
  {
    var stem := SliceTo(name, RFind(name, '.'));
    assert forall j :: 0 <= j < |stem| ==> stem[j] == name[j];
    BasenameOfPlainName(stem);
  }

  /** The second loop of `create_menu`: one node per package of `groups`, in that order. */
  method GroupNodes(groups: seq<string>, lists: map<string, seq<string>>) returns (menu: seq<MenuNode>)
    requires forall k :: k in groups ==> k in lists
    ensures menu == PackageNodes(groups, lists, "switch_theme", ParsePkgName)
  {
    menu := [];
    for i := 0 to |groups|
      invariant menu == PackageNodes(groups[..i], lists, "switch_theme", ParsePkgName)
    {
      PackageNodesPrefix(groups, i, lists, "switch_theme", ParsePkgName);
      menu := menu + [PackageNode(groups[i], lists[groups[i]], "switch_theme", ParsePkgName)];
    }
    assert groups[..|groups|] == groups;
  }

  /** `create_menu()`, given the resources `find_resources("*.sublime-theme")` returns. */
  method CreateMenu(resources: seq<string>) returns (menu: seq<MenuNode>)
    requires AllResourcePaths(resources)
    ensures menu == ThemeMenu(resources, "switch_theme", "refresh_theme_menu", ParsePkgName)
    ensures IsThemeMenu(menu, resources, "switch_theme", "refresh_theme_menu", ParsePkgName)
  {
    var d := GroupByPackage(resources);
    var groups := Sort(d.order, Whole);
    assert groups == SortedPackages(resources);
    menu := GroupNodes(groups, d.lists);
    menu := menu + [Separator];
    menu := menu + [RefreshItem("refresh_theme_menu")];
    ThemeMenuShape(resources, "switch_theme", "refresh_theme_menu", ParsePkgName);
  }

  /** The structure `plugin_loaded` decodes before it fills in the theme menu. */
  const Skeleton: seq<MenuNode> :=
    [MenuNode(Some("preferences"), None, None, None,
       Some([MenuNode(Some("themes"), Some("Theme"), None, None, None)]))]

  /**
   `plugin_loaded` without the file write: `menu[0]['children'][0]['children'] = create_menu()`
   on the decoded skeleton. Only that one entry changes.
   */
  method PluginLoaded(themes: seq<string>) returns (menu: seq<MenuNode>)
    requires AllResourcePaths(themes)
    ensures |menu| == 1 && menu[0].children.Some? && |menu[0].children.value| == 1
    ensures menu[0].(children := Skeleton[0].children) == Skeleton[0]
    ensures menu[0].children.value[0].(children := None) == Skeleton[0].children.value[0]
    ensures menu[0].children.value[0].caption == Some("Theme") && menu[0].children.value[0].id == Some("themes")
    ensures menu[0].children.value[0].children
         == Some(ThemeMenu(themes, "switch_theme", "refresh_theme_menu", ParsePkgName))
    ensures IsThemeMenu(menu[0].children.value[0].children.value, themes, "switch_theme", "refresh_theme_menu",
                        ParsePkgName)
  {
    menu := Skeleton;
    var items := CreateMenu(themes);
    var top := menu[0];
    var entry := top.children.value[0];
    menu := menu[0 := top.(children := Some(top.children.value[0 := entry.(children := Some(items))]))];
  }

  /** The name a picker row shows: `parse_pkg_name(os.path.basename(path))`. */
  function PickerName(path: string): string
  {
    ParsePkgName(Basename(path))
  }

  /** The picker names of `paths`, in their order. */
  function PickerNames(paths: seq<string>): (r: seq<string>)
    ensures |r| == |paths|
  {
    if paths == [] then [] else PickerNames(paths[..|paths| - 1]) + [PickerName(paths[|paths| - 1])]
  }

  /** One more row: the names of the first `i + 1` paths are those of the first `i`, then path `i`'s. */
  lemma PickerNamesPrefix(paths: seq<string>, i: int)
    requires 0 <= i < |paths|
    ensures PickerNames(paths[..i + 1]) == PickerNames(paths[..i]) + [PickerName(paths[i])]
  {
    assert paths[..i + 1][..i] == paths[..i];
  }

  /** The `i`-th name is the picker name of the `i`-th path. */
  lemma {:induction false} PickerNamesAt(paths: seq<string>, i: int)
    requires 0 <= i < |paths|
    ensures PickerNames(paths)[i] == PickerName(paths[i])
  {
    if i < |paths| - 1 {
      PickerNamesAt(paths[..|paths| - 1], i);
    }
  }

  /**
   The loop of `get_items` over the sorted resources: the theme command appends the file
   name as value, the colour-scheme command the full path; both name the row after the file name.
   */
  method Rows(sorted: seq<string>, kind: ValueKind) returns (names: seq<string>, values: seq<string>)
    ensures names == PickerNames(sorted) && values == Mapped(sorted, ValueFn(kind))
  {
    names, values := [], [];
    for i := 0 to |sorted|
      invariant names == PickerNames(sorted[..i])
      invariant values == Mapped(sorted[..i], ValueFn(kind))
    {
      var path := sorted[i];
      PickerNamesPrefix(sorted, i);
      MappedPrefix(sorted, i, ValueFn(kind));
      if kind == FileName {
        path := Basename(path);
        names := names + [ParsePkgName(path)];
        values := values + [path];
      } else {
        names := names + [ParsePkgName(Basename(path))];
        values := values + [path];
      }
    }
    assert sorted[..|sorted|] == sorted;
  }

  /** The `names` list of `get_items`: resources sorted by full path, one name each. */
  function PickerItems(resources: seq<string>): seq<string>
  {
    PickerNames(Sort(resources, Whole))
  }

  /** The `values` list of `get_items`: resources sorted by full path, one value each. */
  function ItemValues(kind: ValueKind, resources: seq<string>): seq<string>
  {
    Mapped(Sort(resources, Whole), ValueFn(kind))
  }

  /**
   `get_items` of both commands: the resources sorted by full path (not by file name),
   one name and one value each; each name is the display name of its value's file name.
   */
  method GetItems(resources: seq<string>, kind: ValueKind) returns (names: seq<string>, values: seq<string>)
    ensures names == PickerItems(resources) && values == ItemValues(kind, resources)
    ensures |names| == |values| == |resources|
    ensures forall i :: 0 <= i < |values| ==> names[i] == ParsePkgName(Leaf(values[i]))
    ensures kind == FullPath ==> values == Sort(resources, Whole) && SortedBy(values, Whole)
    ensures multiset(values) == multiset(Mapped(resources, ValueFn(kind)))
  {
    var sorted := Sort(resources, Whole);
    names, values := Rows(sorted, kind);
    PickerItemsSpec(kind, resources);
    ItemValuesSpec(kind, resources);
  }

  /** Each name is the display name of its value's file name. */
  lemma PickerItemsSpec(kind: ValueKind, resources: seq<string>)
    ensures |PickerItems(resources)| == |ItemValues(kind, resources)|
    ensures forall i :: 0 <= i < |ItemValues(kind, resources)| ==>
              PickerItems(resources)[i] == ParsePkgName(Leaf(ItemValues(kind, resources)[i]))
  {
    var sorted := Sort(resources, Whole);
    forall i | 0 <= i < |sorted|
      ensures PickerItems(resources)[i] == ParsePkgName(Leaf(ItemValues(kind, resources)[i]))
    {
      PickerNamesAt(sorted, i);
      ItemValueLeaf(kind, sorted[i]);
    }
  }

  /** The values are the resources' values rearranged; colour-scheme values are the sorted paths themselves. */
  lemma ItemValuesSpec(kind: ValueKind, resources: seq<string>)
    ensures kind == FullPath ==> ItemValues(kind, resources) == Sort(resources, Whole)
    ensures kind == FullPath ==> SortedBy(ItemValues(kind, resources), Whole)
    ensures multiset(ItemValues(kind, resources)) == multiset(Mapped(resources, ValueFn(kind)))
  {
    var sorted := Sort(resources, Whole);
    SortSorted(resources, Whole);
    MappedPermutation(sorted, resources, ValueFn(kind));
  }

  /** The value the picker's `on_select=lambda x: self.apply(values[x])` applies, as written: `None` where it raises. */
  function SelectionAsWritten(values: seq<string>, x: int): (r: Option<string>)
    requires -1 <= x < |values|
  {
    if x >= 0 || |values| > 0 then Some(At(values, x)) else None
  }

  /** The value the picker should apply: the chosen row's, and nothing when the picker is cancelled. */
  function Selection(values: seq<string>, x: int): (r: Option<string>)
    requires -1 <= x < |values|
  {
    if x >= 0 then Some(values[x]) else None
  }

  /** As written, cancelling a non-empty picker (the host passes -1) applies its last value. */
  lemma CancelAppliesLastValue(values: seq<string>)
    requires |values| > 0
    ensures SelectionAsWritten(values, -1) == Some(values[|values| - 1])
    ensures SelectionAsWritten(values, -1) != Selection(values, -1)
  {
  }

  /** Cancelling the picker with two themes listed switches to the second one. */
  lemma CancelExample()
    ensures SelectionAsWritten(["Adaptive.sublime-theme", "Default.sublime-theme"], -1) == Some("Default.sublime-theme")
  {
  }

  /** The corrected selection applies exactly the chosen row, and nothing on cancel. */
  lemma SelectionSpec(values: seq<string>, x: int)
    requires -1 <= x < |values|
    ensures Selection(values, x).Some? <==> x >= 0
    ensures x >= 0 ==> Selection(values, x) == SelectionAsWritten(values, x) == Some(values[x])
  {
  }

  /** What `run` leads to: the named value applied, or the picker opened on these rows. */
  datatype RunOutcome =
    | Applied
    | Picker(items: seq<string>, values: seq<string>)

  /** `SwitchThemeCommand` (kind `FileName`) or `SwitchColorSchemeCommand` (kind `FullPath`). */
  class SwitchCommand {
    const kind: ValueKind
    const key: string
    const settings: Preferences

    constructor (kind: ValueKind, settings: Preferences)
      ensures this.kind == kind && this.key == SettingKey(kind) && this.settings == settings
    {
      this.kind := kind;
      this.key := SettingKey(kind);
      this.settings := settings;
    }

    /** `apply(name)`: the key is set to `name`, with no check that such a resource exists. */
    method Apply(name: string)
      modifies settings
      ensures settings.entries == old(settings.entries)[key := Some(name)]
    {
      settings.Set(key, Some(name));
    }

    /** `run(name)`: a named value is applied unconditionally; without one the picker opens and nothing changes. */
    method Run(name: Option<string>, listed: seq<string>) returns (outcome: RunOutcome)
      modifies settings
      ensures Truthy(name) ==> outcome == Applied && settings.entries == old(settings.entries)[key := name]
      ensures !Truthy(name) ==>
                settings.entries == old(settings.entries)
                && outcome == Picker(PickerItems(listed), ItemValues(kind, listed))
    {
      if Truthy(name) {
        Apply(name.value);
        outcome := Applied;
      } else {
        var names, values := GetItems(listed, kind);
        outcome := Picker(names, values);
      }
    }

    /** The picker callback as written: on cancel (-1) it applies `values[-1]`, and raises on an empty list. */
    method PickerSelectedAsWritten(values: seq<string>, x: int)
      requires -1 <= x < |values|
      modifies settings
      ensures SelectionAsWritten(values, x).Some? ==>
                settings.entries == old(settings.entries)[key := SelectionAsWritten(values, x)]
      ensures SelectionAsWritten(values, x).None? ==> settings.entries == old(settings.entries)
    {
      if x >= 0 || |values| > 0 {
        Apply(At(values, x));
      }
    }

    /** The picker callback as intended: the chosen row is applied, and a cancel changes nothing. */
    method PickerSelected(values: seq<string>, x: int)
      requires -1 <= x < |values|
      modifies settings
      ensures x >= 0 ==> settings.entries == old(settings.entries)[key := Some(values[x])]
      ensures x < 0 ==> settings.entries == old(settings.entries)
    {
      if x >= 0 {
        Apply(values[x]);
      }
    }
  }
}
