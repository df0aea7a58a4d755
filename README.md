# Theme switcher menu, modelled in Dafny

A Sublime Text plugin that lets the user switch the UI theme and the colour scheme. It
builds a "Preferences > Theme" main menu with one sub-menu per package that ships
`*.sublime-theme` files. It also offers two quick-panel commands, one for themes and
one for colour schemes, that write the chosen value to `Preferences.sublime-settings`.
The repository holds two versions of the plugin, and both are modelled side by side:

- `theme_switcher.py` is module `ThemeSwitcher` (file `theme_switcher.dfy`).
  - Display names come from `built_res_name`.
  - `RefreshThemeCacheCommand` builds the menu.
  - The pickers sort by file name, preselect the current value and restore it on cancel.
  - A named value is written only if a resource of that file name exists.
- `theme-switcher.py` is module `ThemeSwitcherV2` (file `theme_switcher_v2.dfy`).
  - Display names come from `parse_pkg_name`.
  - `plugin_loaded` (which `RefreshThemeMenuCommand.run` simply calls) installs the menu.
  - The pickers sort by full path.
  - `apply` writes any named value unconditionally.

The shared pieces are split into their own modules:

- `PyStr` (`pystr.dfy`) holds the Python builtins used, on `seq<char>`:
  - one-character `find`/`rfind`
  - slicing with a negative bound
  - `os.path.basename`
  - one-character `replace`, `split` and `join`
  - lexicographic `str` order
  - `list.index` and negative indexing
- `Sorting` (`sorting.dfy`) is `sorted(..., key=...)`, a stable sort. It is proved to order by the key, to be a permutation and to keep equal keys in input order.
- `Resources` (`resources.dfy`) covers resource paths, their package (`split("/")[1]`) and file name (`split("/")[-1]`), and the dictionary `d` filled by `d.setdefault(package, []).append(file_name)`.
- `Menu` (`menu.dfy`) is the menu tree both `create_menu`s build, and the shape they promise.
- `Settings` (`settings.dfy`) is the preferences object, as a class whose `entries` map the methods update.
- `Commands` (`commands.dfy`) holds the settings key and the stored value of each command kind.
- `Optional` (`optional.dfy`) is the `Option` type.

Some of the source's edge cases are preserved on purpose:

- When a name has no `.`, `rfind` returns -1 and the slice `[:-1]` drops the last character.
- `built_res_name` takes the base name, but `parse_pkg_name` does not.
- `values.index` raising `ValueError` becomes index -1.
- `values[-1]` is the last element, and raises on an empty list.

Python dictionaries keep insertion order. `d` is therefore a `Groups` value: the keys in insertion order plus a map. `sorted(d.items())` compares `(key, list)` pairs. The keys are distinct, so this equals sorting the keys, which is how it is modelled.

## Model

| member | source | states |
|---|---|---|
| ThemeSwitcher.BuiltResName | theme_switcher.py:13-17 | the display name never contains `-`, `.` or `/` |
| ThemeSwitcher.BuiltResNameCutsAtLastDot | theme_switcher.py:17 | when the last `.` is at `k`, the name is the base name of `name[:k]` with `-`/`.` as spaces, and has that base name's length |
| ThemeSwitcher.BuiltResNameWithoutDot | theme_switcher.py:17 | without a `.`, `rfind` gives -1, so the last character is dropped before the base name is taken; the empty name gives the empty name |
| ThemeSwitcher.CreateMenu | theme_switcher.py:70-91 | one node per distinct package in strictly ascending order, every package present; each node's commands are its package's file names stably sorted by dots-as-spaces, each running `command` with `args.name` the file name and caption `built_res_name` of it; then the separator and "Refresh Theme Cache" running `refresh_theme_cache` |
| ThemeSwitcher.MainMenu | theme_switcher.py:54-62 | the written menu is exactly `[{"id": "preferences", "children": [{"caption": "Theme", "id": "theme", "children": menu}]}]`, where `menu` is the theme menu running `switch_theme`, and it has the menu shape |
| ThemeSwitcher.Rows | theme_switcher.py:159-163 | the loop appends one title and one value per sorted path, in order |
| ThemeSwitcher.GetItems | theme_switcher.py:151-185 | names and values have one entry per resource; values are ordered by file name and are a rearrangement of the resources' values (file names for themes, full paths for colour schemes); each title is `built_res_name` of its value's file name |
| ThemeSwitcher.ItemTitlesSpec | theme_switcher.py:160-162 | the title of row `i` is `built_res_name` of the file name of value `i` |
| ThemeSwitcher.ItemValuesSpec | theme_switcher.py:159-163 | values ascend by file name and are a permutation of the resources' values |
| ThemeSwitcher.SelectedIndex | theme_switcher.py:127-132 | the first index holding the current value, or -1 exactly when the current value is unset or not listed |
| ThemeSwitcher.SwitchWindowCommand.constructor | theme_switcher.py:103-105 | the command holds its kind's settings key and the shared settings |
| ThemeSwitcher.SwitchWindowCommand.Run | theme_switcher.py:107-138 | a non-empty name is written only when a resource with its file name exists; otherwise nothing changes and the notice "<name> does not exist!" is shown; without a name nothing changes and the picker gets the items, the selected index and the current value |
| ThemeSwitcher.SwitchWindowCommand.OnSelect | theme_switcher.py:140-145 | the key is set to `abort_value` on abort and to `value` otherwise; no other key changes |
| ThemeSwitcher.SwitchWindowCommand.PickerSelected | theme_switcher.py:138 | choosing row `x` writes `values[x]`; cancelling restores the value from before the picker; cancelling an empty picker raises on `values[-1]` and writes nothing |
| ThemeSwitcherV2.ParsePkgName | theme-switcher.py:35-36 | the display name never contains `-` or `.` |
| ThemeSwitcherV2.ParsePkgNameCutsAtLastDot | theme-switcher.py:36 | when the last `.` is at `k`, the name is `name[:k]` with `-`/`.` as spaces, of length `k`, keeping any `/` (no base name is taken) |
| ThemeSwitcherV2.ParsePkgNameWithoutDot | theme-switcher.py:36 | without a `.`, the last character is dropped |
| ThemeSwitcherV2.SameNameForFileNames | theme-switcher.py:35-36 | for a name with no `/`, both versions give the same display name |
| ThemeSwitcherV2.GroupNodes | theme-switcher.py:16-27 | the loop appends one package node per sorted package, in order |
| ThemeSwitcherV2.CreateMenu | theme-switcher.py:6-32 | the same menu shape as the first version, with `switch_theme` commands, `parse_pkg_name` captions and a refresh entry running `refresh_theme_menu` |
| ThemeSwitcherV2.PluginLoaded | theme-switcher.py:51-61 | the decoded skeleton is unchanged except that the "Theme" entry (id `themes`) gets the theme menu as its children |
| ThemeSwitcherV2.Rows | theme-switcher.py:132-156 | the loop appends one name and one value per sorted path, in order |
| ThemeSwitcherV2.GetItems | theme-switcher.py:121-158 | one name and one value per resource, sorted by full path; theme values are file names and colour-scheme values are the sorted paths themselves; each name is `parse_pkg_name` of its value's file name; values are a permutation of the resources' values |
| ThemeSwitcherV2.PickerItemsSpec | theme-switcher.py:133-134 | the name of row `i` is `parse_pkg_name` of the file name of value `i` |
| ThemeSwitcherV2.ItemValuesSpec | theme-switcher.py:154-156 | colour-scheme values are the paths in ascending order; values of either kind are a permutation of the resources' values |
| ThemeSwitcherV2.CancelAppliesLastValue | theme-switcher.py:110 | as written, cancelling a non-empty picker applies the last value, which differs from applying nothing |
| ThemeSwitcherV2.CancelExample | theme-switcher.py:110 | cancelling a picker listing two themes applies the second |
| ThemeSwitcherV2.SelectionSpec | theme-switcher.py:110 | the corrected selection applies a value exactly when a row was chosen, and then the same one as written |
| ThemeSwitcherV2.SwitchCommand.constructor | theme-switcher.py:118-119 | the command holds its kind's settings key and the shared settings |
| ThemeSwitcherV2.SwitchCommand.Apply | theme-switcher.py:113-115 | the key is set to `name`, with no existence check; no other key changes |
| ThemeSwitcherV2.SwitchCommand.Run | theme-switcher.py:97-111 | a non-empty name is applied unconditionally; otherwise nothing changes and the picker gets the names and values of `get_items` |
| ThemeSwitcherV2.SwitchCommand.PickerSelectedAsWritten | theme-switcher.py:110 | `apply(values[x])` as written: -1 applies the last value; an empty list raises and writes nothing |
| ThemeSwitcherV2.SwitchCommand.PickerSelected | theme-switcher.py:110 | corrected callback: a chosen row's value is applied and a cancel changes nothing |
| Commands.ItemValueLeaf | theme_switcher.py:163 | a stored value has the file name of its resource, for file-name and full-path values alike |
| Resources.Package | theme_switcher.py:74-77 | a package name contains no `/` |
| Resources.PackageIsSecondPiece | theme_switcher.py:74-77 | the package is `path.split("/")[1]`, which exists for a resource path |
| Resources.LeafIsLastPiece | theme_switcher.py:74-77 | the file name is `path.split("/")[-1]`, i.e. `os.path.basename(path)` |
| Resources.Spaced | theme_switcher.py:17 | `replace("-", " ").replace(".", " ")` keeps the length, maps each `-` and `.` to a space and nothing else |
| Resources.SetDefaultAppendSpec | theme_switcher.py:77 | `setdefault(key, []).append(v)` adds the key if it is new, appends `v` to its list and leaves every other list alone |
| Resources.GroupSpec | theme_switcher.py:73-77 | after the loop, the keys are exactly the packages, once each, and each list holds its package's file names in input order |
| Resources.GroupByPackage | theme-switcher.py:8-14 | the grouping loop computes that dictionary |
| Sorting.Sort | theme_switcher.py:159 | `sorted` keeps the length and the multiset of elements |
| Sorting.SortSpec | theme_switcher.py:85 | `sorted(..., key=k)` is ordered by `k`, is a permutation, and keeps elements of equal key in input order |
| Sorting.SortDistinctAscending | theme_switcher.py:86 | sorting distinct package names gives a strictly ascending list |
| Menu.ThemeItemsSpec | theme_switcher.py:81-85 | each child is a command whose caption derives from its `args.name`, and the names are the file names sorted by dots-as-spaces |
| Menu.PackageNodeSpec | theme_switcher.py:79-86 | a package node holds exactly its package's file names, stably sorted |
| Menu.SortedPackagesSpec | theme_switcher.py:86 | the sorted keys are the distinct packages, each once, strictly ascending, each mapped to its file names |
| Menu.ThemeMenuShape | theme_switcher.py:79-91 | the built list has the menu shape stated for `CreateMenu` |
| Menu.PackageNodesPrefix | theme-switcher.py:16-27 | appending a package's node extends the node list by that node |
| Settings.Preferences.constructor | theme_switcher.py:105 | the settings start from the given entries |
| Settings.Preferences.Set | theme_switcher.py:117 | `settings.set(key, value)` changes that key only |
| PyStr.LastPieceIsBasename | theme_switcher.py:160-163 | the last piece of `split("/")` is `os.path.basename` |
| PyStr.SplitJoin | theme_switcher.py:74 | joining the pieces of `split` with the separator gives back the string |

## Left out

- File-system I/O is not modelled: the cache directory, writing `Main.sublime-menu`, `encode_value`/`decode_value`, and `plugin_unloaded`. The menu is returned as a value. `PluginLoaded` starts from the decoded skeleton as a constant.
- `sublime.find_resources` is not modelled. Its result is an input list of paths in host order. Every path is assumed to contain a `/`, which host resource paths (`Packages/<package>/...`) always do; this is the `AllResourcePaths` precondition.
- The first version checks a name with `any(find_resources(basename(name)))`. This is modelled as "some resource in `available` (a list separate from the picker's `listed` resources) with a non-empty path has the same file name". Glob wildcards in the name are not interpreted.
- The quick panel itself is not modelled: showing it, `KEEP_OPEN_ON_FOCUS_LOST`, and the first version's `on_highlight` live preview. The callbacks are modelled as methods taking the index the host passes (-1 on cancel).
- The second version has no `__init__`; its `apply` calls `load_settings("Preferences.sublime-settings")` on each call. The host returns the same settings object every time, so the model's commands hold one shared `Preferences` object, which behaves the same.
- `save_settings` and `status_message` are host calls. The settings object is held in memory, and the notice is returned in the outcome.
- Python `str` order is modelled as lexicographic order on characters. Unicode details beyond code-point order are out of scope.
- Python raising `IndexError` is modelled as "nothing is written" (`PickerSelected`, `PickerSelectedAsWritten`). The traceback itself is not modelled.

## Findings

| source | as written | input that shows it | evidently intended | confidence | as-written member | corrected member |
|---|---|---|---|---|---|---|
| theme-switcher.py:110 | `on_select=lambda x: self.apply(values[x])` applies `values[-1]` when the host reports a cancelled panel with -1 | picker over `["Adaptive.sublime-theme", "Default.sublime-theme"]` closed with Escape (x = -1): "Default.sublime-theme" is applied | a cancel leaves the setting unchanged, as the first version's `on_select` restores the old value | not executed | ThemeSwitcherV2.CancelAppliesLastValue | ThemeSwitcherV2.SwitchCommand.PickerSelected |
