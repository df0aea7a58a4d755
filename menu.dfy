/**
 The menu tree both versions of `create_menu` build and hand to the host's menu file:
 one node per package in ascending order, each holding one command per theme file,
 then a separator and a refresh entry.
 */
module Menu {
  import opened Optional
  import opened PyStr
  import opened Sorting
  import opened Resources

  /** One dictionary of a `.sublime-menu` file; a key the dictionary does not have is `None`. */
  datatype MenuNode = MenuNode(
    id: Option<string>,
    caption: Option<string>,
    command: Option<string>,
    args: Option<map<string, string>>,
    children: Option<seq<MenuNode>>)

  /** `{"caption": caption, "command": command, "args": {"name": name}}` */
  function CommandItem(caption: string, command: string, name: string): MenuNode
  {
    MenuNode(None, Some(caption), Some(command), Some(map["name" := name]), None)
  }

  /** `{"caption": "-", "id": "separator"}` */
  const Separator: MenuNode := MenuNode(Some("separator"), Some("-"), None, None, None)

  /** `{"caption": "Refresh Theme Cache", "command": command}` */
  function RefreshItem(command: string): MenuNode
  {
    MenuNode(None, Some("Refresh Theme Cache"), Some(command), None, None)
  }

  /** The children of a package node: one command per file name, sorted by `x.replace(".", " ")`. */
  function ThemeItems(leaves: seq<string>, command: string, caption: string -> string): seq<MenuNode>
  {
    var sorted := Sort(leaves, DotsAsSpaces);
    seq(|sorted|, i requires 0 <= i < |sorted| => CommandItem(caption(sorted[i]), command, sorted[i]))
  }

  /** `{"caption": pkg, "children": [...]}` */
  function PackageNode(pkg: string, leaves: seq<string>, command: string, caption: string -> string): MenuNode
  {
    MenuNode(None, Some(pkg), None, None, Some(ThemeItems(leaves, command, caption)))
  }

  /** One package node per key of `keys`, in that order. */
  function PackageNodes(keys: seq<string>, lists: map<string, seq<string>>, command: string,
                        caption: string -> string): seq<MenuNode>
    requires forall k :: k in keys ==> k in lists
  {
    seq(|keys|, i requires 0 <= i < |keys| => PackageNode(keys[i], lists[keys[i]], command, caption))
  }

  /** One more package: the nodes of the first `i + 1` keys are those of the first `i`, then key `i`'s. */
  lemma PackageNodesPrefix(keys: seq<string>, i: int, lists: map<string, seq<string>>, command: string,
                           caption: string -> string)
    requires forall k :: k in keys ==> k in lists
    requires 0 <= i < |keys|
    ensures forall k :: k in keys[..i + 1] ==> k in lists
    ensures PackageNodes(keys[..i + 1], lists, command, caption)
         == PackageNodes(keys[..i], lists, command, caption) + [PackageNode(keys[i], lists[keys[i]], command, caption)]
  {
    assert forall k :: k in keys[..i + 1] ==> k in keys;
  }

  /** The packages of the filled dictionary, as `sorted` returns them. */
  function SortedPackages(paths: seq<string>): (keys: seq<string>)
    requires AllResourcePaths(paths)
    ensures forall k :: k in keys ==> k in Group(paths).lists
  {
    var d := Group(paths);
    GroupSpec(paths);
    var keys := Sort(d.order, Whole);
    assert forall k :: k in keys ==> k in multiset(d.order);
    keys
  }

  /**
   The list `create_menu` returns for the resources `paths`: the package nodes, whose
   commands are `command` and whose captions come from `caption`, then the separator
   and a refresh entry running `refresh`.
   */
  function ThemeMenu(paths: seq<string>, command: string, refresh: string,
                     caption: string -> string): seq<MenuNode>
    requires AllResourcePaths(paths)
  {
    PackageNodes(SortedPackages(paths), Group(paths).lists, command, caption)
      + [Separator, RefreshItem(refresh)]
  }

  /** A command child as `create_menu` writes one: its caption derived from its `args.name`. */
  predicate IsThemeItem(n: MenuNode, command: string, caption: string -> string)
  {
    && n.args.Some? && "name" in n.args.value
    && n == CommandItem(caption(n.args.value["name"]), command, n.args.value["name"])
  }

  /** The `args.name` of each command child. */
  function ItemNames(items: seq<MenuNode>): seq<string>
    requires forall i :: 0 <= i < |items| ==> items[i].args.Some? && "name" in items[i].args.value
  {
    seq(|items|, i requires 0 <= i < |items| => items[i].args.value["name"])
  }

  /**
   `n` is the node of its package: it holds one command child per path of that package,
   ordered by the dots-as-spaces key, with names of equal key in input order.
   */
  ghost predicate IsPackageNode(n: MenuNode, paths: seq<string>, command: string, caption: string -> string)
    requires AllResourcePaths(paths)
  {
    && n.caption.Some? && n.children.Some? && n.id.None? && n.command.None? && n.args.None?
    && (forall i :: 0 <= i < |n.children.value| ==> IsThemeItem(n.children.value[i], command, caption))
    && IsStableSortOf(ItemNames(n.children.value), LeavesIn(paths, n.caption.value), DotsAsSpaces)
  }

  /**
   `m` is the menu for `paths`: one node per distinct package in strictly ascending
   order of package name, every package present, then exactly the separator and the
   refresh entry.
   */
  ghost predicate IsThemeMenu(m: seq<MenuNode>, paths: seq<string>, command: string, refresh: string,
                              caption: string -> string)
    requires AllResourcePaths(paths)
  {
    var n := |Packages(paths)|;
    && |m| == n + 2
    && m[n] == Separator
    && m[n + 1] == RefreshItem(refresh)
    && (forall i :: 0 <= i < n ==> IsPackageNode(m[i], paths, command, caption))
    && (forall i, j :: 0 <= i < j < n ==>
          m[i].caption.Some? && m[j].caption.Some? && Less(m[i].caption.value, m[j].caption.value))
    && (forall k :: k in Packages(paths) <==> exists i :: 0 <= i < n && m[i].caption == Some(k))
  }

  /** The command children are well-formed items whose names are the sorted file names. */
  lemma ThemeItemsSpec(leaves: seq<string>, command: string, caption: string -> string)
    ensures var items := ThemeItems(leaves, command, caption);
      && (forall i :: 0 <= i < |items| ==> IsThemeItem(items[i], command, caption))
      && ItemNames(items) == Sort(leaves, DotsAsSpaces)
  {
  }

  lemma PackageNodeSpec(pkg: string, paths: seq<string>, command: string, caption: string -> string)
    requires AllResourcePaths(paths)
    ensures IsPackageNode(PackageNode(pkg, LeavesIn(paths, pkg), command, caption), paths, command, caption)
  {
    var leaves := LeavesIn(paths, pkg);
    ThemeItemsSpec(leaves, command, caption);
    SortSpec(leaves, DotsAsSpaces);
  }

  /** The sorted packages are the distinct packages of `paths`, each once, strictly ascending. */
  lemma SortedPackagesSpec(paths: seq<string>)
    requires AllResourcePaths(paths)
    ensures |SortedPackages(paths)| == |Packages(paths)|
    ensures forall k :: k in Packages(paths) <==> k in SortedPackages(paths)
    ensures forall i, j :: 0 <= i < j < |SortedPackages(paths)| ==>
              Less(SortedPackages(paths)[i], SortedPackages(paths)[j])
    ensures forall k :: k in SortedPackages(paths) ==> Group(paths).lists[k] == LeavesIn(paths, k)
  {
    var d := Group(paths);
    GroupSpec(paths);
    var keys := SortedPackages(paths);
    SortDistinctAscending(d.order);
    DistinctCardinality(d.order);
    assert |keys| == |multiset(keys)| == |multiset(d.order)| == |d.order|;
    assert (set k | k in d.order) == Packages(paths);
    forall k
      ensures k in Packages(paths) <==> k in keys
    {
      assert k in keys <==> k in multiset(keys);
      assert k in d.order <==> k in multiset(d.order);
    }
  }

  /** The first `|keys|` entries of the menu are the package nodes of `keys`, in that order. */
  lemma MenuPrefix(paths: seq<string>, command: string, refresh: string, caption: string -> string)
    requires AllResourcePaths(paths)
    ensures var m, keys := ThemeMenu(paths, command, refresh, caption), SortedPackages(paths);
      && |m| == |keys| + 2
      && m[|keys|] == Separator && m[|keys| + 1] == RefreshItem(refresh)
      && (forall i :: 0 <= i < |keys| ==> m[i] == PackageNode(keys[i], Group(paths).lists[keys[i]], command, caption))
  {
  }

  /** A list of distinct captions, each `Some`, in the order of `keys`. */
  lemma CaptionsOf(m: seq<MenuNode>, keys: seq<string>, pkgs: set<string>)
    requires |keys| <= |m|
    requires forall i :: 0 <= i < |keys| ==> m[i].caption == Some(keys[i])
    requires forall i, j :: 0 <= i < j < |keys| ==> Less(keys[i], keys[j])
    requires forall k :: k in pkgs <==> k in keys
    ensures forall i, j :: 0 <= i < j < |keys| ==>
              m[i].caption.Some? && m[j].caption.Some? && Less(m[i].caption.value, m[j].caption.value)
    ensures forall k :: k in pkgs <==> exists i :: 0 <= i < |keys| && m[i].caption == Some(k)
  {
    forall k
      ensures k in pkgs <==> exists i :: 0 <= i < |keys| && m[i].caption == Some(k)
    {
      if k in keys {
        var i :| 0 <= i < |keys| && keys[i] == k;
        assert m[i].caption == Some(k);
      }
    }
  }

  /** `ThemeMenu` has the shape `create_menu` promises. */
  lemma ThemeMenuShape(paths: seq<string>, command: string, refresh: string, caption: string -> string)
    requires AllResourcePaths(paths)
    ensures IsThemeMenu(ThemeMenu(paths, command, refresh, caption), paths, command, refresh, caption)
  {
    var keys := SortedPackages(paths);
    SortedPackagesSpec(paths);
    MenuPrefix(paths, command, refresh, caption);
    var m := ThemeMenu(paths, command, refresh, caption);
    forall i | 0 <= i < |keys|
      ensures IsPackageNode(m[i], paths, command, caption)
    {
      PackageNodeSpec(keys[i], paths, command, caption);
    }
    CaptionsOf(m, keys, Packages(paths));
  }
}
