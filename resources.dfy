/**
 Resource paths as the host lists them ("Packages/<package>/.../<file>"), the parts the
 plugin cuts out of them, and the package-to-file-names dictionary `d` that both versions
 of `create_menu` fill with `d.setdefault(package, []).append(file_name)`.
 */
module Resources {
  import opened PyStr
  import opened Sorting

  /** A path that has a second `/`-separated segment, so `path.split("/")[1]` exists. */
  predicate IsResourcePath(p: string)
  {
    '/' in p
  }

  predicate AllResourcePaths(paths: seq<string>)
  {
    forall p :: p in paths ==> IsResourcePath(p)
  }

  /** Sorting resources keeps them resources. */
  lemma SortKeepsResourcePaths(paths: seq<string>, key: string -> string)
    requires AllResourcePaths(paths)
    ensures AllResourcePaths(Sort(paths, key))
  {
    forall p | p in Sort(paths, key)
      ensures IsResourcePath(p)
    {
      assert p in multiset(Sort(paths, key));
    }
  }

  /** The package that owns the resource: the text between the first and the second `/`. */
  function Package(p: string): (r: string)
    requires IsResourcePath(p)
    ensures '/' !in r
  {
    var a := Find(p, '/');
    var b := FindFrom(p, '/', a + 1);
    var r := if b < 0 then p[a + 1..] else p[a + 1..b];
    assert forall j :: 0 <= j < |r| ==> r[j] == p[a + 1 + j];
    r
  }

  /** `Package` is the source's `path.split("/")[1]`. */
  lemma PackageIsSecondPiece(p: string)
    requires IsResourcePath(p)
    ensures |Split(p, '/')| >= 2 && Package(p) == Split(p, '/')[1]
  {
    var a := Find(p, '/');
    var rest := SplitFrom(p, '/', a + 1);
    assert Split(p, '/') == [p[..a]] + rest;
    assert Split(p, '/')[1] == rest[0];
  }

  /** The resource's file name, its base name. */
  function Leaf(p: string): (r: string)
    ensures '/' !in r
  {
    Basename(p)
  }

  /** `Leaf` is the source's `path.split("/")[-1]`. */
  lemma LeafIsLastPiece(p: string)
    ensures Leaf(p) == Split(p, '/')[|Split(p, '/')| - 1]
  {
    LastPieceIsBasename(p);
  }

  /** `s.replace("-", " ").replace(".", " ")`: dashes and dots read as spaces. */
  function Spaced(s: string): (r: string)
    ensures |r| == |s|
    ensures forall i :: 0 <= i < |s| ==> r[i] == (if s[i] == '-' || s[i] == '.' then ' ' else s[i])
    ensures '-' !in r && '.' !in r
  {
    Replace(Replace(s, '-', ' '), '.', ' ')
  }

  /** The set of packages that own at least one of `paths`. */
  function Packages(paths: seq<string>): set<string>
    requires AllResourcePaths(paths)
  {
    set p | p in paths :: Package(p)
  }

  /** The file names of the `paths` owned by `pkg`, in the order of `paths`. */
  function LeavesIn(paths: seq<string>, pkg: string): seq<string>
    requires AllResourcePaths(paths)
  {
    if paths == [] then []
    else
      var p := paths[|paths| - 1];
      LeavesIn(paths[..|paths| - 1], pkg) + (if Package(p) == pkg then [Leaf(p)] else [])
  }

  /** A Python dict from package name to a list of file names: its keys in insertion order, and the mapping. */
  datatype Groups = Groups(order: seq<string>, lists: map<string, seq<string>>)

  /** `order` holds every key of `lists` exactly once. */
  predicate WellFormed(g: Groups)
  {
    Distinct(g.order) && g.lists.Keys == (set k | k in g.order)
  }

  /** `d.setdefault(key, []).append(v)`. */
  function SetDefaultAppend(g: Groups, key: string, v: string): Groups
  {
    if key in g.lists then Groups(g.order, g.lists[key := g.lists[key] + [v]])
    else Groups(g.order + [key], g.lists[key := [v]])
  }

  /** `setdefault(...).append` adds the key if it is new and appends `v` to its list, nothing else. */
  lemma SetDefaultAppendSpec(g: Groups, key: string, v: string)
    requires WellFormed(g)
    ensures WellFormed(SetDefaultAppend(g, key, v))
    ensures SetDefaultAppend(g, key, v).lists.Keys == g.lists.Keys + {key}
    ensures forall k :: k in g.lists && k != key ==> SetDefaultAppend(g, key, v).lists[k] == g.lists[k]
    ensures SetDefaultAppend(g, key, v).lists[key] == (if key in g.lists then g.lists[key] else []) + [v]
  {
    var g2 := SetDefaultAppend(g, key, v);
    if key !in g.lists {
      assert key !in g.order;
      assert (set k | k in g2.order) == (set k | k in g.order) + {key};
      forall i, j | 0 <= i < j < |g2.order|
        ensures g2.order[i] != g2.order[j]
      {
        if j == |g.order| {
          assert g2.order[i] == g.order[i];
        }
      }
    }
  }

  /** The dictionary after the loop over `paths` has run. */
  function Group(paths: seq<string>): Groups
    requires AllResourcePaths(paths)
  {
    if paths == [] then Groups([], map[])
    else
      var p := paths[|paths| - 1];
      SetDefaultAppend(Group(paths[..|paths| - 1]), Package(p), Leaf(p))
  }

  /**
   The grouping loop keys the dictionary by exactly the packages of `paths`, once each
   in order of first appearance.
   */
  lemma {:induction false} GroupKeys(paths: seq<string>)
    requires AllResourcePaths(paths)
    ensures WellFormed(Group(paths))
    ensures Group(paths).lists.Keys == Packages(paths)
  {
    if paths != [] {
      var init := paths[..|paths| - 1];
      var p := paths[|paths| - 1];
      assert AllResourcePaths(init);
      GroupKeys(init);
      SetDefaultAppendSpec(Group(init), Package(p), Leaf(p));
      PackagesLast(paths);
    }
  }

  /** The packages of a non-empty list: those of all but the last path, and the last path's. */
  lemma PackagesLast(paths: seq<string>)
    requires AllResourcePaths(paths) && paths != []
    ensures AllResourcePaths(paths[..|paths| - 1])
    ensures Packages(paths) == Packages(paths[..|paths| - 1]) + {Package(paths[|paths| - 1])}
  {
    var init, p := paths[..|paths| - 1], paths[|paths| - 1];
    assert AllResourcePaths(init);
    forall q | q in Packages(paths)
      ensures q in Packages(init) + {Package(p)}
    {
      var x :| x in paths && Package(x) == q;
      var i :| 0 <= i < |paths| && paths[i] == x;
      if i < |paths| - 1 {
        assert init[i] == x;
      }
    }
    forall q | q in Packages(init) + {Package(p)}
      ensures q in Packages(paths)
    {
      if q != Package(p) {
        var x :| x in init && Package(x) == q;
        var i :| 0 <= i < |init| && init[i] == x;
        assert paths[i] == x;
      }
    }
  }

  lemma LeavesInLast(paths: seq<string>, k: string)
    requires AllResourcePaths(paths) && paths != []
    ensures AllResourcePaths(paths[..|paths| - 1])
    ensures LeavesIn(paths, k) == LeavesIn(paths[..|paths| - 1], k)
              + (if Package(paths[|paths| - 1]) == k then [Leaf(paths[|paths| - 1])] else [])
  {
  }

  /**
   Each package's list holds the file names of its paths in input order, and a name that
   is not a key has no paths: nothing is dropped or merged.
   */
  lemma {:induction false} GroupLists(paths: seq<string>)
    requires AllResourcePaths(paths)
    ensures forall k :: k in Group(paths).lists ==> Group(paths).lists[k] == LeavesIn(paths, k)
    ensures forall k :: k !in Group(paths).lists ==> LeavesIn(paths, k) == []
  {
    if paths != [] {
      var init := paths[..|paths| - 1];
      var p := paths[|paths| - 1];
      assert AllResourcePaths(init);
      GroupKeys(init);
      GroupLists(init);
      var g, key, v := Group(init), Package(p), Leaf(p);
      var g2 := Group(paths);
      assert g2 == SetDefaultAppend(g, key, v);
      SetDefaultAppendSpec(g, key, v);
      forall k
        ensures LeavesIn(paths, k) == LeavesIn(init, k) + (if key == k then [v] else [])
      {
        LeavesInLast(paths, k);
      }
      forall k | k in g2.lists
        ensures g2.lists[k] == LeavesIn(paths, k)
      {
        if k != key {
          assert k in g.lists;
        }
      }
      forall k | k !in g2.lists
        ensures LeavesIn(paths, k) == []
      {
        assert k != key && k !in g.lists;
      }
    }
  }

  lemma GroupSpec(paths: seq<string>)
    requires AllResourcePaths(paths)
    ensures WellFormed(Group(paths))
    ensures Group(paths).lists.Keys == Packages(paths)
    ensures forall k :: k in Group(paths).lists ==> Group(paths).lists[k] == LeavesIn(paths, k)
    ensures forall k :: k !in Group(paths).lists ==> LeavesIn(paths, k) == []
  {
    GroupKeys(paths);
    GroupLists(paths);
  }

  /** One more path: the dictionary after `i + 1` paths is the one after `i` with path `i` added. */
  lemma GroupPrefix(paths: seq<string>, i: int)
    requires AllResourcePaths(paths) && 0 <= i < |paths|
    ensures AllResourcePaths(paths[..i]) && AllResourcePaths(paths[..i + 1]) && IsResourcePath(paths[i])
    ensures Group(paths[..i + 1]) == SetDefaultAppend(Group(paths[..i]), Package(paths[i]), Leaf(paths[i]))
  {
    assert forall p :: p in paths[..i + 1] ==> p in paths;
    assert paths[..i + 1][..i] == paths[..i];
  }

  /** The loop of `create_menu` that fills `d`. */
  method GroupByPackage(paths: seq<string>) returns (d: Groups)
    requires AllResourcePaths(paths)
    ensures d == Group(paths)
    ensures WellFormed(d) && d.lists.Keys == Packages(paths)
  {
    var order: seq<string> := [];
    var lists: map<string, seq<string>> := map[];
    for i := 0 to |paths|
      invariant AllResourcePaths(paths[..i])
      invariant Groups(order, lists) == Group(paths[..i])
    {
      GroupPrefix(paths, i);
      var path := paths[i];
      var package, leaf := Package(path), Leaf(path);
      if package in lists {
        lists := lists[package := lists[package] + [leaf]];
      } else {
        order := order + [package];
        lists := lists[package := [leaf]];
      }
    }
    assert paths[..|paths|] == paths;
    d := Groups(order, lists);
    GroupSpec(paths);
  }
}
