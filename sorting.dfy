/**
 Python's `sorted(xs, key=...)` on lists of strings: a stable sort by the key's
 lexicographic order. The plugin sorts by the whole string, by the base name, and by
 the string with every `.` read as a space.
 */
module Sorting {
  import opened PyStr

  /** The key `lambda x: x`: a string sorts by itself. */
  function Whole(s: string): string
  {
    s
  }

  /** The key `lambda x: x.replace(".", " ")`. */
  function DotsAsSpaces(s: string): string
  {
    Replace(s, '.', ' ')
  }

  /** Every element's key is at most every later element's key. */
  predicate SortedBy(s: seq<string>, key: string -> string)
  {
    forall i, j :: 0 <= i < j < |s| ==> Leq(key(s[i]), key(s[j]))
  }

  /** No string occurs twice. */
  predicate Distinct(s: seq<string>)
  {
    forall i, j :: 0 <= i < j < |s| ==> s[i] != s[j]
  }

  /** The elements of `s` whose key is `kv`, in their order in `s`. */
  function WithKey(s: seq<string>, key: string -> string, kv: string): seq<string>
  {
    if s == [] then []
    else (if key(s[0]) == kv then [s[0]] else []) + WithKey(s[1..], key, kv)
  }

  /** Puts `x` in front of the first element whose key is not below `x`'s. */
  function Insert(x: string, s: seq<string>, key: string -> string): (r: seq<string>)
    ensures |r| == |s| + 1
    ensures multiset(r) == multiset{x} + multiset(s)
  {
    if s == [] then [x]
    else if Leq(key(x), key(s[0])) then [x] + s
    else
      assert s == [s[0]] + s[1..];
      [s[0]] + Insert(x, s[1..], key)
  }

  /** `sorted(s, key=key)`, as insertion sort. */
  function Sort(s: seq<string>, key: string -> string): (r: seq<string>)
    ensures |r| == |s|
    ensures multiset(r) == multiset(s)
  {
    if s == [] then []
    else
      assert s == [s[0]] + s[1..];
      Insert(s[0], Sort(s[1..], key), key)
  }

  lemma {:induction false} InsertSorted(x: string, s: seq<string>, key: string -> string)
    requires SortedBy(s, key)
    ensures SortedBy(Insert(x, s, key), key)
  {
    if s == [] {
    } else if Leq(key(x), key(s[0])) {
      var r := [x] + s;
      forall i, j | 0 <= i < j < |r|
        ensures Leq(key(r[i]), key(r[j]))
      {
        if i == 0 && j > 1 {
          LeqTransitive(key(x), key(s[0]), key(s[j - 1]));
        }
      }
    } else {
      LeqTotal(key(x), key(s[0]));
      InsertSorted(x, s[1..], key);
      var t := Insert(x, s[1..], key);
      var r := [s[0]] + t;
      forall i, j | 0 <= i < j < |r|
        ensures Leq(key(r[i]), key(r[j]))
      {
        if i == 0 {
          assert r[j] == t[j - 1];
          assert t[j - 1] in multiset(t);
          if r[j] != x {
            assert r[j] in multiset(s[1..]);
            var m :| 0 <= m < |s[1..]| && s[1..][m] == r[j];
            assert s[m + 1] == r[j];
          }
        }
      }
    }
  }

  /** `sorted` returns its input in key order. */
  lemma {:induction false} SortSorted(s: seq<string>, key: string -> string)
    ensures SortedBy(Sort(s, key), key)
  {
    if s != [] {
      SortSorted(s[1..], key);
      InsertSorted(s[0], Sort(s[1..], key), key);
    }
  }

  /** Filtering `[a] + t` looks at `a` and then filters `t`. */
  lemma WithKeyCons(a: string, t: seq<string>, key: string -> string, kv: string)
    ensures WithKey([a] + t, key, kv) == (if key(a) == kv then [a] else []) + WithKey(t, key, kv)
  {
    assert ([a] + t)[1..] == t;
  }

  /** At most one of two heads is non-empty, so they may trade places. */
  lemma SwapHeads(wi: seq<string>, wt: seq<string>, ws: seq<string>,
                  h0: seq<string>, hx: seq<string>, w: seq<string>)
    requires wi == h0 + wt && wt == hx + w && ws == h0 + w
    requires h0 == [] || hx == []
    ensures wi == hx + ws
  {
    if h0 == [] {
      assert wi == wt;
    } else {
      assert wi == h0 + w;
    }
  }

  lemma {:induction false} InsertStable(x: string, s: seq<string>, key: string -> string, kv: string)
    ensures WithKey(Insert(x, s, key), key, kv)
         == (if key(x) == kv then [x] else []) + WithKey(s, key, kv)
  {
    if s == [] {
      assert Insert(x, s, key) == [x] + [];
      WithKeyCons(x, [], key, kv);
    } else if Leq(key(x), key(s[0])) {
      assert Insert(x, s, key) == [x] + s;
      WithKeyCons(x, s, key, kv);
    } else {
      var t := Insert(x, s[1..], key);
      assert Insert(x, s, key) == [s[0]] + t;
      LeqReflexive(key(x));
      InsertStable(x, s[1..], key, kv);
      WithKeyCons(s[0], t, key, kv);
      assert s == [s[0]] + s[1..];
      WithKeyCons(s[0], s[1..], key, kv);
      SwapHeads(WithKey(Insert(x, s, key), key, kv), WithKey(t, key, kv), WithKey(s, key, kv),
                if key(s[0]) == kv then [s[0]] else [], if key(x) == kv then [x] else [],
                WithKey(s[1..], key, kv));
    }
  }

  /** `sorted` is stable: elements with equal keys keep their relative order. */
  lemma {:induction false} SortStable(s: seq<string>, key: string -> string, kv: string)
    ensures WithKey(Sort(s, key), key, kv) == WithKey(s, key, kv)
  {
    if s != [] {
      SortStable(s[1..], key, kv);
      InsertStable(s[0], Sort(s[1..], key), key, kv);
    }
  }

  /** `r` is `s` sorted stably by `key`: in key order, a rearrangement, and equal keys in input order. */
  ghost predicate IsStableSortOf(r: seq<string>, s: seq<string>, key: string -> string)
  {
    && SortedBy(r, key)
    && multiset(r) == multiset(s)
    && (forall kv :: WithKey(r, key, kv) == WithKey(s, key, kv))
  }

  /** `sorted(s, key=key)` is the stable sort of `s` by `key`. */
  lemma SortSpec(s: seq<string>, key: string -> string)
    ensures IsStableSortOf(Sort(s, key), s, key)
  {
    SortSorted(s, key);
    forall kv
      ensures WithKey(Sort(s, key), key, kv) == WithKey(s, key, kv)
    {
      SortStable(s, key, kv);
    }
  }

  /** A string in a duplicate-free sequence occurs once. */
  lemma {:induction false} DistinctOnce(s: seq<string>, x: string)
    requires Distinct(s)
    ensures multiset(s)[x] <= 1
  {
    if s != [] {
      assert s == [s[0]] + s[1..];
      DistinctOnce(s[1..], x);
      if x == s[0] {
        assert x !in s[1..];
      }
    }
  }

  /** Two equal elements at different positions make two copies in the multiset. */
  lemma TwoCopies(b: seq<string>, i: int, j: int)
    requires 0 <= i < j < |b| && b[i] == b[j]
    ensures multiset(b)[b[i]] >= 2
  {
    assert b == b[..j] + b[j..];
    assert b[i] in b[..j] && b[j] in b[j..];
    assert multiset(b)[b[i]] == multiset(b[..j])[b[i]] + multiset(b[j..])[b[i]];
  }

  /** Rearranging a duplicate-free sequence keeps it duplicate-free. */
  lemma DistinctPermutation(a: seq<string>, b: seq<string>)
    requires Distinct(a) && multiset(a) == multiset(b)
    ensures Distinct(b)
  {
    forall i, j | 0 <= i < j < |b|
      ensures b[i] != b[j]
    {
      if b[i] == b[j] {
        DistinctOnce(a, b[i]);
        TwoCopies(b, i, j);
      }
    }
  }

  /** A duplicate-free sequence has as many elements as its set. */
  lemma {:induction false} DistinctCardinality(s: seq<string>)
    requires Distinct(s)
    ensures |set x | x in s| == |s|
  {
    if s != [] {
      DistinctCardinality(s[1..]);
      assert (set x | x in s) == {s[0]} + (set x | x in s[1..]);
      assert s[0] !in s[1..];
    }
  }

  /** Sorting duplicate-free strings by themselves gives a strictly ascending sequence. */
  lemma SortDistinctAscending(s: seq<string>)
    requires Distinct(s)
    ensures forall i, j :: 0 <= i < j < |Sort(s, Whole)| ==>
              Less(Sort(s, Whole)[i], Sort(s, Whole)[j])
  {
    SortSorted(s, Whole);
    DistinctPermutation(s, Sort(s, Whole));
  }

  /** `[f(x) for x in s]`. */
  function Mapped(s: seq<string>, f: string -> string): (r: seq<string>)
    ensures |r| == |s|
  {
    seq(|s|, i requires 0 <= i < |s| => f(s[i]))
  }

  lemma MappedConcat(u: seq<string>, v: seq<string>, f: string -> string)
    ensures Mapped(u + v, f) == Mapped(u, f) + Mapped(v, f)
  {
  }

  /** Mapping one more element appends its image. */
  lemma MappedPrefix(s: seq<string>, i: int, f: string -> string)
    requires 0 <= i < |s|
    ensures Mapped(s[..i + 1], f) == Mapped(s[..i], f) + [f(s[i])]
  {
  }

  lemma MappedCons(a: seq<string>, f: string -> string)
    requires a != []
    ensures Mapped(a, f) == [f(a[0])] + Mapped(a[1..], f)
  {
  }

  /** Mapping `b` maps the part before `b[j]`, then `b[j]`, then the part after it. */
  lemma MappedAround(b: seq<string>, j: int, f: string -> string)
    requires 0 <= j < |b|
    ensures Mapped(b, f) == Mapped(b[..j], f) + [f(b[j])] + Mapped(b[j + 1..], f)
  {
  }

  lemma RemoveAt(b: seq<string>, j: int)
    requires 0 <= j < |b|
    ensures multiset(b[..j] + b[j + 1..]) == multiset(b) - multiset{b[j]}
  {
    assert b == b[..j] + [b[j]] + b[j + 1..];
  }

  /** The first element of `a` sits somewhere in a rearrangement `b`; the rests are rearrangements too. */
  lemma PickOut(a: seq<string>, b: seq<string>) returns (j: int)
    requires a != [] && multiset(a) == multiset(b)
    ensures 0 <= j < |b| && b[j] == a[0]
    ensures multiset(a[1..]) == multiset(b[..j] + b[j + 1..])
  {
    assert a[0] in multiset(b);
    j :| 0 <= j < |b| && b[j] == a[0];
    RemoveAt(b, j);
    assert a == [a[0]] + a[1..];
  }

  /** One more element, at the front of one and anywhere in the other, keeps two lists rearrangements. */
  lemma PermutationAround(ma: seq<string>, mb: seq<string>, y: string,
                          u: seq<string>, m1: seq<string>, m2: seq<string>)
    requires ma == [y] + u && mb == m1 + [y] + m2
    requires multiset(u) == multiset(m1 + m2)
    ensures multiset(ma) == multiset(mb)
  {
  }

  /** Mapping two rearrangements of one list gives two rearrangements of one list. */
  lemma {:induction false} MappedPermutation(a: seq<string>, b: seq<string>, f: string -> string)
    requires multiset(a) == multiset(b)
    ensures multiset(Mapped(a, f)) == multiset(Mapped(b, f))
    decreases |a|
  {
    if a == [] {
      assert |multiset(b)| == 0;
    } else {
      var j := PickOut(a, b);
      var m1, m2 := Mapped(b[..j], f), Mapped(b[j + 1..], f);
      MappedPermutation(a[1..], b[..j] + b[j + 1..], f);
      MappedConcat(b[..j], b[j + 1..], f);
      MappedAround(b, j, f);
      MappedCons(a, f);
      PermutationAround(Mapped(a, f), Mapped(b, f), f(a[0]), Mapped(a[1..], f), m1, m2);
    }
  }
}
