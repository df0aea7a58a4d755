/**
 The few Python string and list builtins the plugin relies on, on `seq<char>`:
 `str.find`/`str.rfind` for one character, slicing `s[:i]` with a possibly negative
 bound, `os.path.basename`, `str.replace` for one character, `str.split`/`str.join`
 for one separator, string ordering, `list.index` and negative list indexing.
 */
module PyStr {

  /** The first index `>= i` at which `c` occurs in `s`, or -1 when there is none. */
  function FindFrom(s: string, c: char, i: nat): (r: int)
    requires i <= |s|
    ensures r == -1 || (i <= r < |s| && s[r] == c)
    ensures forall j :: i <= j < (if r < 0 then |s| else r) ==> s[j] != c
    decreases |s| - i
  {
    if i == |s| then -1
    else if s[i] == c then i
    else FindFrom(s, c, i + 1)
  }

  /** `s.find(c)`: the first index of `c` in `s`, or -1 when `c` does not occur. */
  function Find(s: string, c: char): (r: int)
    ensures r == -1 || (0 <= r < |s| && s[r] == c)
    ensures forall j :: 0 <= j < (if r < 0 then |s| else r) ==> s[j] != c
  {
    FindFrom(s, c, 0)
  }

  /** The last index `< n` at which `c` occurs in `s`, or -1 when there is none. */
  function RFindBelow(s: string, c: char, n: nat): (r: int)
    requires n <= |s|
    ensures r == -1 || (0 <= r < n && s[r] == c)
    ensures forall j :: r < j < n ==> s[j] != c
  {
    if n == 0 then -1
    else if s[n - 1] == c then n - 1
    else RFindBelow(s, c, n - 1)
  }

  /** `s.rfind(c)`: the last index of `c` in `s`, or -1 when `c` does not occur. */
  function RFind(s: string, c: char): (r: int)
    ensures r == -1 || (0 <= r < |s| && s[r] == c)
    ensures forall j :: r < j < |s| ==> s[j] != c
  {
    RFindBelow(s, c, |s|)
  }

  /** The slice `s[:i]`: a negative bound counts from the end, and bounds are clamped. */
  function SliceTo(s: string, i: int): (r: string)
    ensures |r| == (if i >= 0 then (if i <= |s| then i else |s|)
                    else (if |s| + i >= 0 then |s| + i else 0))
    ensures r == s[..|r|]
  {
    if i >= 0 then (if i <= |s| then s[..i] else s)
    else if |s| + i >= 0 then s[..|s| + i]
    else []
  }

  /** `os.path.basename`: the part of `s` after its last `/` (all of `s` if it has none). */
  function Basename(s: string): (r: string)
    ensures '/' !in r
    ensures |r| <= |s| && r == s[|s| - |r|..]
  {
    s[RFind(s, '/') + 1..]
  }

  /** A string without `/` is its own base name. */
  lemma BasenameOfPlainName(s: string)
    requires '/' !in s
    ensures Basename(s) == s
  {
  }

  /** Taking the base name twice changes nothing. */
  lemma BasenameIdempotent(s: string)
    ensures Basename(Basename(s)) == Basename(s)
  {
    BasenameOfPlainName(Basename(s));
  }

  /** `s.replace(a, b)` for single characters. */
  function Replace(s: string, a: char, b: char): (r: string)
    ensures |r| == |s|
    ensures forall i :: 0 <= i < |s| ==> r[i] == (if s[i] == a then b else s[i])
  {
    seq(|s|, i requires 0 <= i < |s| => if s[i] == a then b else s[i])
  }

  /** `sep.join(parts)` for a one-character separator. */
  function Join(parts: seq<string>, sep: char): string
    requires |parts| >= 1
  {
    if |parts| == 1 then parts[0] else parts[0] + [sep] + Join(parts[1..], sep)
  }

  /** The pieces of `s[i:]` between separators, in order. */
  function SplitFrom(s: string, sep: char, i: nat): (r: seq<string>)
    requires i <= |s|
    ensures |r| >= 1
    decreases |s| - i
  {
    var k := FindFrom(s, sep, i);
    if k < 0 then [s[i..]] else [s[i..k]] + SplitFrom(s, sep, k + 1)
  }

  /** `s.split(sep)` for a one-character separator: the pieces between separators, in order. */
  function Split(s: string, sep: char): (r: seq<string>)
    ensures |r| >= 1
  {
    SplitFrom(s, sep, 0)
  }

  /** Joining a piece in front of at least one other piece puts a separator between them. */
  lemma JoinCons(a: string, rest: seq<string>, sep: char)
    requires |rest| >= 1
    ensures Join([a] + rest, sep) == a + [sep] + Join(rest, sep)
  {
    assert ([a] + rest)[1..] == rest;
  }

  /** Cutting `s[i:]` around the index `k` and gluing the parts back together gives `s[i:]`. */
  lemma SliceAround(s: string, i: nat, k: nat)
    requires i <= k < |s|
    ensures s[i..k] + [s[k]] + s[k + 1..] == s[i..]
  {
  }

  /** Joining the pieces of `s[i:]` gives back `s[i:]`. */
  lemma {:induction false} SplitFromJoin(s: string, sep: char, i: nat)
    requires i <= |s|
    ensures Join(SplitFrom(s, sep, i), sep) == s[i..]
    decreases |s| - i
  {
    var k := FindFrom(s, sep, i);
    if k >= 0 {
      var rest := SplitFrom(s, sep, k + 1);
      calc {
        Join(SplitFrom(s, sep, i), sep);
        Join([s[i..k]] + rest, sep);
        { JoinCons(s[i..k], rest, sep); }
        s[i..k] + [sep] + Join(rest, sep);
        { SplitFromJoin(s, sep, k + 1); }
        s[i..k] + [sep] + s[k + 1..];
        { SliceAround(s, i, k); }
        s[i..];
      }
    }
  }

  /** Splitting and joining again gives back `s`. */
  lemma SplitJoin(s: string, sep: char)
    ensures Join(Split(s, sep), sep) == s
  {
    SplitFromJoin(s, sep, 0);
  }

  /** No piece of the split of `s[i:]` contains `sep`. */
  lemma {:induction false} SplitFromPieces(s: string, sep: char, i: nat)
    requires i <= |s|
    ensures forall m :: 0 <= m < |SplitFrom(s, sep, i)| ==> sep !in SplitFrom(s, sep, i)[m]
    decreases |s| - i
  {
    var k := FindFrom(s, sep, i);
    if k >= 0 {
      SplitFromPieces(s, sep, k + 1);
      assert forall j :: 0 <= j < k - i ==> s[i..k][j] != sep;
    } else {
      assert forall j :: 0 <= j < |s| - i ==> s[i..][j] != sep;
    }
  }

  /** No piece of `s.split(sep)` contains `sep`. */
  lemma SplitPieces(s: string, sep: char)
    ensures forall m :: 0 <= m < |Split(s, sep)| ==> sep !in Split(s, sep)[m]
  {
    SplitFromPieces(s, sep, 0);
  }

  /** The last piece of the split of `s[i:]` starts after the last `/` of `s`, if that is at `i` or later. */
  lemma {:induction false} SplitFromLast(s: string, i: nat)
    requires i <= |s|
    ensures SplitFrom(s, '/', i)[|SplitFrom(s, '/', i)| - 1] == s[LastPieceStart(s, i)..]
    decreases |s| - i
  {
    var k := FindFrom(s, '/', i);
    var r := SplitFrom(s, '/', i);
    if k >= 0 {
      var rest := SplitFrom(s, '/', k + 1);
      assert r == [s[i..k]] + rest;
      assert r[|r| - 1] == rest[|rest| - 1];
      assert s[k] == '/';
      assert LastPieceStart(s, i) == LastPieceStart(s, k + 1);
      SplitFromLast(s, k + 1);
    } else {
      assert r == [s[i..]];
      assert LastPieceStart(s, i) == i;
    }
  }

  /** Where the last `/`-separated piece of `s[i:]` starts. */
  function LastPieceStart(s: string, i: nat): (m: nat)
    requires i <= |s|
    ensures i <= m <= |s|
  {
    if RFind(s, '/') + 1 > i then RFind(s, '/') + 1 else i
  }

  /** The last piece of `s.split("/")` is `os.path.basename(s)`. */
  lemma LastPieceIsBasename(s: string)
    ensures Split(s, '/')[|Split(s, '/')| - 1] == Basename(s)
  {
    SplitFromLast(s, 0);
  }

  /** Python's `<=` on `str`: lexicographic order by code point. */
  predicate Leq(a: string, b: string)
  {
    |a| == 0 || (|b| > 0 && (a[0] < b[0] || (a[0] == b[0] && Leq(a[1..], b[1..]))))
  }

  /** Python's `<` on `str`. */
  predicate Less(a: string, b: string)
  {
    Leq(a, b) && a != b
  }

  lemma {:induction false} LeqReflexive(a: string)
    ensures Leq(a, a)
  {
    if |a| > 0 {
      LeqReflexive(a[1..]);
    }
  }

  lemma {:induction false} LeqTotal(a: string, b: string)
    ensures Leq(a, b) || Leq(b, a)
  {
    if |a| > 0 && |b| > 0 && a[0] == b[0] {
      LeqTotal(a[1..], b[1..]);
    }
  }

  lemma {:induction false} LeqTransitive(a: string, b: string, c: string)
    requires Leq(a, b) && Leq(b, c)
    ensures Leq(a, c)
  {
    if |a| > 0 && |b| > 0 && |c| > 0 && a[0] == b[0] == c[0] {
      LeqTransitive(a[1..], b[1..], c[1..]);
    }
  }

  /** The first position of `x` among the first `n` elements of `xs`, or -1 when it is not among them. */
  function IndexWithin(xs: seq<string>, x: string, n: nat): (r: int)
    requires n <= |xs|
    ensures r == -1 || (0 <= r < n && xs[r] == x)
    ensures forall j :: 0 <= j < (if r < 0 then n else r) ==> xs[j] != x
  {
    if n == 0 then -1
    else
      var k := IndexWithin(xs, x, n - 1);
      if k >= 0 then k else if xs[n - 1] == x then n - 1 else -1
  }

  /** `xs.index(x)`: the first position of `x` in `xs`, or -1 where Python raises `ValueError`. */
  function IndexOf(xs: seq<string>, x: string): (r: int)
    ensures r == -1 || (0 <= r < |xs| && xs[r] == x)
    ensures forall j :: 0 <= j < (if r < 0 then |xs| else r) ==> xs[j] != x
  {
    IndexWithin(xs, x, |xs|)
  }

  /** `xs[i]` with Python's negative indices: -1 is the last element. */
  function At(xs: seq<string>, i: int): (r: string)
    requires -|xs| <= i < |xs|
    ensures r == xs[if i >= 0 then i else |xs| + i]
  {
    if i >= 0 then xs[i] else xs[|xs| + i]
  }
}
