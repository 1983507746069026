/**
 * Python string operations the core relies on: code-point ordering and
 * `sorted` on lists of strings, `sep.join`, `s.split(c)`, `s.rstrip(c)`
 * and `s.replace(old, new, 1)`.
 */
module Strings {
  import opened Wrappers
  import Numerals

  /** Python's `a <= b` on str: lexicographic by code point. */
  predicate Le(a: string, b: string)
    decreases |a|
  {
    a == [] || (b != [] && (a[0] < b[0] || (a[0] == b[0] && Le(a[1..], b[1..]))))
  }

  lemma LeReflexive(a: string)
    ensures Le(a, a)
    decreases |a|
  {
    if a != [] { LeReflexive(a[1..]); }
  }

  lemma LeAntisymmetric(a: string, b: string)
    requires Le(a, b) && Le(b, a)
    ensures a == b
    decreases |a|
  {
    if a != [] {
      LeAntisymmetric(a[1..], b[1..]);
      assert a == [a[0]] + a[1..] && b == [b[0]] + b[1..];
    }
  }

  lemma LeTransitive(a: string, b: string, c: string)
    requires Le(a, b) && Le(b, c)
    ensures Le(a, c)
    decreases |a|
  {
    if a != [] && a[0] == b[0] && b[0] == c[0] {
      LeTransitive(a[1..], b[1..], c[1..]);
    }
  }

  lemma LeTotal(a: string, b: string)
    ensures Le(a, b) || Le(b, a)
    decreases |a|
  {
    if a != [] && b != [] && a[0] == b[0] {
      LeTotal(a[1..], b[1..]);
    }
  }

  /** Every element is `<=` every later one. */
  ghost predicate Sorted(s: seq<string>)
  {
    forall i, j :: 0 <= i < j < |s| ==> Le(s[i], s[j])
  }

  /** Places `x` before the first element not below it. */
  function Insert(x: string, s: seq<string>): seq<string>
  {
    if s == [] then [x]
    else if Le(x, s[0]) then [x] + s
    else [s[0]] + Insert(x, s[1..])
  }

  /** `sorted(s)` for a list of strings (an insertion sort). */
  function Sort(s: seq<string>): seq<string>
  {
    if s == [] then [] else Insert(s[0], Sort(s[1..]))
  }

  lemma {:induction false} InsertPermutes(x: string, s: seq<string>)
    ensures multiset(Insert(x, s)) == multiset(s) + multiset{x}
  {
    if s != [] && !Le(x, s[0]) {
      InsertPermutes(x, s[1..]);
      assert s == [s[0]] + s[1..];
    }
  }

  /** A string below every element of a sorted list can be put in front of it. */
  lemma SortedCons(h: string, t: seq<string>)
    requires Sorted(t)
    requires forall y :: y in t ==> Le(h, y)
    ensures Sorted([h] + t)
  {
    var r := [h] + t;
    forall i, j | 0 <= i < j < |r| ensures Le(r[i], r[j]) {
      if i == 0 {
        assert r[j] == t[j - 1];
      } else {
        assert r[i] == t[i - 1] && r[j] == t[j - 1];
      }
    }
  }

  lemma {:induction false} InsertSorted(x: string, s: seq<string>)
    requires Sorted(s)
    ensures Sorted(Insert(x, s))
    ensures multiset(Insert(x, s)) == multiset(s) + multiset{x}
  {
    InsertPermutes(x, s);
    if s == [] {
    } else if Le(x, s[0]) {
      forall y | y in s ensures Le(x, y) {
        SortedHeadLeast(s, y);
        LeTransitive(x, s[0], y);
      }
      SortedCons(x, s);
    } else {
      LeTotal(x, s[0]);
      SortedTail(s);
      InsertSorted(x, s[1..]);
      var t := Insert(x, s[1..]);
      forall y | y in t ensures Le(s[0], y) {
        assert y in multiset(t);
        if y != x {
          assert y in multiset(s[1..]);
          SortedHeadBelow(s, y);
        }
      }
      SortedCons(s[0], t);
    }
  }

  lemma SortedHeadBelow(s: seq<string>, y: string)
    requires Sorted(s) && s != [] && y in s[1..]
    ensures Le(s[0], y)
  {
    var k :| 0 <= k < |s[1..]| && s[1..][k] == y;
    assert s[k + 1] == y;
  }

  /** `sorted` returns the same strings in ascending order. */
  lemma {:induction false} SortCorrect(s: seq<string>)
    ensures Sorted(Sort(s))
    ensures multiset(Sort(s)) == multiset(s)
  {
    if s != [] {
      SortCorrect(s[1..]);
      InsertSorted(s[0], Sort(s[1..]));
      assert s == [s[0]] + s[1..];
    }
  }

  lemma SortedHeadLeast(a: seq<string>, x: string)
    requires Sorted(a) && x in a
    ensures Le(a[0], x)
  {
    var i :| 0 <= i < |a| && a[i] == x;
    if i == 0 { LeReflexive(x); }
  }

  lemma SortedTail(a: seq<string>)
    requires Sorted(a) && a != []
    ensures Sorted(a[1..])
  {
    forall i, j | 0 <= i < j < |a[1..]| ensures Le(a[1..][i], a[1..][j]) {
      assert a[1..][i] == a[i + 1] && a[1..][j] == a[j + 1];
    }
  }

  /** Two ascending arrangements of the same strings are identical. */
  lemma {:induction false} SortedUnique(a: seq<string>, b: seq<string>)
    requires Sorted(a) && Sorted(b) && multiset(a) == multiset(b)
    ensures a == b
  {
    if a != [] {
      SortedHeadsEqual(a, b);
      TailMultiset(a);
      TailMultiset(b);
      SortedTail(a);
      SortedTail(b);
      SortedUnique(a[1..], b[1..]);
      assert a == [a[0]] + a[1..] && b == [b[0]] + b[1..];
    }
  }

  lemma SortedHeadsEqual(a: seq<string>, b: seq<string>)
    requires Sorted(a) && Sorted(b) && multiset(a) == multiset(b) && a != []
    ensures b != [] && a[0] == b[0]
  {
    assert a[0] in multiset(b);
    assert b != [] && b[0] in multiset(a);
    SortedHeadLeast(b, a[0]);
    SortedHeadLeast(a, b[0]);
    LeAntisymmetric(a[0], b[0]);
  }

  lemma TailMultiset(a: seq<string>)
    requires a != []
    ensures multiset(a[1..]) == multiset(a) - multiset{a[0]}
  {
    assert a == [a[0]] + a[1..];
  }

  /** `sorted(xs)` depends only on which strings `xs` holds, not on their order. */
  lemma SortIgnoresOrder(a: seq<string>, b: seq<string>)
    requires multiset(a) == multiset(b)
    ensures Sort(a) == Sort(b)
  {
    SortCorrect(a);
    SortCorrect(b);
    SortedUnique(Sort(a), Sort(b));
  }

  /** No string occurs twice. */
  predicate Distinct(s: seq<string>)
  {
    forall i, j :: 0 <= i < j < |s| ==> s[i] != s[j]
  }

  lemma {:induction false} DistinctOnce(s: seq<string>)
    requires Distinct(s)
    ensures forall x :: multiset(s)[x] <= 1
  {
    if s != [] {
      var t := s[1..];
      assert Distinct(t) by {
        forall i, j | 0 <= i < j < |t| ensures t[i] != t[j] {
          assert t[i] == s[i + 1] && t[j] == s[j + 1];
        }
      }
      DistinctOnce(t);
      assert s == [s[0]] + t;
      assert s[0] !in t;
    }
  }

  lemma OnceDistinct(s: seq<string>)
    requires forall x :: multiset(s)[x] <= 1
    ensures Distinct(s)
  {
    forall i, j | 0 <= i < j < |s| ensures s[i] != s[j] {
      assert s == s[..j] + s[j..];
      assert multiset(s) == multiset(s[..j]) + multiset(s[j..]);
      assert s[i] in multiset(s[..j]) by { assert s[..j][i] == s[i]; }
      assert s[j] in multiset(s[j..]) by { assert s[j..][0] == s[j]; }
      assert multiset(s)[s[j]] == multiset(s[..j])[s[j]] + multiset(s[j..])[s[j]];
    }
  }

  /** Rearranging a list of distinct strings keeps them distinct. */
  lemma DistinctPermutation(a: seq<string>, b: seq<string>)
    requires Distinct(a) && multiset(a) == multiset(b)
    ensures Distinct(b)
  {
    DistinctOnce(a);
    OnceDistinct(b);
  }

  /** `sep.join(parts)`. */
  function Join(parts: seq<string>, sep: string): string
  {
    if parts == [] then ""
    else if |parts| == 1 then parts[0]
    else parts[0] + sep + Join(parts[1..], sep)
  }

  /** A join of pieces free of `c` with a separator free of `c` is free of `c`. */
  lemma {:induction false} JoinAvoids(parts: seq<string>, sep: string, c: char)
    requires c !in sep
    requires forall k :: 0 <= k < |parts| ==> c !in parts[k]
    ensures c !in Join(parts, sep)
  {
    if |parts| > 1 {
      JoinAvoids(parts[1..], sep, c);
      var rest := Join(parts[1..], sep);
      var r := parts[0] + sep + rest;
      forall k | 0 <= k < |r| ensures r[k] != c {
        if k < |parts[0]| {
          assert r[k] == parts[0][k];
        } else if k < |parts[0]| + |sep| {
          assert r[k] == sep[k - |parts[0]|];
        } else {
          assert r[k] == rest[k - |parts[0]| - |sep|];
        }
      }
    }
  }

  /** `s.split(c)` for a one-character separator. */
  function Split(s: string, c: char): (r: seq<string>)
    ensures |r| >= 1
    ensures forall k :: 0 <= k < |r| ==> c !in r[k]
    decreases |s|
  {
    match Numerals.IndexOf(s, c)
    case None => [s]
    case Some(i) => [s[..i]] + Split(s[i + 1..], c)
  }

  /** Joining the pieces of a split with the separator gives back the string. */
  lemma {:induction false} JoinSplit(s: string, c: char)
    ensures Join(Split(s, c), [c]) == s
    decreases |s|
  {
    match Numerals.IndexOf(s, c)
    case None =>
    case Some(i) =>
      var rest := Split(s[i + 1..], c);
      var parts := [s[..i]] + rest;
      JoinSplit(s[i + 1..], c);
      assert parts[1..] == rest;
      assert Join(parts, [c]) == s[..i] + [c] + Join(rest, [c]);
      assert s == s[..i] + [c] + s[i + 1..];
  }

  /** Splitting a join of separator-free pieces gives back the pieces. */
  lemma {:induction false} SplitJoin(parts: seq<string>, c: char)
    requires |parts| >= 1
    requires forall k :: 0 <= k < |parts| ==> c !in parts[k]
    ensures Split(Join(parts, [c]), c) == parts
  {
    var s := Join(parts, [c]);
    if |parts| == 1 {
      assert Numerals.IndexOf(s, c).None?;
    } else {
      var rest := Join(parts[1..], [c]);
      assert s == parts[0] + [c] + rest;
      var p := parts[0];
      assert s[|p|] == c && c !in s[..|p|] by {
        assert s[..|p|] == p;
      }
      IndexOfFirst(s, c, |p|);
      assert s[..|p|] == p && s[|p| + 1..] == rest;
      SplitJoin(parts[1..], c);
    }
  }

  lemma IndexOfFirst(s: string, c: char, i: nat)
    requires i < |s| && s[i] == c && c !in s[..i]
    ensures Numerals.IndexOf(s, c) == Some(i)
  {
    var r := Numerals.IndexOf(s, c);
    assert s[i] in s;
    assert forall j :: 0 <= j < i ==> s[..i][j] == s[j];
    assert r.Some?;
    assert forall j :: 0 <= j < r.value ==> s[..r.value][j] == s[j];
  }

  /** `s.rstrip(c)`: drops every trailing `c`. */
  function RStrip(s: string, c: char): (r: string)
    ensures |r| <= |s| && r == s[..|r|]
    ensures r == [] || r[|r| - 1] != c
    ensures forall k :: |r| <= k < |s| ==> s[k] == c
  {
    if s != [] && s[|s| - 1] == c then RStrip(s[..|s| - 1], c) else s
  }

  /** `pat` starts at position `i` of `s`. */
  predicate OccursAt(s: string, pat: string, i: int)
  {
    0 <= i && i + |pat| <= |s| && s[i..i + |pat|] == pat
  }

  /** `s.find(pat)`: the first position where `pat` occurs, if any. */
  function Find(s: string, pat: string): (r: Option<nat>)
    ensures r.None? ==> forall i :: !OccursAt(s, pat, i)
    ensures r.Some? ==> OccursAt(s, pat, r.value)
    ensures r.Some? ==> forall j :: 0 <= j < r.value ==> !OccursAt(s, pat, j)
    decreases |s|
  {
    if |s| < |pat| then None
    else if s[..|pat|] == pat then Some(0)
    else
      var r := Find(s[1..], pat);
      OccursShift(s, pat);
      assert !OccursAt(s, pat, 0);
      match r
      case None => None
      case Some(k) => Some(k + 1)
  }

  lemma OccursShift(s: string, pat: string)
    requires s != []
    ensures forall i :: 1 <= i ==> (OccursAt(s, pat, i) <==> OccursAt(s[1..], pat, i - 1))
  {
    forall i | 1 <= i
      ensures OccursAt(s, pat, i) <==> OccursAt(s[1..], pat, i - 1)
    {
      if i + |pat| <= |s| {
        SliceOfTail(s, i, i + |pat|);
      }
    }
  }

  /** A slice of the tail is the slice of `s` one position further on. */
  lemma SliceOfTail(s: string, lo: int, hi: int)
    requires 1 <= lo <= hi <= |s|
    ensures s[1..][lo - 1..hi - 1] == s[lo..hi]
  {
    assert forall j :: 0 <= j < hi - lo ==> s[1..][lo - 1..hi - 1][j] == s[lo + j] == s[lo..hi][j];
  }

  /** `s.replace(pat, rep, 1)` for a non-empty `pat`. */
  function ReplaceFirst(s: string, pat: string, rep: string): string
  {
    match Find(s, pat)
    case None => s
    case Some(i) => s[..i] + rep + s[i + |pat|..]
  }

  /** Replacing `pat` by `pat + extra` inserts `extra` right after the first `pat`. */
  lemma ReplaceFirstExtends(s: string, pat: string, extra: string)
    ensures match Find(s, pat)
      case None => ReplaceFirst(s, pat, pat + extra) == s
      case Some(i) =>
        i + |pat| <= |s| && ReplaceFirst(s, pat, pat + extra) == s[..i + |pat|] + extra + s[i + |pat|..]
  {
    match Find(s, pat)
    case None =>
    case Some(i) => ExtendAt(s, pat, extra, i);
  }

  lemma ExtendAt(s: string, pat: string, extra: string, i: int)
    requires OccursAt(s, pat, i)
    ensures s[..i] + (pat + extra) + s[i + |pat|..] == s[..i + |pat|] + extra + s[i + |pat|..]
  {
    var a, b := s[..i], s[i + |pat|..];
    assert a + pat == s[..i + |pat|];
    assert a + (pat + extra) == (a + pat) + extra;
  }

  /** What was inserted between `a` and `b` can be cut out again. */
  lemma CutInserted(a: string, extra: string, b: string)
    ensures var r := a + extra + b;
      r[..|a|] + r[|a| + |extra|..] == a + b && r[|a|..|a| + |extra|] == extra
  {
    var r := a + extra + b;
    assert r[..|a|] == a;
    assert r[|a| + |extra|..] == b;
  }
}
