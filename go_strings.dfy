/**
 * The parts of Go's `strings` and `sort` packages the core relies on:
 * string ordering, the sort that `Set.Write` applies to the
 * registry's names, and suffix trimming.  Go compares strings byte by byte on their UTF-8
 * encoding, which orders valid text exactly as comparing code points
 * one by one does; `Less` is that comparison on Dafny characters.
 */
module GoStrings {

  /** `a < b` on Go strings: lexicographic, a proper prefix coming first. */
  predicate Less(a: string, b: string)
    decreases |a|
  {
    |b| > 0 && (|a| == 0 || a[0] < b[0] || (a[0] == b[0] && Less(a[1..], b[1..])))
  }

  predicate LessEq(a: string, b: string)
  {
    a == b || Less(a, b)
  }

  lemma {:induction false} LessIrreflexive(a: string)
    ensures !Less(a, a)
    decreases |a|
  {
    if |a| > 0 {
      LessIrreflexive(a[1..]);
    }
  }

  lemma {:induction false} LessTransitive(a: string, b: string, c: string)
    requires Less(a, b) && Less(b, c)
    ensures Less(a, c)
    decreases |a|
  {
    if |a| > 0 && a[0] == b[0] && b[0] == c[0] {
      LessTransitive(a[1..], b[1..], c[1..]);
    }
  }

  /** Any two different strings are ordered one way or the other. */
  lemma {:induction false} LessTotal(a: string, b: string)
    requires a != b
    ensures Less(a, b) || Less(b, a)
    decreases |a|
  {
    if |a| > 0 && |b| > 0 && a[0] == b[0] {
      assert a == [a[0]] + a[1..] && b == [b[0]] + b[1..];
      LessTotal(a[1..], b[1..]);
    }
  }

  lemma LessAsymmetric(a: string, b: string)
    requires Less(a, b)
    ensures !Less(b, a)
  {
    if Less(b, a) {
      LessTransitive(a, b, a);
      LessIrreflexive(a);
    }
  }

  lemma LessEqTransitive(a: string, b: string, c: string)
    requires LessEq(a, b) && LessEq(b, c)
    ensures LessEq(a, c)
  {
    if a != b && b != c {
      LessTransitive(a, b, c);
    }
  }

  ghost predicate Sorted(s: seq<string>)
  {
    forall i, j :: 0 <= i < j < |s| ==> LessEq(s[i], s[j])
  }

  ghost predicate StrictlySorted(s: seq<string>)
  {
    forall i, j :: 0 <= i < j < |s| ==> Less(s[i], s[j])
  }

  /** Inserts `x` in front of the first element of `s` that is not below it. */
  function Insert(x: string, s: seq<string>): (r: seq<string>)
    requires Sorted(s)
    ensures Sorted(r)
    ensures multiset(r) == multiset(s) + multiset{x}
  {
    if s == [] then
      [x]
    else if LessEq(x, s[0]) then
      InsertFrontSorted(x, s);
      [x] + s
    else
      LessTotal(x, s[0]);
      var t := Insert(x, s[1..]);
      assert s == [s[0]] + s[1..];
      InsertBehindSorted(x, s, t);
      [s[0]] + t
  }

  lemma InsertFrontSorted(x: string, s: seq<string>)
    requires Sorted(s) && s != [] && LessEq(x, s[0])
    ensures Sorted([x] + s)
  {
    forall j | 0 < j < |s|
      ensures LessEq(x, s[j])
    {
      LessEqTransitive(x, s[0], s[j]);
    }
  }

  lemma InsertBehindSorted(x: string, s: seq<string>, t: seq<string>)
    requires Sorted(s) && s != [] && Less(s[0], x)
    requires Sorted(t) && multiset(t) == multiset(s[1..]) + multiset{x}
    ensures Sorted([s[0]] + t)
  {
    forall j | 0 <= j < |t|
      ensures LessEq(s[0], t[j])
    {
      assert t[j] in multiset(t);
      if t[j] != x {
        assert t[j] in multiset(s[1..]);
        assert t[j] in s[1..];
        var k :| 0 <= k < |s[1..]| && s[1..][k] == t[j];
        assert s[k + 1] == t[j];
      }
    }
    var r := [s[0]] + t;
    forall i, j | 0 <= i < j < |r|
      ensures LessEq(r[i], r[j])
    {
      if i > 0 {
        assert r[i] == t[i - 1] && r[j] == t[j - 1];
      }
    }
  }

  /**
   * The result of `sort.Strings`: the same strings, ascending.  Only the
   * result is modelled; the library's algorithm is not.
   */
  function Sort(xs: seq<string>): (r: seq<string>)
    ensures Sorted(r)
    ensures multiset(r) == multiset(xs)
  {
    if xs == [] then
      []
    else
      assert xs == [xs[0]] + xs[1..];
      Insert(xs[0], Sort(xs[1..]))
  }

  /**
   * A sorted arrangement of a set of distinct strings (each with multiplicity
   * one) is strictly ascending and holds exactly that set.
   */
  lemma SortedSetIsStrict(r: seq<string>, keys: set<string>)
    requires Sorted(r) && multiset(r) == multiset(keys)
    ensures StrictlySorted(r)
    ensures forall n :: n in r <==> n in keys
  {
    forall i, j | 0 <= i < j < |r|
      ensures Less(r[i], r[j])
    {
      DistinctPositions(r, keys, i, j);
    }
    forall n
      ensures n in r <==> n in keys
    {
      assert n in r <==> n in multiset(r);
    }
  }

  lemma DistinctPositions(r: seq<string>, keys: set<string>, i: nat, j: nat)
    requires multiset(r) == multiset(keys) && i < j < |r|
    ensures r[i] != r[j]
  {
    var x := r[i];
    assert r == r[..j] + r[j..];
    assert multiset(r) == multiset(r[..j]) + multiset(r[j..]);
    assert x in r[..j];
    assert multiset(r[..j])[x] >= 1;
    assert multiset(keys)[x] <= 1;
    assert multiset(r[j..])[x] == 0;
    assert r[j] in r[j..];
  }

  /**
   * Only one strictly ascending sequence holds a given set of strings:
   * the order of the result does not depend on the order the strings
   * were gathered in.
   */
  lemma {:induction false} StrictlySortedUnique(a: seq<string>, b: seq<string>)
    requires StrictlySorted(a) && StrictlySorted(b)
    requires forall n :: n in a <==> n in b
    ensures a == b
    decreases |a|
  {
    assert a == [] <==> b == [] by {
      if a != [] { assert a[0] in b; }
      if b != [] { assert b[0] in a; }
    }
    if a != [] {
      assert a[0] in b && b[0] in a;
      var k :| 0 <= k < |b| && b[k] == a[0];
      var m :| 0 <= m < |a| && a[m] == b[0];
      if k > 0 && m > 0 {
        LessAsymmetric(b[0], a[0]);
      }
      assert a[0] == b[0];
      forall n
        ensures n in a[1..] <==> n in b[1..]
      {
        if n in a[1..] {
          var i :| 1 <= i < |a| && a[i] == n;
          LessIrreflexive(a[0]);
          assert n != a[0];
          assert n in b;
          var j :| 0 <= j < |b| && b[j] == n;
          assert j > 0;
        }
        if n in b[1..] {
          var j :| 1 <= j < |b| && b[j] == n;
          LessIrreflexive(b[0]);
          assert n != b[0];
          assert n in a;
          var i :| 0 <= i < |a| && a[i] == n;
          assert i > 0;
        }
      }
      StrictlySortedUnique(a[1..], b[1..]);
      assert a == [a[0]] + a[1..] && b == [b[0]] + b[1..];
    }
  }

  predicate HasSuffix(s: string, suffix: string)
  {
    |suffix| <= |s| && s[|s| - |suffix|..] == suffix
  }

  /** `strings.TrimSuffix`: `s` without a trailing `suffix`, if it has one. */
  function TrimSuffix(s: string, suffix: string): (r: string)
    ensures HasSuffix(s, suffix) ==> r + suffix == s
    ensures !HasSuffix(s, suffix) ==> r == s
  {
    if HasSuffix(s, suffix) then s[..|s| - |suffix|] else s
  }

  /** Trimming undoes appending the suffix. */
  lemma TrimSuffixAppended(x: string, suffix: string)
    ensures TrimSuffix(x + suffix, suffix) == x
  {
    assert (x + suffix)[|x|..] == suffix;
  }
}
