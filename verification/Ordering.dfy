/** Byte order on identifiers and the sorting the runtime relies on.
    Rust compares `str` values by UTF-8 bytes, which agrees with comparing code points. */
module Ordering {

  /** Strict lexicographic order on identifiers. */
  predicate Less(a: string, b: string)
    decreases |a|
  {
    if b == [] then false
    else if a == [] then true
    else if a[0] != b[0] then a[0] < b[0]
    else Less(a[1..], b[1..])
  }

  /** The first k characters agree, and there `a` ends or has the smaller character. */
  ghost predicate SmallerAt(a: string, b: string, k: nat) {
    k <= |a| && k < |b| && a[..k] == b[..k] && (k == |a| || a[k] < b[k])
  }

  /** The order is that of the first difference, a proper prefix coming first. */
  lemma {:induction false} LessExactly(a: string, b: string)
    ensures Less(a, b) <==> exists k: nat :: SmallerAt(a, b, k)
    decreases |a|
  {
    if a != [] && b != [] && a[0] == b[0] {
      LessExactly(a[1..], b[1..]);
      if Less(a, b) {
        var k: nat :| SmallerAt(a[1..], b[1..], k);
        SmallerShifts(a, b, k);
      }
      if k: nat :| SmallerAt(a, b, k) {
        assert k > 0;
        SmallerShifts(a, b, k - 1);
      }
    } else {
      if Less(a, b) { assert SmallerAt(a, b, 0); }
      if k: nat :| SmallerAt(a, b, k) {
        assert k > 0 ==> a[..k][0] == b[..k][0];
      }
    }
  }

  lemma SmallerShifts(a: string, b: string, k: nat)
    requires a != [] && b != [] && a[0] == b[0]
    ensures SmallerAt(a[1..], b[1..], k) <==> SmallerAt(a, b, k + 1)
  {
    var c, d := a[1..], b[1..];
    if k <= |c| && k < |d| {
      assert a[..k + 1] == [a[0]] + c[..k] && b[..k + 1] == [b[0]] + d[..k];
      if a[..k + 1] == b[..k + 1] { assert a[..k + 1][1..] == c[..k] && b[..k + 1][1..] == d[..k]; }
    }
  }

  predicate AtMost(a: string, b: string) {
    a == b || Less(a, b)
  }

  lemma {:induction false} LessTransitive(a: string, b: string, c: string)
    requires Less(a, b) && Less(b, c)
    ensures Less(a, c)
    decreases |a|
  {
    if a != [] && a[0] == b[0] && b[0] == c[0] {
      LessTransitive(a[1..], b[1..], c[1..]);
    }
  }

  lemma {:induction false} LessIrreflexive(a: string)
    ensures !Less(a, a)
    decreases |a|
  {
    if a != [] {
      LessIrreflexive(a[1..]);
    }
  }

  lemma {:induction false} LessTotal(a: string, b: string)
    ensures a == b || Less(a, b) || Less(b, a)
    decreases |a|
  {
    if a != [] && b != [] && a[0] == b[0] {
      LessTotal(a[1..], b[1..]);
      assert a == [a[0]] + a[1..] && b == [b[0]] + b[1..];
    }
  }

  lemma LessAsymmetric(a: string, b: string)
    requires Less(a, b)
    ensures !Less(b, a)
  {
    if Less(b, a) {
      LessTransitive(a, b, a);
      LessIrreflexive(a);
    }
  }

  lemma AtMostTransitive(a: string, b: string, c: string)
    requires AtMost(a, b) && AtMost(b, c)
    ensures AtMost(a, c)
  {
    if a != b && b != c {
      LessTransitive(a, b, c);
    }
  }

  /** The elements of a sequence. */
  function Elems<T>(s: seq<T>): set<T> {
    set x | x in s
  }

  ghost predicate Distinct<T>(s: seq<T>) {
    forall i, j :: 0 <= i < j < |s| ==> s[i] != s[j]
  }

  lemma {:induction false} DistinctCardinality<T>(s: seq<T>)
    ensures |Elems(s)| <= |s|
    ensures Distinct(s) <==> |Elems(s)| == |s|
    decreases |s|
  {
    if s == [] {
      assert Elems(s) == {};
    } else {
      var n := |s| - 1;
      var init := s[..n];
      DistinctCardinality(init);
      assert s == init + [s[n]];
      assert Elems(s) == Elems(init) + {s[n]};
      if s[n] in init {
        assert Elems(s) == Elems(init);
        var i :| 0 <= i < n && init[i] == s[n];
        assert s[i] == s[n];
      } else {
        assert |Elems(s)| == |Elems(init)| + 1;
        if Distinct(init) {
          forall i, j | 0 <= i < j < |s|
            ensures s[i] != s[j]
          {
            if j < n {
              assert init[i] != init[j];
            } else {
              assert init[i] in init;
            }
          }
        }
        if Distinct(s) {
          assert forall i, j :: 0 <= i < j < n ==> init[i] == s[i] && init[j] == s[j];
        }
      }
    }
  }

  /** A sequence with more entries than the set it draws from repeats one. */
  lemma Pigeonhole<T>(s: seq<T>, pool: set<T>) returns (i: nat, j: nat)
    requires Elems(s) <= pool && |pool| < |s|
    ensures i < j < |s| && s[i] == s[j]
  {
    DistinctCardinality(s);
    SubsetCardinality(Elems(s), pool);
    assert !Distinct(s);
    i, j :| 0 <= i < j < |s| && s[i] == s[j];
  }

  lemma {:induction false} SubsetCardinality<T>(a: set<T>, b: set<T>)
    requires a <= b
    ensures |a| <= |b|
    ensures |a| == |b| ==> a == b
    decreases a
  {
    if a != {} {
      var x :| x in a;
      SubsetCardinality(a - {x}, b - {x});
      assert a == (a - {x}) + {x} && b == (b - {x}) + {x};
    } else if b != {} {
      assert |b| != 0;
    }
  }

  /** Duplicate-free sequences with the same elements have the same multiset. */
  lemma {:induction false} DistinctMultiset<T>(s: seq<T>)
    requires Distinct(s)
    ensures multiset(s) == multiset(Elems(s))
    decreases |s|
  {
    if s != [] {
      var n := |s| - 1;
      assert s == s[..n] + [s[n]];
      DistinctMultiset(s[..n]);
      assert s[n] !in s[..n];
      assert Elems(s) == Elems(s[..n]) + {s[n]};
    } else {
      assert Elems(s) == {};
    }
  }

  lemma {:induction false} MultisetDistinct<T>(s: seq<T>, t: seq<T>)
    requires multiset(s) == multiset(t) && Distinct(s)
    ensures Distinct(t) && Elems(s) == Elems(t)
  {
    forall x
      ensures x in s <==> x in t
    {
      assert x in s <==> x in multiset(s);
      assert x in t <==> x in multiset(t);
    }
    assert Elems(s) == Elems(t);
    assert |multiset(s)| == |s| && |multiset(t)| == |t|;
    DistinctCardinality(s);
    DistinctCardinality(t);
  }

  ghost predicate Ascending(s: seq<string>) {
    forall i, j :: 0 <= i < j < |s| ==> AtMost(s[i], s[j])
  }

  /** Where `x` goes in an ascending list. */
  function Insert(x: string, s: seq<string>): (r: seq<string>)
    ensures multiset(r) == multiset(s) + multiset{x}
    decreases |s|
  {
    if s == [] then [x]
    else if AtMost(x, s[0]) then
      [x] + s
    else
      assert s == [s[0]] + s[1..];
      [s[0]] + Insert(x, s[1..])
  }

  lemma {:induction false} InsertAscending(x: string, s: seq<string>)
    requires Ascending(s)
    ensures Ascending(Insert(x, s))
    decreases |s|
  {
    if s == [] {
    } else if AtMost(x, s[0]) {
      forall j | 0 <= j < |s|
        ensures AtMost(x, s[j])
      {
        if j > 0 { AtMostTransitive(x, s[0], s[j]); }
      }
    } else {
      LessTotal(x, s[0]);
      var rest := Insert(x, s[1..]);
      InsertAscending(x, s[1..]);
      forall j | 0 <= j < |rest|
        ensures AtMost(s[0], rest[j])
      {
        assert rest[j] in multiset(rest);
        assert rest[j] == x || rest[j] in s[1..];
      }
    }
  }

  /** `sort_by` on identifiers. */
  function Sort(s: seq<string>): (r: seq<string>)
    ensures multiset(r) == multiset(s)
    ensures Ascending(r)
    decreases |s|
  {
    if s == [] then []
    else
      assert s == [s[0]] + s[1..];
      InsertAscending(s[0], Sort(s[1..]));
      Insert(s[0], Sort(s[1..]))
  }

  lemma SortElems(s: seq<string>)
    ensures Elems(Sort(s)) == Elems(s)
    ensures |Sort(s)| == |s|
    ensures Distinct(s) ==> Distinct(Sort(s))
  {
    var r := Sort(s);
    forall x
      ensures x in r <==> x in s
    {
      assert x in r <==> x in multiset(r);
      assert x in s <==> x in multiset(s);
    }
    assert |multiset(r)| == |r| && |multiset(s)| == |s|;
    if Distinct(s) {
      MultisetDistinct(s, r);
    }
  }

  lemma LastIsGreatest(s: seq<string>, x: string)
    requires Ascending(s) && x in s
    ensures AtMost(x, s[|s| - 1])
  {
    var i :| 0 <= i < |s| && s[i] == x;
    assert i == |s| - 1 || AtMost(s[i], s[|s| - 1]);
  }

  lemma WithoutLast(s: seq<string>, x: string)
    requires s != [] && Distinct(s)
    ensures x in s[..|s| - 1] <==> x in s && x != s[|s| - 1]
  {
    var p := s[..|s| - 1];
    assert s == p + [s[|s| - 1]];
    if x in p {
      var i :| 0 <= i < |p| && p[i] == x;
      assert s[i] == x && s[i] != s[|s| - 1];
    }
  }

  lemma SameLast(s: seq<string>, t: seq<string>)
    requires Ascending(s) && Ascending(t) && s != [] && t != []
    requires forall x :: x in s <==> x in t
    ensures s[|s| - 1] == t[|t| - 1]
  {
    var x, y := s[|s| - 1], t[|t| - 1];
    LastIsGreatest(t, x);
    LastIsGreatest(s, y);
    if x != y { LessAsymmetric(x, y); }
  }

  /** A duplicate-free ascending sequence is fixed by its elements. */
  lemma {:induction false} AscendingUnique(s: seq<string>, t: seq<string>)
    requires Ascending(s) && Distinct(s) && Ascending(t) && Distinct(t)
    requires forall x :: x in s <==> x in t
    ensures s == t
    decreases |s|
  {
    assert Elems(s) == Elems(t);
    DistinctCardinality(s);
    DistinctCardinality(t);
    if s != [] {
      var p, q := s[..|s| - 1], t[..|t| - 1];
      SameLast(s, t);
      forall x
        ensures x in p <==> x in q
      {
        WithoutLast(s, x);
        WithoutLast(t, x);
      }
      AscendingUnique(p, q);
      assert s == p + [s[|s| - 1]] && t == q + [t[|t| - 1]];
    }
  }

  function Reverse<T>(s: seq<T>): (r: seq<T>)
    ensures |r| == |s| && forall i :: 0 <= i < |s| ==> r[i] == s[|s| - 1 - i]
  {
    seq(|s|, i requires 0 <= i < |s| => s[|s| - 1 - i])
  }
}
