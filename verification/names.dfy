/** Object names, the order that Go's `<` puts on strings, and sorting by name. */
module Names {

  datatype Option<+T> = None | Some(value: T)

  /** Go's `a < b` on strings: lexicographic on the elements. */
  predicate Less(a: string, b: string)
  {
    b != "" && (a == "" || a[0] < b[0] || (a[0] == b[0] && Less(a[1..], b[1..])))
  }

  lemma {:induction false} LessIrreflexive(a: string)
    ensures !Less(a, a)
  {
    if a != "" { LessIrreflexive(a[1..]); }
  }

  lemma {:induction false} LessTotal(a: string, b: string)
    ensures a == b || Less(a, b) || Less(b, a)
  {
    if a != "" && b != "" && a[0] == b[0] {
      LessTotal(a[1..], b[1..]);
      assert a == [a[0]] + a[1..] && b == [b[0]] + b[1..];
    }
  }

  lemma {:induction false} LessTransitive(a: string, b: string, c: string)
    requires Less(a, b) && Less(b, c)
    ensures Less(a, c)
  {
    if a != "" && a[0] == b[0] && b[0] == c[0] { LessTransitive(a[1..], b[1..], c[1..]); }
  }

  lemma {:induction false} LessAsymmetric(a: string, b: string)
    requires Less(a, b)
    ensures !Less(b, a) && a != b
  {
    LessIrreflexive(a);
    if Less(b, a) { LessTransitive(a, b, a); }
  }

  /** A common prefix does not change the order. */
  lemma {:induction false} LessPrefix(p: string, a: string, b: string)
    ensures Less(p + a, p + b) == Less(a, b)
  {
    if p == "" {
      assert p + a == a && p + b == b;
    } else {
      LessPrefix(p[1..], a, b);
      assert (p + a)[1..] == p[1..] + a && (p + b)[1..] == p[1..] + b;
    }
  }

  ghost predicate StrictlyAscending(s: seq<string>)
  {
    forall i, j :: 0 <= i < j < |s| ==> Less(s[i], s[j])
  }

  lemma AscendingDistinct(s: seq<string>, i: nat, j: nat)
    requires StrictlyAscending(s) && i < |s| && j < |s| && s[i] == s[j]
    ensures i == j
  {
    LessIrreflexive(s[i]);
  }

  lemma HeadIn<T>(s: seq<T>)
    ensures s != [] ==> s[0] in s
  {
  }

  /** Two strictly ascending lists of the same names are the same list. */
  lemma {:induction false} AscendingUnique(a: seq<string>, b: seq<string>)
    requires StrictlyAscending(a) && StrictlyAscending(b)
    requires forall x :: x in a <==> x in b
    ensures a == b
  {
    if a == [] {
      HeadIn(b);
    } else {
      assert a[0] in b && b[0] in a by { assert a[0] in a; if b != [] { assert b[0] in b; } }
      var j :| 0 <= j < |b| && b[j] == a[0];
      var i :| 0 <= i < |a| && a[i] == b[0];
      if i > 0 && j > 0 { LessAsymmetric(a[0], b[0]); }
      assert a[0] == b[0];
      forall x ensures x in a[1..] <==> x in b[1..] {
        if x in a[1..] {
          var k :| 1 <= k < |a| && a[k] == x;
          LessAsymmetric(a[0], x);
          assert x in a;
          assert x in b;
        }
        if x in b[1..] {
          var k :| 1 <= k < |b| && b[k] == x;
          LessAsymmetric(b[0], x);
          assert x in b;
          assert x in a;
        }
      }
      AscendingUnique(a[1..], b[1..]);
      assert a == [a[0]] + a[1..] && b == [b[0]] + b[1..];
    }
  }

  function InsertName(x: string, s: seq<string>): seq<string>
  {
    if s == [] then [x]
    else if x == s[0] then s
    else if Less(x, s[0]) then [x] + s
    else [s[0]] + InsertName(x, s[1..])
  }

  lemma {:induction false} InsertNameAscending(x: string, s: seq<string>)
    requires StrictlyAscending(s)
    ensures StrictlyAscending(InsertName(x, s))
    ensures forall y :: y in InsertName(x, s) <==> y == x || y in s
  {
    if s != [] && x != s[0] {
      if Less(x, s[0]) {
        forall j | 0 <= j < |s| ensures Less(x, s[j]) {
          if j > 0 { LessTransitive(x, s[0], s[j]); }
        }
      } else {
        LessTotal(x, s[0]);
        InsertNameAscending(x, s[1..]);
        var r := InsertName(x, s[1..]);
        forall j | 0 <= j < |r| ensures Less(s[0], r[j]) { assert r[j] in r; }
      }
    }
  }

  /** The distinct names of `xs` in ascending order: a Go map keyed by name, transposed to a list and sorted. */
  function SortNames(xs: seq<string>): (r: seq<string>)
    ensures StrictlyAscending(r)
    ensures forall x :: x in r <==> x in xs
  {
    if xs == [] then []
    else
      var s := SortNames(xs[1..]);
      InsertNameAscending(xs[0], s);
      InsertName(xs[0], s)
  }

  lemma {:induction false} SortNamesSame(xs: seq<string>, ys: seq<string>)
    requires forall x :: x in xs <==> x in ys
    ensures SortNames(xs) == SortNames(ys)
  {
    AscendingUnique(SortNames(xs), SortNames(ys));
  }

  lemma {:induction false} SortNamesFixed(xs: seq<string>)
    requires StrictlyAscending(xs)
    ensures SortNames(xs) == xs
  {
    AscendingUnique(SortNames(xs), xs);
  }

  // ---- sort.Slice with a comparison by name ----

  function Keys<T>(key: T -> string, s: seq<T>): (r: seq<string>)
    ensures |r| == |s| && forall i :: 0 <= i < |s| ==> r[i] == key(s[i])
  {
    seq(|s|, i requires 0 <= i < |s| => key(s[i]))
  }

  function InsertBy<T>(key: T -> string, x: T, s: seq<T>): seq<T>
  {
    if s == [] || !Less(key(s[0]), key(x)) then [x] + s else [s[0]] + InsertBy(key, x, s[1..])
  }

  /** `sort.Slice(s, by name)`; equal names keep an arbitrary but fixed order. */
  function SortBy<T>(key: T -> string, s: seq<T>): seq<T>
  {
    if s == [] then [] else InsertBy(key, s[0], SortBy(key, s[1..]))
  }

  ghost predicate Sorted<T>(key: T -> string, s: seq<T>)
  {
    forall i, j :: 0 <= i < j < |s| ==> !Less(key(s[j]), key(s[i]))
  }

  lemma {:induction false} InsertBySorted<T>(key: T -> string, x: T, s: seq<T>)
    requires Sorted(key, s)
    ensures Sorted(key, InsertBy(key, x, s))
    ensures |InsertBy(key, x, s)| == |s| + 1
    ensures forall y :: y in InsertBy(key, x, s) <==> y == x || y in s
    ensures multiset(InsertBy(key, x, s)) == multiset{x} + multiset(s)
  {
    if s == [] {
    } else if !Less(key(s[0]), key(x)) {
      forall j | 0 <= j < |s| ensures !Less(key(s[j]), key(x)) {
        if Less(key(s[j]), key(x)) {
          LessTotal(key(s[0]), key(s[j]));
          if Less(key(s[0]), key(s[j])) { LessTransitive(key(s[0]), key(s[j]), key(x)); }
        }
      }
    } else {
      InsertBySorted(key, x, s[1..]);
      var r := InsertBy(key, x, s[1..]);
      LessAsymmetric(key(s[0]), key(x));
      forall j | 0 <= j < |r| ensures !Less(key(r[j]), key(s[0])) {
        assert r[j] in multiset(r);
        if r[j] != x { assert r[j] in multiset(s[1..]); }
      }
      assert s == [s[0]] + s[1..];
    }
  }

  lemma {:induction false} SortByProperties<T>(key: T -> string, s: seq<T>)
    ensures Sorted(key, SortBy(key, s))
    ensures |SortBy(key, s)| == |s|
    ensures forall y :: y in SortBy(key, s) <==> y in s
    ensures multiset(SortBy(key, s)) == multiset(s)
  {
    if s != [] {
      SortByProperties(key, s[1..]);
      InsertBySorted(key, s[0], SortBy(key, s[1..]));
      assert s == [s[0]] + s[1..];
    }
  }

  ghost predicate AscendingBy<T>(key: T -> string, s: seq<T>)
  {
    forall i, j :: 0 <= i < j < |s| ==> Less(key(s[i]), key(s[j]))
  }

  ghost predicate DistinctKeys<T>(key: T -> string, s: seq<T>)
  {
    forall i, j :: 0 <= i < j < |s| ==> key(s[i]) != key(s[j])
  }

  /** With distinct names a sorted list is strictly ascending. */
  lemma {:induction false} SortByAscending<T>(key: T -> string, s: seq<T>)
    requires DistinctKeys(key, s)
    ensures AscendingBy(key, SortBy(key, s))
  {
    SortByProperties(key, s);
    var r := SortBy(key, s);
    forall i, j | 0 <= i < j < |r| ensures Less(key(r[i]), key(r[j])) {
      if key(r[i]) == key(r[j]) { DistinctKeysOfPermutation(key, s, r, i, j); }
      LessTotal(key(r[i]), key(r[j]));
    }
  }

  lemma {:induction false} DistinctKeysOfPermutation<T>(key: T -> string, s: seq<T>, r: seq<T>, i: nat, j: nat)
    requires DistinctKeys(key, s) && multiset(s) == multiset(r)
    requires i < j < |r|
    ensures key(r[i]) != key(r[j])
  {
    assert r == r[..i] + [r[i]] + r[i + 1..j] + [r[j]] + r[j + 1..];
    assert r[i] in multiset(s) && r[j] in multiset(s);
    if r[i] == r[j] {
      assert multiset(r)[r[i]] >= 2;
      DistinctOnce(key, s, r[i]);
    } else {
      var a :| 0 <= a < |s| && s[a] == r[i];
      var b :| 0 <= b < |s| && s[b] == r[j];
      assert a < b || b < a;
    }
  }

  lemma {:induction false} DistinctOnce<T>(key: T -> string, s: seq<T>, x: T)
    requires DistinctKeys(key, s)
    ensures multiset(s)[x] <= 1
  {
    if s != [] {
      assert s == [s[0]] + s[1..];
      DistinctOnce(key, s[1..], x);
      forall k | 0 <= k < |s[1..]| ensures s[1..][k] != s[0] { assert key(s[0]) != key(s[k + 1]); }
    }
  }

  /** A list with strictly ascending names is determined by its elements. */
  lemma AscendingByUnique<T>(key: T -> string, a: seq<T>, b: seq<T>)
    requires AscendingBy(key, a) && AscendingBy(key, b)
    requires forall x :: x in a <==> x in b
    ensures a == b
  {
    var ka, kb := Keys(key, a), Keys(key, b);
    forall n ensures n in ka <==> n in kb {
      if n in ka {
        var i :| 0 <= i < |ka| && ka[i] == n;
        assert a[i] in a;
        var j :| 0 <= j < |b| && b[j] == a[i];
        assert kb[j] == n;
      }
      if n in kb {
        var i :| 0 <= i < |kb| && kb[i] == n;
        assert b[i] in b;
        var j :| 0 <= j < |a| && a[j] == b[i];
        assert ka[j] == n;
      }
    }
    AscendingUnique(ka, kb);
    forall i | 0 <= i < |a| ensures a[i] == b[i] {
      assert a[i] in a;
      var j :| 0 <= j < |b| && b[j] == a[i];
      assert kb[j] == ka[i] == kb[i];
      AscendingDistinct(kb, i, j);
    }
  }
}
