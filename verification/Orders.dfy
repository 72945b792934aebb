/** Python's order on strings, lexicographic orders in general, first occurrences, and
    `sorted(set(...))`. */
module Orders {
  /** Lexicographic comparison of lists, a proper prefix first. */
  predicate LexLess<T(==)>(a: seq<T>, b: seq<T>, less: (T, T) -> bool)
  {
    if b == [] then false
    else if a == [] then true
    else less(a[0], b[0]) || (a[0] == b[0] && LexLess(a[1..], b[1..], less))
  }

  ghost predicate Transitive<T(!new)>(less: (T, T) -> bool)
  {
    forall x, y, z :: less(x, y) && less(y, z) ==> less(x, z)
  }

  /** `less` is a strict total order: what Python's `sorted` relies on. */
  ghost predicate StrictTotal<T(!new)>(less: (T, T) -> bool)
  {
    && (forall x :: !less(x, x))
    && Transitive(less)
    && (forall x, y :: x != y ==> less(x, y) || less(y, x))
  }

  lemma {:induction false} LexIrreflexive<T(!new)>(a: seq<T>, less: (T, T) -> bool)
    requires StrictTotal(less)
    ensures !LexLess(a, a, less)
  {
    if a == [] {
    } else {
      LexIrreflexive(a[1..], less);
    }
  }

  lemma {:induction false} LexTransitive<T(!new)>(a: seq<T>, b: seq<T>, c: seq<T>, less: (T, T) -> bool)
    requires StrictTotal(less)
    requires LexLess(a, b, less) && LexLess(b, c, less)
    ensures LexLess(a, c, less)
  {
    if a == [] {
    } else if a[0] == b[0] && b[0] == c[0] {
      LexTransitive(a[1..], b[1..], c[1..], less);
    }
  }

  lemma {:induction false} LexConnected<T(!new)>(a: seq<T>, b: seq<T>, less: (T, T) -> bool)
    requires StrictTotal(less) && a != b
    ensures LexLess(a, b, less) || LexLess(b, a, less)
  {
    if a == [] || b == [] {
    } else if a[0] == b[0] {
      assert a == [a[0]] + a[1..] && b == [b[0]] + b[1..];
      LexConnected(a[1..], b[1..], less);
    }
  }

  predicate CharLess(a: char, b: char)
  {
    a < b
  }

  predicate IntLess(a: int, b: int)
  {
    a < b
  }

  /** Strings compare by code point. */
  predicate StrLess(a: string, b: string)
  {
    LexLess(a, b, CharLess)
  }

  /** The two lists agree up to some position, where the first one ends or has the smaller item. */
  ghost predicate LessAt<T>(a: seq<T>, b: seq<T>, less: (T, T) -> bool, k: nat)
  {
    && k <= |a| && k < |b| && a[..k] == b[..k]
    && (k == |a| || less(a[k], b[k]))
  }

  lemma {:induction false} LexLessMeaning<T(!new)>(a: seq<T>, b: seq<T>, less: (T, T) -> bool)
    ensures LexLess(a, b, less) <==> exists k: nat :: LessAt(a, b, less, k)
  {
    if b == [] {
    } else if a == [] {
      assert LessAt(a, b, less, 0);
    } else {
      LexLessMeaning(a[1..], b[1..], less);
      if LexLess(a, b, less) {
        if less(a[0], b[0]) {
          assert LessAt(a, b, less, 0);
        } else {
          var k: nat :| LessAt(a[1..], b[1..], less, k);
          assert a[..k + 1] == [a[0]] + a[1..][..k] && b[..k + 1] == [b[0]] + b[1..][..k];
          assert LessAt(a, b, less, k + 1);
        }
      }
      if exists k: nat :: LessAt(a, b, less, k) {
        var k: nat :| LessAt(a, b, less, k);
        if k > 0 {
          assert a[0] == a[..k][0] == b[..k][0] == b[0];
          assert a[1..][..k - 1] == a[..k][1..] && b[1..][..k - 1] == b[..k][1..];
          assert LessAt(a[1..], b[1..], less, k - 1);
        }
      }
    }
  }

  /** Python's order of strings: by the first character that differs, a proper prefix first. */
  lemma StrLessMeaning(a: string, b: string)
    ensures StrLess(a, b) <==>
            exists k: nat :: k <= |a| && k < |b| && a[..k] == b[..k] && (k == |a| || a[k] < b[k])
  {
    LexLessMeaning(a, b, CharLess);
    if StrLess(a, b) {
      var k: nat :| LessAt(a, b, CharLess, k);
      assert a[..k] == b[..k];
    }
    if exists k: nat :: k <= |a| && k < |b| && a[..k] == b[..k] && (k == |a| || a[k] < b[k]) {
      var k: nat :| k <= |a| && k < |b| && a[..k] == b[..k] && (k == |a| || a[k] < b[k]);
      assert LessAt(a, b, CharLess, k);
    }
  }

  lemma StrIrreflexive(a: string)
    ensures !StrLess(a, a)
  {
    LexIrreflexive(a, CharLess);
  }

  lemma StrTransitive(a: string, b: string, c: string)
    requires StrLess(a, b) && StrLess(b, c)
    ensures StrLess(a, c)
  {
    LexTransitive(a, b, c, CharLess);
  }

  lemma StrConnected(a: string, b: string)
    requires a != b
    ensures StrLess(a, b) || StrLess(b, a)
  {
    LexConnected(a, b, CharLess);
  }

  lemma StrAsymmetric(a: string, b: string)
    requires StrLess(a, b)
    ensures !StrLess(b, a) && a != b
  {
    StrIrreflexive(a);
    if StrLess(b, a) {
      StrTransitive(a, b, a);
    }
  }

  ghost predicate NoDuplicates<T>(xs: seq<T>)
  {
    forall i, j :: 0 <= i < j < |xs| ==> xs[i] != xs[j]
  }

  lemma NoDuplicatesCons<T>(x: T, xs: seq<T>)
    requires x !in xs && NoDuplicates(xs)
    ensures NoDuplicates([x] + xs)
  {
    var r := [x] + xs;
    forall i, j | 0 <= i < j < |r| ensures r[i] != r[j] {
      assert r[j] == xs[j - 1];
    }
  }

  ghost predicate Ascending<T>(xs: seq<T>, less: (T, T) -> bool)
  {
    forall i, j :: 0 <= i < j < |xs| ==> less(xs[i], xs[j])
  }

  lemma StrLessIsStrictTotal()
    ensures StrictTotal(StrLess)
  {
    forall x: string ensures !StrLess(x, x) { StrIrreflexive(x); }
    forall x: string, y: string, z: string | StrLess(x, y) && StrLess(y, z)
      ensures StrLess(x, z)
    {
      StrTransitive(x, y, z);
    }
    forall x: string, y: string | x != y ensures StrLess(x, y) || StrLess(y, x) {
      StrConnected(x, y);
    }
  }

  function Place<T(!new)>(x: T, xs: seq<T>, less: (T, T) -> bool): (r: seq<T>)
    ensures |r| == |xs| + 1
    ensures forall y :: y in r <==> y == x || y in xs
    ensures NoDuplicates(xs) && x !in xs ==> NoDuplicates(r)
  {
    if xs == [] || less(x, xs[0]) then [x] + xs
    else
      assert xs == [xs[0]] + xs[1..];
      assert NoDuplicates(xs) ==> xs[0] !in xs[1..] && NoDuplicates(xs[1..]);
      var tail := Place(x, xs[1..], less);
      assert xs[0] !in tail && NoDuplicates(tail) ==> NoDuplicates([xs[0]] + tail) by {
        if xs[0] !in tail && NoDuplicates(tail) { NoDuplicatesCons(xs[0], tail); }
      }
      [xs[0]] + tail
  }

  /** `sorted(set(xs))`: every element once, in the order of `less`. */
  function SortedSet<T(==, !new)>(xs: seq<T>, less: (T, T) -> bool): (r: seq<T>)
    ensures NoDuplicates(r)
    ensures forall y :: y in r <==> y in xs
  {
    if xs == [] then []
    else
      assert xs == [xs[0]] + xs[1..];
      var rest := SortedSet(xs[1..], less);
      if xs[0] in rest then rest else Place(xs[0], rest, less)
  }

  lemma {:induction false} PlaceAscending<T(!new)>(x: T, xs: seq<T>, less: (T, T) -> bool)
    requires Transitive(less) && Ascending(xs, less) && forall y :: y in xs ==> less(x, y) || less(y, x)
    ensures Ascending(Place(x, xs, less), less)
  {
    if xs == [] {
    } else if less(x, xs[0]) {
      var r := [x] + xs;
      forall i, j | 0 <= i < j < |r| ensures less(r[i], r[j]) {
        if i == 0 && 1 < j { assert less(xs[0], xs[j - 1]); }
      }
    } else {
      assert xs == [xs[0]] + xs[1..];
      assert less(xs[0], x);
      PlaceAscending(x, xs[1..], less);
      var tail := Place(x, xs[1..], less);
      var r := [xs[0]] + tail;
      forall i, j | 0 <= i < j < |r| ensures less(r[i], r[j]) {
        if i == 0 {
          assert tail[j - 1] in tail;
        }
      }
    }
  }

  lemma {:induction false} SortedSetAscending<T(!new)>(xs: seq<T>, less: (T, T) -> bool)
    requires StrictTotal(less)
    ensures Ascending(SortedSet(xs, less), less)
  {
    if xs == [] {
    } else {
      SortedSetAscending(xs[1..], less);
      var rest := SortedSet(xs[1..], less);
      if xs[0] !in rest {
        PlaceAscending(xs[0], rest, less);
      }
    }
  }

  lemma NoDuplicatesSnoc<T>(xs: seq<T>, x: T)
    requires NoDuplicates(xs) && x !in xs
    ensures NoDuplicates(xs + [x])
  {
  }

  /** Every element once, in order of first occurrence: the keys of a Python dictionary. */
  function FirstOccurrences<T(==, !new)>(xs: seq<T>): (r: seq<T>)
    ensures NoDuplicates(r)
    ensures forall x :: x in r <==> x in xs
    ensures xs != [] ==> r != [] && r[0] == xs[0]
  {
    if xs == [] then []
    else
      var n := |xs| - 1;
      var r := FirstOccurrences(xs[..n]);
      assert xs == xs[..n] + [xs[n]];
      if xs[n] in r then r
      else
        NoDuplicatesSnoc(r, xs[n]);
        r + [xs[n]]
  }

  /** Appending keeps the first occurrences so far as a prefix. */
  lemma {:induction false} FirstOccurrencesPrefix<T(!new)>(xs: seq<T>, ys: seq<T>)
    ensures |FirstOccurrences(xs)| <= |FirstOccurrences(xs + ys)|
    ensures FirstOccurrences(xs + ys)[..|FirstOccurrences(xs)|] == FirstOccurrences(xs)
  {
    if ys == [] {
      assert xs + ys == xs;
    } else {
      var n := |ys| - 1;
      FirstOccurrencesPrefix(xs, ys[..n]);
      assert (xs + ys)[..|xs + ys| - 1] == xs + ys[..n];
    }
  }

  method Dedup<T(==, !new)>(xs: seq<T>) returns (out: seq<T>)
    ensures out == FirstOccurrences(xs)
  {
    out := [];
    for i := 0 to |xs|
      invariant out == FirstOccurrences(xs[..i])
    {
      assert xs[..i + 1][..i] == xs[..i];
      if xs[i] !in out {
        out := out + [xs[i]];
      }
    }
    assert xs[..|xs|] == xs;
  }

  /** A list without duplicates is no longer than a set it lies in; if as long, it lists the set. */
  lemma {:induction false} DistinctInSet<T>(s: seq<T>, range: set<T>)
    requires NoDuplicates(s) && forall i :: 0 <= i < |s| ==> s[i] in range
    ensures |s| <= |range|
    ensures |s| == |range| ==> forall x :: x in range ==> x in s
  {
    if s == [] {
    } else {
      var n := |s| - 1;
      assert s == s[..n] + [s[n]];
      DistinctInSet(s[..n], range - {s[n]});
    }
  }

  lemma AppendDistinct<T>(xs: seq<T>, ys: seq<T>)
    requires NoDuplicates(xs) && NoDuplicates(ys) && forall y :: y in ys ==> y !in xs
    ensures NoDuplicates(xs + ys)
  {
    var zs := xs + ys;
    forall i, j | 0 <= i < j < |zs| ensures zs[i] != zs[j] {
      if i < |xs| <= j {
        assert xs[i] in xs && ys[j - |xs|] in ys;
      }
    }
  }

  /** A list without duplicates is as long as the set it lists. */
  lemma {:induction false} DistinctSize<T>(xs: seq<T>, s: set<T>)
    requires NoDuplicates(xs) && forall x :: x in xs <==> x in s
    ensures |xs| == |s|
  {
    if xs == [] {
      assert s == {};
    } else {
      var n := |xs| - 1;
      assert xs == xs[..n] + [xs[n]];
      DistinctSize(xs[..n], s - {xs[n]});
    }
  }

  /** The first position of an element. */
  function IndexOf<T(==)>(s: seq<T>, x: T): (i: nat)
    requires x in s
    ensures i < |s| && s[i] == x
  {
    if s[0] == x then 0 else IndexOf(s[1..], x) + 1
  }

  lemma {:induction false} FirstIndex<T>(s: seq<T>, i: nat)
    requires NoDuplicates(s) && i < |s|
    ensures IndexOf(s, s[i]) == i
  {
  }

  lemma NotAfter<T(!new)>(s: seq<T>, i: nat, j: nat, less: (T, T) -> bool)
    requires StrictTotal(less) && Ascending(s, less) && i < |s| && j < |s| && less(s[j], s[i])
    ensures j < i
  {
  }

  /** In an ascending list the position of an element is the number of smaller ones. */
  lemma SortedPosition<T(!new)>(s: seq<T>, x: T, less: (T, T) -> bool, smaller: set<T>)
    requires StrictTotal(less) && Ascending(s, less) && x in s
    requires forall y :: y in smaller <==> y in s && less(y, x)
    ensures IndexOf(s, x) == |smaller|
  {
    var i := IndexOf(s, x);
    forall y ensures y in s[..i] <==> y in smaller {
      if y in smaller {
        var j :| 0 <= j < |s| && s[j] == y;
        NotAfter(s, i, j, less);
        assert y == s[..i][j];
      }
      if y in s[..i] {
        var j :| 0 <= j < i && s[..i][j] == y;
        assert s[j] == y && less(s[j], s[i]);
      }
    }
    DistinctSize(s[..i], smaller) by {
      forall j, k | 0 <= j < k < i ensures s[..i][j] != s[..i][k] { assert less(s[j], s[k]); }
    }
  }
}
