/** Set partitions of the target's variables as restricted-growth strings, and their witness values. */
module Partitions {
  import opened Results
  import opened Orders

  // -------------------------------------------------- restricted-growth strings

  function MaxOf(s: seq<int>): (m: int)
    requires s != []
    ensures m in s && forall x :: x in s ==> x <= m
  {
    var n := |s| - 1;
    if n == 0 then s[0]
    else
      assert s == s[..n] + [s[n]];
      var m := MaxOf(s[..n]);
      if s[n] > m then s[n] else m
  }

  function Max(a: int, b: int): int
  {
    if a > b then a else b
  }

  /** `r` continues `assign`, each new label at most one above all earlier ones. */
  ghost predicate Extends(assign: seq<int>, r: seq<int>)
    requires assign != []
    decreases |r|
  {
    var n := |r| - 1;
    if |r| <= |assign| then r == assign
    else Extends(assign, r[..n]) && 0 <= r[n] <= MaxOf(r[..n]) + 1
  }

  /** A restricted-growth string: the canonical name of a set partition. */
  ghost predicate Restricted(r: seq<int>)
  {
    Extends([0], r)
  }

  /** Two labellings describe the same partition. */
  ghost predicate SameKernel(f: seq<int>, g: seq<int>)
  {
    |f| == |g| && forall i, j :: 0 <= i < |f| && 0 <= j < |f| ==> (f[i] == f[j] <==> g[i] == g[j])
  }

  lemma {:induction false} LabelsAreGapless(r: seq<int>, b: int)
    requires Restricted(r) && r != [] && 0 <= b <= MaxOf(r)
    ensures b in r
    decreases |r|
  {
    var n := |r| - 1;
    if n <= 0 {
    } else {
      assert r == r[..n] + [r[n]];
      if b <= MaxOf(r[..n]) {
        LabelsAreGapless(r[..n], b);
      }
    }
  }

  /** The last label is an earlier one, or the least unused one. */
  lemma LastLabel(r: seq<int>)
    requires Restricted(r) && |r| > 1
    ensures var n := |r| - 1; Restricted(r[..n]) && (r[n] in r[..n] || r[n] == MaxOf(r[..n]) + 1)
  {
    var n := |r| - 1;
    if r[n] <= MaxOf(r[..n]) {
      LabelsAreGapless(r[..n], r[n]);
    }
  }

  lemma KernelPrefix(f: seq<int>, g: seq<int>)
    requires SameKernel(f, g) && f != []
    ensures SameKernel(f[..|f| - 1], g[..|f| - 1])
    ensures f[|f| - 1] in f[..|f| - 1] <==> g[|f| - 1] in g[..|f| - 1]
    ensures forall i :: 0 <= i < |f| - 1 && f[i] == f[|f| - 1] ==> g[i] == g[|f| - 1]
  {
    var n := |f| - 1;
    if f[n] in f[..n] {
      var i :| 0 <= i < n && f[..n][i] == f[n];
      assert g[..n][i] == g[n];
    }
    if g[n] in g[..n] {
      var i :| 0 <= i < n && g[..n][i] == g[n];
      assert f[..n][i] == f[n];
    }
  }

  lemma SameLastLabel(r: seq<int>, s: seq<int>)
    requires |r| == |s| > 1 && SameKernel(r, s) && r[..|r| - 1] == s[..|r| - 1] && Restricted(r) && Restricted(s)
    ensures r[|r| - 1] == s[|r| - 1]
  {
    var n := |r| - 1;
    LastLabel(r);
    LastLabel(s);
    KernelPrefix(r, s);
    if r[n] in r[..n] {
      var i :| 0 <= i < n && r[..n][i] == r[n];
      assert s[i] == s[..n][i];
    }
  }

  /** Strings without their last items. */
  lemma ShorterKernel(r: seq<int>, s: seq<int>, r': seq<int>, s': seq<int>)
    requires Restricted(r) && Restricted(s) && SameKernel(r, s) && |r| > 1
    requires r' == r[..|r| - 1] && s' == s[..|s| - 1]
    ensures Restricted(r') && Restricted(s') && SameKernel(r', s') && |r'| == |s'|
  {
    KernelPrefix(r, s);
    LastLabel(r);
    LastLabel(s);
  }

  /** A partition has only one restricted-growth string. */
  lemma {:induction false} KernelDetermines(r: seq<int>, s: seq<int>)
    requires Restricted(r) && Restricted(s) && SameKernel(r, s)
    ensures r == s
    decreases |r|
  {
    var n := |r| - 1;
    if n <= 0 {
    } else {
      var a, b := r[..n], s[..n];
      assert r == a + [r[n]] && s == b + [s[n]];
      ShorterKernel(r, s, a, b);
      KernelDetermines(a, b);
      SameLastLabel(r, s);
    }
  }

  /** The label of a new item: that of an earlier item with the same value, or the least unused one. */
  function NextLabel(r: seq<int>, f: seq<int>, x: int): int
    requires |r| == |f|
  {
    if x in f then r[IndexOf(f, x)] else if r == [] then 0 else MaxOf(r) + 1
  }

  /** The restricted-growth string of an arbitrary labelling. */
  function Canon(f: seq<int>): (r: seq<int>)
    ensures |r| == |f|
  {
    if f == [] then []
    else
      var n := |f| - 1;
      Canon(f[..n]) + [NextLabel(Canon(f[..n]), f[..n], f[n])]
  }

  lemma KernelSnoc(r: seq<int>, f: seq<int>, c: int, x: int)
    requires SameKernel(r, f)
    requires forall k :: 0 <= k < |r| ==> (r[k] == c <==> f[k] == x)
    ensures SameKernel(r + [c], f + [x])
  {
  }

  lemma NextLabelFits(r: seq<int>, f: seq<int>, x: int)
    requires SameKernel(r, f)
    ensures forall k :: 0 <= k < |r| ==> (r[k] == NextLabel(r, f, x) <==> f[k] == x)
  {
    forall k | 0 <= k < |r| ensures r[k] == NextLabel(r, f, x) <==> f[k] == x {
      assert r[k] in r && f[k] in f;
      if x in f {
        assert f[IndexOf(f, x)] == x;
      }
    }
  }

  lemma {:induction false} LeastLabel(r: seq<int>)
    requires Restricted(r)
    ensures forall x :: x in r ==> 0 <= x
    decreases |r|
  {
    var n := |r| - 1;
    if n <= 0 {
    } else {
      LeastLabel(r[..n]);
      assert r == r[..n] + [r[n]];
    }
  }

  lemma {:induction false} CanonNames(f: seq<int>)
    requires f != []
    ensures Restricted(Canon(f)) && SameKernel(Canon(f), f)
    decreases |f|
  {
    var n := |f| - 1;
    assert f == f[..n] + [f[n]];
    if n > 0 {
      var init := f[..n];
      CanonNames(init);
      var r := Canon(init);
      var c := NextLabel(r, init, f[n]);
      NextLabelFits(r, init, f[n]);
      KernelSnoc(r, init, c, f[n]);
      LeastLabel(r);
      if f[n] in init {
        assert r[IndexOf(init, f[n])] in r;
      }
      assert (r + [c])[..n] == r;
    } else {
      assert Canon(f) == [0];
    }
  }

  // ------------------------------------------------------------- enumeration

  /** The completions of `assign` whose next label is below `b`, in search order. */
  function Branches(assign: seq<int>, maxBlock: int, n: nat, b: nat): seq<seq<int>>
    requires |assign| < n && maxBlock >= 0
    decreases n - |assign|, b
  {
    if b == 0 then []
    else Branches(assign, maxBlock, n, b - 1) + Completions(assign + [b - 1], Max(maxBlock, b - 1), n)
  }

  /** All completions of `assign` to length `n`, in search order. */
  function Completions(assign: seq<int>, maxBlock: int, n: nat): seq<seq<int>>
    requires |assign| <= n && maxBlock >= 0
    decreases n - |assign|, maxBlock + 3
  {
    if |assign| == n then [assign] else Branches(assign, maxBlock, n, maxBlock + 2)
  }

  function First<T>(s: seq<T>, k: int): seq<T>
    requires k >= 0
  {
    if |s| <= k then s else s[..k]
  }

  /** Appending until the cap is reached. */
  function Capped<T>(have: seq<T>, more: seq<T>, cap: int): seq<T>
  {
    if |have| >= cap then have else First(have + more, cap)
  }

  lemma FirstOfLonger<T>(s: seq<T>, rest: seq<T>, k: nat)
    requires |s| >= k
    ensures First(s + rest, k) == First(s, k)
  {
    assert (s + rest)[..k] == s[..k];
  }

  lemma CappedTwice<T>(have: seq<T>, more: seq<T>, rest: seq<T>, cap: int)
    ensures Capped(Capped(have, more, cap), rest, cap) == Capped(have, more + rest, cap)
  {
    if |have| < cap {
      var s := have + more;
      assert have + (more + rest) == s + rest;
      if |s| >= cap {
        FirstOfLonger(s, rest, cap);
      }
    }
  }

  /** The findings of one more branch. */
  lemma BranchDone(have: seq<seq<int>>, assign: seq<int>, maxBlock: int, n: nat, b: nat, cap: int)
    requires |assign| < n && maxBlock >= 0
    ensures Capped(Capped(have, Branches(assign, maxBlock, n, b), cap), Completions(assign + [b], Max(maxBlock, b), n), cap)
         == Capped(have, Branches(assign, maxBlock, n, b + 1), cap)
  {
    CappedTwice(have, Branches(assign, maxBlock, n, b), Completions(assign + [b], Max(maxBlock, b), n), cap);
  }

  lemma {:induction false} CappedLater(assign: seq<int>, maxBlock: int, n: nat, b: nat, have: seq<seq<int>>, cap: int)
    requires |assign| < n && maxBlock >= 0 && b <= maxBlock + 2
    requires |Capped(have, Branches(assign, maxBlock, n, b), cap)| >= cap
    ensures Capped(have, Branches(assign, maxBlock, n, b), cap) == Capped(have, Branches(assign, maxBlock, n, maxBlock + 2), cap)
    decreases maxBlock + 2 - b
  {
    if b == maxBlock + 2 {
    } else {
      CappedTwice(have, Branches(assign, maxBlock, n, b), Completions(assign + [b], Max(maxBlock, b), n), cap);
      CappedLater(assign, maxBlock, n, b + 1, have, cap);
    }
  }

  /** The search: `assign` is pushed and popped, `parts` only grows, up to the cap. */
  class PartitionSearch {
    const n: nat
    const cap: int
    var parts: seq<seq<int>>
    var assign: seq<int>

    constructor (n: nat, cap: int)
      ensures this.n == n && this.cap == cap && parts == [] && assign == [0]
    {
      this.n, this.cap := n, cap;
      parts, assign := [], [0];
    }

    method Rec(k: nat, maxBlock: int)
      requires k == |assign| <= n && maxBlock >= 0
      modifies this
      ensures assign == old(assign)
      ensures parts == Capped(old(parts), Completions(old(assign), maxBlock, n), cap)
      decreases n - k
    {
      if |parts| >= cap { return; }
      if k == n {
        parts := parts + [assign];
        return;
      }
      ghost var start := assign;
      var b := 0;
      while b < maxBlock + 2
        invariant 0 <= b <= maxBlock + 2
        invariant assign == start
        invariant parts == Capped(old(parts), Branches(start, maxBlock, n, b), cap)
        decreases maxBlock + 2 - b
      {
        assign := assign + [b];
        Rec(k + 1, Max(maxBlock, b));
        assert assign[..|assign| - 1] == start;
        assign := assign[..|assign| - 1];
        BranchDone(old(parts), start, maxBlock, n, b, cap);
        b := b + 1;
        if |parts| >= cap {
          CappedLater(start, maxBlock, n, b, old(parts), cap);
          return;
        }
      }
    }
  }

  lemma {:induction false} ExtendsPrefix(assign: seq<int>, r: seq<int>)
    requires assign != [] && Extends(assign, r)
    ensures |assign| <= |r| && r[..|assign|] == assign
    decreases |r|
  {
    var n := |r| - 1;
    if |r| == |assign| {
    } else {
      ExtendsPrefix(assign, r[..n]);
      assert r[..|assign|] == r[..n][..|assign|];
    }
  }

  /** Continuing with label `b` first is continuing with `b` as the next label. */
  lemma {:induction false} ExtendsStep(assign: seq<int>, b: int, r: seq<int>)
    requires assign != [] && 0 <= b <= MaxOf(assign) + 1 && |r| > |assign|
    ensures Extends(assign + [b], r) <==> Extends(assign, r) && r[|assign|] == b
    decreases |r|
  {
    var n, k := |r| - 1, |assign|;
    if |r| == k + 1 {
      assert r == r[..k] + [r[k]];
      if r == assign + [b] { assert r[..k] == assign; }
    } else {
      ExtendsStep(assign, b, r[..n]);
      assert r[..n][k] == r[k];
    }
  }

  /** The next label of a continuation is in the range the search tries. */
  lemma {:induction false} NextInRange(assign: seq<int>, r: seq<int>)
    requires assign != [] && Extends(assign, r) && |r| > |assign|
    ensures 0 <= r[|assign|] <= MaxOf(assign) + 1
    decreases |r|
  {
    var n, k := |r| - 1, |assign|;
    if n > k {
      NextInRange(assign, r[..n]);
      assert r[..n][k] == r[k];
    } else {
      ExtendsPrefix(assign, r[..n]);
      assert r[..n] == assign;
    }
  }

  lemma {:induction false} CompletionsExact(assign: seq<int>, maxBlock: int, n: nat, r: seq<int>)
    requires 0 < |assign| <= n && maxBlock == MaxOf(assign) >= 0
    ensures r in Completions(assign, maxBlock, n) <==> |r| == n && Extends(assign, r)
    decreases n - |assign|, maxBlock + 3
  {
    if |assign| < n {
      BranchesExact(assign, maxBlock, n, maxBlock + 2, r);
      if |r| == n && Extends(assign, r) {
        NextInRange(assign, r);
      }
    }
  }

  lemma LongerMax(assign: seq<int>, b: int)
    requires assign != []
    ensures MaxOf(assign + [b]) == Max(MaxOf(assign), b)
  {
    assert (assign + [b])[..|assign|] == assign;
  }

  lemma {:induction false} BranchesExact(assign: seq<int>, maxBlock: int, n: nat, b: nat, r: seq<int>)
    requires 0 < |assign| < n && maxBlock == MaxOf(assign) >= 0 && b <= maxBlock + 2
    ensures r in Branches(assign, maxBlock, n, b) <==>
            |r| == n && Extends(assign, r) && r[|assign|] < b
    decreases n - |assign|, b
  {
    if |r| == n && Extends(assign, r) {
      NextInRange(assign, r);
    }
    if b == 0 {
    } else {
      BranchesExact(assign, maxBlock, n, b - 1, r);
      LongerMax(assign, b - 1);
      CompletionsExact(assign + [b - 1], Max(maxBlock, b - 1), n, r);
      if |r| == n {
        ExtendsStep(assign, b - 1, r);
      }
    }
  }

  lemma {:induction false} CompletionsDistinct(assign: seq<int>, maxBlock: int, n: nat)
    requires 0 < |assign| <= n && maxBlock == MaxOf(assign) >= 0
    ensures NoDuplicates(Completions(assign, maxBlock, n))
    decreases n - |assign|, maxBlock + 3
  {
    if |assign| < n {
      BranchesDistinct(assign, maxBlock, n, maxBlock + 2);
    }
  }

  lemma {:induction false} BranchesDistinct(assign: seq<int>, maxBlock: int, n: nat, b: nat)
    requires 0 < |assign| < n && maxBlock == MaxOf(assign) >= 0 && b <= maxBlock + 2
    ensures NoDuplicates(Branches(assign, maxBlock, n, b))
    decreases n - |assign|, b
  {
    if b == 0 {
    } else {
      var longer := assign + [b - 1];
      var xs, ys := Branches(assign, maxBlock, n, b - 1), Completions(longer, Max(maxBlock, b - 1), n);
      LongerMax(assign, b - 1);
      BranchesDistinct(assign, maxBlock, n, b - 1);
      CompletionsDistinct(longer, Max(maxBlock, b - 1), n);
      forall r | r in ys ensures r !in xs {
        BranchesExact(assign, maxBlock, n, b - 1, r);
        CompletionsExact(longer, Max(maxBlock, b - 1), n, r);
        ExtendsStep(assign, b - 1, r);
      }
      AppendDistinct(xs, ys);
    }
  }

  /** All restricted-growth strings of length `n`, in search order. */
  function AllRestricted(n: nat): seq<seq<int>>
    requires n > 0
  {
    Completions([0], 0, n)
  }

  lemma ListedIsRestricted(n: nat, r: seq<int>)
    requires n > 0
    ensures r in AllRestricted(n) <==> |r| == n && Restricted(r)
  {
    assert MaxOf([0]) == 0;
    CompletionsExact([0], 0, n, r);
  }

  lemma AllDistinct(n: nat)
    requires n > 0
    ensures NoDuplicates(AllRestricted(n))
  {
    assert MaxOf([0]) == 0;
    CompletionsDistinct([0], 0, n);
  }

  lemma KernelChain(r: seq<int>, f: seq<int>, s: seq<int>)
    requires SameKernel(r, f) && SameKernel(s, f)
    ensures SameKernel(r, s)
  {
  }

  /** The search lists every set partition of `n` items once and nothing else. */
  lemma EnumerationExact(n: nat, f: seq<int>)
    requires n > 0 && |f| == n
    ensures NoDuplicates(AllRestricted(n))
    ensures f in AllRestricted(n) <==> Restricted(f)
    ensures Canon(f) in AllRestricted(n) && SameKernel(Canon(f), f)
    ensures forall r :: r in AllRestricted(n) && SameKernel(r, f) ==> r == Canon(f)
  {
    AllDistinct(n);
    CanonNames(f);
    ListedIsRestricted(n, f);
    ListedIsRestricted(n, Canon(f));
    forall r | r in AllRestricted(n) && SameKernel(r, f) ensures r == Canon(f) {
      ListedIsRestricted(n, r);
      KernelChain(r, f, Canon(f));
      KernelDetermines(r, Canon(f));
    }
  }

  // ------------------------------------------------------------------ sorting

  /** A partition of named items: an insertion-ordered dictionary from item to block. */
  datatype Partition = Partition(items: seq<string>, blocks: seq<int>)

  function Count(s: seq<int>, x: int): nat
  {
    if s == [] then 0 else Count(s[1..], x) + if s[0] == x then 1 else 0
  }

  function LargestBlock(s: seq<int>): int
    requires s != []
  {
    MaxOf(seq(|s|, i requires 0 <= i < |s| => Count(s, s[i])))
  }

  /** The sort key: fewer blocks first, then a larger largest block, then the labels. */
  predicate ShapeLess(a: seq<int>, b: seq<int>)
  {
    var da, db := |SortedSet(a, IntLess)|, |SortedSet(b, IntLess)|;
    if da != db then da < db
    else if a == [] || b == [] then LexLess(a, b, IntLess)
    else if LargestBlock(a) != LargestBlock(b) then LargestBlock(a) > LargestBlock(b)
    else LexLess(a, b, IntLess)
  }

  lemma NoBlocks(a: seq<int>)
    ensures |SortedSet(a, IntLess)| == 0 <==> a == []
  {
    if a != [] {
      assert a[0] in SortedSet(a, IntLess);
    }
  }

  /** The sort key orders all shapes strictly. */
  lemma ShapeLessIsStrictTotal()
    ensures StrictTotal(ShapeLess)
  {
    forall a ensures !ShapeLess(a, a) { LexIrreflexive(a, IntLess); }
    forall a, b, c | ShapeLess(a, b) && ShapeLess(b, c) ensures ShapeLess(a, c) {
      NoBlocks(a);
      NoBlocks(b);
      NoBlocks(c);
      if LexLess(a, b, IntLess) && LexLess(b, c, IntLess) { LexTransitive(a, b, c, IntLess); }
    }
    forall a, b | a != b ensures ShapeLess(a, b) || ShapeLess(b, a) { LexConnected(a, b, IntLess); }
  }

  ghost function PositionsOf(s: seq<int>, x: int): set<nat>
  {
    set i: nat | i < |s| && s[i] == x
  }

  lemma {:induction false} ShiftedSize(a: set<nat>, b: set<nat>)
    requires b == set i: nat | i in a :: i + 1
    ensures |a| == |b|
  {
    if a == {} {
      assert b == {};
    } else {
      var x :| x in a;
      var less := set i: nat | i in a - {x} :: i + 1;
      forall y ensures y in b <==> y in less || y == x + 1 {
        if y in b { var i :| i in a && y == i + 1; assert i == x || i in a - {x}; }
        if y == x + 1 { assert x in a; }
      }
      assert b == less + {x + 1};
      ShiftedSize(a - {x}, b - {x + 1});
    }
  }

  lemma {:induction false} CountIsSize(s: seq<int>, x: int)
    ensures Count(s, x) == |PositionsOf(s, x)|
  {
    if s == [] {
      assert PositionsOf(s, x) == {};
    } else {
      CountIsSize(s[1..], x);
      var rest := PositionsOf(s[1..], x);
      var moved := set i: nat | i in rest :: i + 1;
      ShiftedSize(rest, moved);
      assert PositionsOf(s, x) == moved + if s[0] == x then {0} else {} by {
        forall i: nat | i in PositionsOf(s, x) && i > 0 ensures i in moved {
          assert i - 1 in rest && s[1..][i - 1] == s[i];
        }
      }
    }
  }

  /** The size of the largest block: some block has it and none has more. */
  lemma LargestBlockMeaning(s: seq<int>)
    requires s != []
    ensures exists x :: x in s && |PositionsOf(s, x)| == LargestBlock(s)
    ensures forall x :: x in s ==> |PositionsOf(s, x)| <= LargestBlock(s)
  {
    var counts := seq(|s|, i requires 0 <= i < |s| => Count(s, s[i]));
    forall x | x in s ensures |PositionsOf(s, x)| <= LargestBlock(s) {
      var i :| 0 <= i < |s| && s[i] == x;
      CountIsSize(s, x);
      assert counts[i] in counts;
    }
    var m :| 0 <= m < |counts| && counts[m] == MaxOf(counts);
    CountIsSize(s, s[m]);
  }

  /** Fewer blocks; or as many and a larger largest block; or the same there too and smaller labels. */
  ghost predicate Precedes(a: seq<int>, b: seq<int>)
    requires a != [] && b != []
  {
    var da, db := |set x | x in a|, |set x | x in b|;
    || da < db
    || (da == db && LargestBlock(a) > LargestBlock(b))
    || (da == db && LargestBlock(a) == LargestBlock(b)
        && exists k: nat :: k <= |a| && k < |b| && a[..k] == b[..k] && (k == |a| || a[k] < b[k]))
  }

  lemma ShapeLessPrecedes(a: seq<int>, b: seq<int>)
    requires a != [] && b != [] && ShapeLess(a, b)
    ensures Precedes(a, b)
  {
    DistinctSize(SortedSet(a, IntLess), set x | x in a);
    DistinctSize(SortedSet(b, IntLess), set x | x in b);
    LexLessMeaning(a, b, IntLess);
    if LexLess(a, b, IntLess) {
      var k: nat :| LessAt(a, b, IntLess, k);
      assert k <= |a| && k < |b| && a[..k] == b[..k] && (k == |a| || a[k] < b[k]);
    }
  }

  function SortShapes(xs: seq<seq<int>>): (r: seq<seq<int>>)
    ensures |r| == |xs|
    ensures forall x :: x in r <==> x in xs
    ensures NoDuplicates(xs) ==> NoDuplicates(r)
  {
    if xs == [] then []
    else
      assert xs == [xs[0]] + xs[1..];
      assert NoDuplicates(xs) ==> NoDuplicates(xs[1..]) && xs[0] !in xs[1..];
      Place(xs[0], SortShapes(xs[1..]), ShapeLess)
  }

  lemma {:induction false} SortShapesAscending(xs: seq<seq<int>>)
    requires NoDuplicates(xs)
    ensures Ascending(SortShapes(xs), ShapeLess)
  {
    if xs == [] {
    } else {
      assert xs == [xs[0]] + xs[1..];
      SortShapesAscending(xs[1..]);
      ShapeLessIsStrictTotal();
      PlaceAscending(xs[0], SortShapes(xs[1..]), ShapeLess);
    }
  }

  /** What the capped search has found. */
  function Found(n: nat, cap: int): seq<seq<int>>
    requires n > 0
  {
    Capped([], AllRestricted(n), cap)
  }

  lemma FoundDistinct(n: nat, cap: int)
    requires n > 0
    ensures NoDuplicates(Found(n, cap))
  {
    AllDistinct(n);
  }

  lemma FoundIsLong(n: nat, cap: int, r: seq<int>)
    requires n > 0 && r in Found(n, cap)
    ensures |r| == n
  {
    assert r in AllRestricted(n);
    ListedIsRestricted(n, r);
  }

  /** `all_set_partitions`: no items, no partitions; otherwise what the capped search found, sorted. */
  method AllSetPartitions(items: seq<string>, maxPartitions: int) returns (parts: seq<Partition>)
    ensures items == [] ==> parts == []
    ensures items != [] ==> |parts| == |Found(|items|, maxPartitions)|
    ensures items != [] ==> forall i :: 0 <= i < |parts| ==>
              parts[i].items == items && parts[i].blocks in Found(|items|, maxPartitions)
    ensures items != [] ==> forall r :: r in Found(|items|, maxPartitions) ==> Partition(items, r) in parts
    ensures forall i :: 0 <= i < |parts| ==> parts[i].blocks != []
    ensures forall i, j :: 0 <= i < j < |parts| ==> Precedes(parts[i].blocks, parts[j].blocks)
  {
    if items == [] { return []; }
    var n := |items|;
    var search := new PartitionSearch(n, maxPartitions);
    search.Rec(1, 0);
    var shapes := SortShapes(search.parts);
    FoundDistinct(n, maxPartitions);
    SortShapesAscending(search.parts);
    parts := seq(|shapes|, i requires 0 <= i < |shapes| => Partition(items, shapes[i]));
    forall r | r in Found(n, maxPartitions) ensures Partition(items, r) in parts {
      assert r in shapes;
      var i :| 0 <= i < |shapes| && shapes[i] == r;
      assert parts[i] == Partition(items, r);
    }
    forall i | 0 <= i < |parts| ensures parts[i].items == items && parts[i].blocks in Found(n, maxPartitions) && parts[i].blocks != [] {
      assert shapes[i] in shapes;
      FoundIsLong(n, maxPartitions, shapes[i]);
    }
    forall i, j | 0 <= i < j < |parts| ensures Precedes(parts[i].blocks, parts[j].blocks) {
      ShapeLessPrecedes(shapes[i], shapes[j]);
    }
  }

  /** At or below the cap the list is complete. */
  lemma BelowCapComplete(n: nat, cap: int)
    requires n > 0 && |AllRestricted(n)| <= cap
    ensures Found(n, cap) == AllRestricted(n)
  {
    assert [] + AllRestricted(n) == AllRestricted(n);
  }

  // ----------------------------------------------------------- witness values

  function Residue(k: nat, offset: nat, n: nat): int
    requires n > 0
  {
    (k + offset) % n
  }

  function BlockValue(blocks: seq<int>, b: int, n: nat, offset: nat): int
  {
    if b in blocks && n > 0 then Residue(IndexOf(blocks, b), offset, n) else 0
  }

  /** `partition_to_witness_values`: the blocks in order get consecutive values from `offset`,
      wrapping around the carrier; nothing when there are more blocks than elements. */
  function WitnessValues(p: Partition, n: nat, offset: nat): Option<map<string, int>>
    requires |p.items| == |p.blocks|
  {
    var blocks := SortedSet(p.blocks, IntLess);
    if |blocks| > n then None
    else Some(map v | v in p.items :: BlockValue(blocks, p.blocks[IndexOf(p.items, v)], n, offset))
  }

  lemma Distribute(n: int, x: int, y: int)
    ensures n * (x - y) == n * x - n * y
  {
  }

  lemma GrowFactor(n: int, x: int)
    requires x >= 1 && n >= 0
    ensures n * x >= n
  {
    assert n * x - n == n * (x - 1);
  }

  lemma SameResidue(k: nat, l: nat, offset: nat, n: nat)
    requires k < n && l < n && (k + offset) % n == (l + offset) % n
    ensures k == l
  {
    var a, b := k + offset, l + offset;
    assert a == n * (a / n) + a % n && b == n * (b / n) + b % n;
    assert a - b == n * (a / n - b / n) by { Distribute(n, a / n, b / n); }
    if a / n - b / n >= 1 { GrowFactor(n, a / n - b / n); }
    if a / n - b / n <= -1 { GrowFactor(n, b / n - a / n); Distribute(n, a / n, b / n); Distribute(n, b / n, a / n); }
  }

  /** The position of an item's block among the sorted blocks. */
  function Rank(p: Partition, i: nat): (k: nat)
    requires |p.items| == |p.blocks| && i < |p.items|
    ensures k < |SortedSet(p.blocks, IntLess)|
  {
    assert p.blocks[i] in p.blocks;
    IndexOf(SortedSet(p.blocks, IntLess), p.blocks[i])
  }

  lemma IndexExact<T>(s: seq<T>, x: T, y: T)
    requires x in s && y in s
    ensures IndexOf(s, x) == IndexOf(s, y) <==> x == y
  {
  }

  lemma RankExact(p: Partition, i: nat, j: nat)
    requires |p.items| == |p.blocks| && i < |p.items| && j < |p.items|
    ensures Rank(p, i) == Rank(p, j) <==> p.blocks[i] == p.blocks[j]
  {
    assert p.blocks[i] in p.blocks && p.blocks[j] in p.blocks;
    IndexExact(SortedSet(p.blocks, IntLess), p.blocks[i], p.blocks[j]);
  }

  lemma ValueOfItem(p: Partition, n: nat, offset: nat, i: nat)
    requires |p.items| == |p.blocks| && NoDuplicates(p.items) && i < |p.items|
    requires WitnessValues(p, n, offset).Some?
    ensures Rank(p, i) < n && p.items[i] in WitnessValues(p, n, offset).value
    ensures WitnessValues(p, n, offset).value[p.items[i]] == Residue(Rank(p, i), offset, n)
  {
    assert p.blocks[i] in p.blocks;
    assert IndexOf(p.items, p.items[i]) == i;
  }

  lemma ResidueExact(k: nat, l: nat, offset: nat, n: nat)
    requires k < n && l < n
    ensures 0 <= Residue(k, offset, n) < n
    ensures Residue(k, offset, n) == Residue(l, offset, n) <==> k == l
  {
    if (k + offset) % n == (l + offset) % n {
      SameResidue(k, l, offset, n);
    }
  }

  /** Same value exactly when same block, and every value is an element of the carrier. */
  lemma WitnessSeparatesBlocks(p: Partition, n: nat, offset: nat, i: nat, j: nat)
    requires |p.items| == |p.blocks| && NoDuplicates(p.items)
    requires WitnessValues(p, n, offset).Some?
    requires i < |p.items| && j < |p.items|
    ensures var w := WitnessValues(p, n, offset).value;
            && p.items[i] in w && p.items[j] in w
            && 0 <= w[p.items[i]] < n
            && (w[p.items[i]] == w[p.items[j]] <==> p.blocks[i] == p.blocks[j])
  {
    ValueOfItem(p, n, offset, i);
    ValueOfItem(p, n, offset, j);
    ResidueExact(Rank(p, i), Rank(p, j), offset, n);
    RankExact(p, i, j);
  }

  /** The blocks below `b`. */
  ghost function BlocksBelow(p: Partition, b: int): set<int>
  {
    set c | c in p.blocks && c < b
  }

  lemma IntLessIsStrictTotal()
    ensures StrictTotal(IntLess)
  {
  }

  /** There are values exactly when the carrier has an element for every block. */
  lemma WitnessExists(p: Partition, n: nat, offset: nat)
    requires |p.items| == |p.blocks|
    ensures WitnessValues(p, n, offset).Some? <==> |set b | b in p.blocks| <= n
  {
    DistinctSize(SortedSet(p.blocks, IntLess), set b | b in p.blocks);
  }

  lemma RankIsCount(p: Partition, i: nat)
    requires |p.items| == |p.blocks| && i < |p.items|
    ensures Rank(p, i) == |BlocksBelow(p, p.blocks[i])|
  {
    IntLessIsStrictTotal();
    SortedSetAscending(p.blocks, IntLess);
    assert p.blocks[i] in p.blocks;
    SortedPosition(SortedSet(p.blocks, IntLess), p.blocks[i], IntLess, BlocksBelow(p, p.blocks[i]));
  }

  lemma ModIsUnique(x: nat, q: nat, r: nat, n: nat)
    requires r < n && x == n * q + r
    ensures x % n == r
  {
    var d := x / n;
    assert x == n * d + x % n;
    assert n * d - n * q == r - x % n;
    if d > q { Distribute(n, d, q); GrowFactor(n, d - q); }
    if d < q { Distribute(n, q, d); GrowFactor(n, q - d); }
  }

  /** At offset 0 the blocks get 0, 1, ... in their order: the value of an item is the number of
      different smaller blocks. */
  lemma WitnessStartsAtZero(p: Partition, n: nat, i: nat)
    requires |p.items| == |p.blocks| && NoDuplicates(p.items) && i < |p.items|
    requires WitnessValues(p, n, 0).Some?
    ensures p.items[i] in WitnessValues(p, n, 0).value
    ensures WitnessValues(p, n, 0).value[p.items[i]] == |BlocksBelow(p, p.blocks[i])|
  {
    ValueOfItem(p, n, 0, i);
    RankIsCount(p, i);
    ModIsUnique(Rank(p, i), 0, Rank(p, i), n);
  }

  lemma NextResidue(k: nat, offset: nat, n: nat)
    requires n > 0
    ensures Residue(k, offset + 1, n) == (Residue(k, offset, n) + 1) % n
  {
    var x := k + offset;
    var q, r := x / n, x % n;
    assert x == n * q + r;
    if r + 1 < n {
      ModIsUnique(x + 1, q, r + 1, n);
      ModIsUnique(r + 1, 0, r + 1, n);
    } else {
      assert n * (q + 1) == n * q + n;
      ModIsUnique(x + 1, q + 1, 0, n);
      ModIsUnique(n, 1, 0, n);
    }
  }

  /** Each further offset moves every value on by one, around the carrier. */
  lemma WitnessNextOffset(p: Partition, n: nat, offset: nat, i: nat)
    requires |p.items| == |p.blocks| && NoDuplicates(p.items) && i < |p.items|
    requires WitnessValues(p, n, offset).Some?
    ensures WitnessValues(p, n, offset + 1).Some? && n > 0
    ensures var w, next := WitnessValues(p, n, offset).value, WitnessValues(p, n, offset + 1).value;
            && p.items[i] in w && p.items[i] in next
            && next[p.items[i]] == (w[p.items[i]] + 1) % n
  {
    ValueOfItem(p, n, offset, i);
    ValueOfItem(p, n, offset + 1, i);
    NextResidue(Rank(p, i), offset, n);
  }

  lemma ResiduesDiffer(k: nat, o1: nat, o2: nat, n: nat)
    requires o1 < n && o2 < n && o1 != o2
    ensures Residue(k, o1, n) != Residue(k, o2, n)
  {
    assert k + o1 == o1 + k && k + o2 == o2 + k;
    if (o1 + k) % n == (o2 + k) % n {
      SameResidue(o1, o2, k, n);
    }
  }

  /** Different offsets below n give every item different values, so no witness is asked twice. */
  lemma OffsetsDiffer(p: Partition, n: nat, o1: nat, o2: nat, i: nat)
    requires |p.items| == |p.blocks| && NoDuplicates(p.items) && i < |p.items|
    requires WitnessValues(p, n, o1).Some? && WitnessValues(p, n, o2).Some? && o1 < n && o2 < n && o1 != o2
    ensures p.items[i] in WitnessValues(p, n, o1).value && p.items[i] in WitnessValues(p, n, o2).value
    ensures WitnessValues(p, n, o1).value[p.items[i]] != WitnessValues(p, n, o2).value[p.items[i]]
  {
    ValueOfItem(p, n, o1, i);
    ValueOfItem(p, n, o2, i);
    ResiduesDiffer(Rank(p, i), o1, o2, n);
  }
}
