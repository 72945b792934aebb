/** The path-halving union-find whose root is the lesser key, and the partition it stands for. */
module UnionFinds {
  import opened Orders

  type Parents = map<string, string>

  /** Each key to the least key of its class: what the forest means. */
  type Roots = map<string, string>

  predicate AtMost(a: string, b: string)
  {
    a == b || StrLess(a, b)
  }

  ghost predicate Parented(p: Parents, k: string)
    requires k in p
  {
    p[k] in p && AtMost(p[k], k)
  }

  /** Parents are keys, and a parent that is not the key itself is smaller. */
  ghost predicate Forest(p: Parents)
  {
    forall k {:trigger Parented(p, k)} :: k in p ==> Parented(p, k)
  }

  ghost function Below(keys: set<string>, x: string): set<string>
  {
    set k | k in keys && StrLess(k, x)
  }

  lemma BelowShrinks(keys: set<string>, x: string, y: string)
    requires y in keys && StrLess(y, x)
    ensures Below(keys, y) < Below(keys, x)
  {
    StrIrreflexive(y);
    forall k | k in Below(keys, y) ensures k in Below(keys, x) {
      StrTransitive(k, y, x);
    }
    assert y in Below(keys, x) && y !in Below(keys, y);
  }

  /** Following parents to the end; it ends because parents are smaller. */
  ghost function Root(p: Parents, x: string): string
    requires Forest(p) && x in p
    decreases Below(p.Keys, x)
  {
    assert Parented(p, x);
    if p[x] == x then x
    else
      BelowShrinks(p.Keys, x, p[x]);
      Root(p, p[x])
  }

  lemma {:induction false} RootFacts(p: Parents, x: string)
    requires Forest(p) && x in p
    ensures var r := Root(p, x); r in p && p[r] == r && AtMost(r, x)
    decreases Below(p.Keys, x)
  {
    assert Parented(p, x);
    if p[x] == x {
    } else {
      BelowShrinks(p.Keys, x, p[x]);
      RootFacts(p, p[x]);
      if Root(p, x) != p[x] {
        StrTransitive(Root(p, x), p[x], x);
      }
    }
  }

  ghost function RootsOf(p: Parents): (r: Roots)
    requires Forest(p)
    ensures r.Keys == p.Keys
    ensures forall k {:trigger r[k]} :: k in p ==> r[k] == Root(p, k)
  {
    map k | k in p :: Root(p, k)
  }

  ghost predicate Rooted(r: Roots, k: string)
    requires k in r
  {
    r[k] in r && r[r[k]] == r[k] && AtMost(r[k], k)
  }

  /** A root map: idempotent, inside the keys, never above the key. */
  ghost predicate ValidRoots(r: Roots)
  {
    forall k {:trigger Rooted(r, k)} :: k in r ==> Rooted(r, k)
  }

  lemma RootsOfValid(p: Parents)
    requires Forest(p)
    ensures ValidRoots(RootsOf(p))
  {
    var r := RootsOf(p);
    forall k | k in r ensures Rooted(r, k) {
      RootFacts(p, k);
    }
  }

  /** Every root is the least key of its class. */
  lemma RootIsLeast(r: Roots, a: string, b: string)
    requires ValidRoots(r) && a in r && b in r && r[a] == r[b]
    ensures AtMost(r[a], b)
  {
    assert Rooted(r, b);
  }

  /** The root map is determined by the partition: whatever the forest looks like and
      in whatever order it was built, equal partitions give equal (key, root) lists. */
  lemma PartitionDeterminesRoots(r: Roots, q: Roots)
    requires ValidRoots(r) && ValidRoots(q) && r.Keys == q.Keys
    requires forall a, b :: a in r && b in r ==> (r[a] == r[b] <==> q[a] == q[b])
    ensures r == q
  {
    forall k | k in r ensures r[k] == q[k] {
      assert Rooted(r, k) && Rooted(q, k);
      assert q[r[k]] == q[k] && r[q[k]] == r[k];
      assert Rooted(q, r[k]) && Rooted(r, q[k]);
      if r[k] != q[k] {
        StrAsymmetric(q[k], r[k]);
      }
    }
  }

  /** A root of a shorter path is the root of the path. */
  lemma RootOfParent(p: Parents, x: string)
    requires Forest(p) && x in p
    ensures Parented(p, x) && Root(p, x) == Root(p, p[x])
  {
    assert Parented(p, x);
  }

  lemma HalvingIsForest(p: Parents, x: string)
    requires Forest(p) && x in p
    ensures Parented(p, x) && Parented(p, p[x]) && AtMost(p[p[x]], x)
    ensures Forest(p[x := p[p[x]]]) && p[x := p[p[x]]].Keys == p.Keys
  {
    assert Parented(p, x) && Parented(p, p[x]);
    if p[x] != x && p[p[x]] != p[x] {
      StrTransitive(p[p[x]], p[x], x);
    }
    var q := p[x := p[p[x]]];
    forall k | k in q ensures Parented(q, k) {
      assert Parented(p, k);
    }
  }

  /** One step of path halving changes no root. */
  lemma {:induction false} HalvingKeepsRoots(p: Parents, x: string, k: string)
    requires Forest(p) && x in p && k in p
    ensures Parented(p, x) && Parented(p, p[x]) && Forest(p[x := p[p[x]]])
    ensures Root(p[x := p[p[x]]], k) == Root(p, k)
    decreases Below(p.Keys, k)
  {
    HalvingIsForest(p, x);
    var q := p[x := p[p[x]]];
    RootOfParent(p, k);
    RootOfParent(q, k);
    if q[k] != k {
      BelowShrinks(p.Keys, k, q[k]);
      HalvingKeepsRoots(p, x, q[k]);
      if k == x {
        RootOfParent(p, p[x]);
      }
    } else if k == x && p[x] != x {
      assert StrLess(p[x], x);
      StrAsymmetric(p[x], x);
    }
  }

  lemma LinkIsForest(p: Parents, lo: string, hi: string)
    requires Forest(p) && lo in p && hi in p && AtMost(lo, hi)
    ensures Forest(p[hi := lo]) && p[hi := lo].Keys == p.Keys
  {
    var q := p[hi := lo];
    forall k | k in q ensures Parented(q, k) {
      assert Parented(p, k);
    }
  }

  /** Hanging one root below a smaller one moves exactly that root's class. */
  lemma {:induction false} LinkMovesClass(p: Parents, lo: string, hi: string, k: string)
    requires Forest(p) && lo in p && hi in p && k in p
    requires p[lo] == lo && p[hi] == hi && StrLess(lo, hi)
    ensures Forest(p[hi := lo])
    ensures Root(p[hi := lo], k) == if Root(p, k) == hi then lo else Root(p, k)
    decreases Below(p.Keys, k)
  {
    LinkIsForest(p, lo, hi);
    var q := p[hi := lo];
    StrAsymmetric(lo, hi);
    RootOfParent(p, k);
    RootOfParent(q, k);
    if p[k] == k {
    } else {
      BelowShrinks(p.Keys, k, p[k]);
      LinkMovesClass(p, lo, hi, p[k]);
    }
  }

  function Lesser(a: string, b: string): string
  {
    if StrLess(b, a) then b else a
  }

  function Greater(a: string, b: string): string
  {
    if StrLess(b, a) then a else b
  }

  ghost function Relabel(r: Roots, hi: string, lo: string): (q: Roots)
    ensures q.Keys == r.Keys
  {
    map k | k in r :: if r[k] == hi then lo else r[k]
  }

  /** The root map after a union of two known keys. */
  ghost function Merge(r: Roots, a: string, b: string): (q: Roots)
    requires a in r && b in r
    ensures q.Keys == r.Keys
  {
    Relabel(r, Greater(r[a], r[b]), Lesser(r[a], r[b]))
  }

  lemma LesserBelow(a: string, b: string)
    ensures AtMost(Lesser(a, b), Greater(a, b))
    ensures (Lesser(a, b) == a && Greater(a, b) == b) || (Lesser(a, b) == b && Greater(a, b) == a)
  {
    if a != b && !StrLess(b, a) {
      StrConnected(a, b);
    }
  }

  lemma MergeValid(r: Roots, a: string, b: string)
    requires ValidRoots(r) && a in r && b in r
    ensures ValidRoots(Merge(r, a, b))
  {
    var q := Merge(r, a, b);
    var lo, hi := Lesser(r[a], r[b]), Greater(r[a], r[b]);
    LesserBelow(r[a], r[b]);
    assert Rooted(r, a) && Rooted(r, b);
    forall k | k in q ensures Rooted(q, k) {
      assert Rooted(r, k);
      if r[k] == hi {
        assert q[lo] == lo;
        if lo != hi && hi != k {
          StrTransitive(lo, hi, k);
        }
      }
    }
  }

  /** What a union does to the partition: the two classes become one, nothing else changes. */
  lemma MergeJoins(r: Roots, a: string, b: string, x: string, y: string)
    requires a in r && b in r && x in r && y in r
    ensures Merge(r, a, b)[x] == Merge(r, a, b)[y] <==>
            r[x] == r[y] || (r[x] == r[a] && r[y] == r[b]) || (r[x] == r[b] && r[y] == r[a])
  {
    LesserBelow(r[a], r[b]);
  }

  lemma MergeSame(r: Roots, a: string, b: string)
    requires a in r && b in r && r[a] == r[b]
    ensures Merge(r, a, b) == r
  {
  }

  /** The class representatives; their number is the number of classes. */
  ghost function Reps(r: Roots): set<string>
  {
    set k | k in r && r[k] == k
  }

  /** A union that returns True lowers the class count by exactly one. */
  lemma MergeCounts(r: Roots, a: string, b: string)
    requires ValidRoots(r) && a in r && b in r && r[a] != r[b]
    ensures |Reps(Merge(r, a, b))| == |Reps(r)| - 1
  {
    LesserBelow(r[a], r[b]);
    var hi := Greater(r[a], r[b]);
    assert Rooted(r, a) && Rooted(r, b);
    assert hi in Reps(r);
    assert Reps(Merge(r, a, b)) == Reps(r) - {hi};
  }

  ghost function AddKey(r: Roots, x: string): Roots
  {
    if x in r then r else r[x := x]
  }

  lemma {:induction false} NewKeyKeepsRoots(p: Parents, x: string, k: string)
    requires Forest(p) && x !in p && k in p && Forest(p[x := x])
    ensures Root(p[x := x], k) == Root(p, k)
    decreases Below(p.Keys, k)
  {
    RootOfParent(p, k);
    RootOfParent(p[x := x], k);
    if p[k] == k {
    } else {
      BelowShrinks(p.Keys, k, p[k]);
      NewKeyKeepsRoots(p, x, p[k]);
    }
  }

  lemma AddKeyClasses(p: Parents, x: string)
    requires Forest(p) && x !in p
    ensures Forest(p[x := x])
    ensures RootsOf(p[x := x]) == AddKey(RootsOf(p), x)
  {
    var q := p[x := x];
    forall k | k in q ensures Parented(q, k) {
      if k in p { assert Parented(p, k); }
    }
    forall k | k in q ensures RootsOf(q)[k] == AddKey(RootsOf(p), x)[k] {
      if k in p { NewKeyKeepsRoots(p, x, k); }
    }
  }

  /** A halving step keeps the forest and its classes, and steps to a smaller key. */
  lemma HalvingStep(p: Parents, x: string)
    requires Forest(p) && x in p && p[x] != x
    ensures Parented(p, x) && p[p[x]] in p
    ensures Forest(p[x := p[p[x]]]) && p[x := p[p[x]]].Keys == p.Keys
    ensures RootsOf(p[x := p[p[x]]]) == RootsOf(p)
    ensures Root(p, p[p[x]]) == Root(p, x)
    ensures Below(p.Keys, p[p[x]]) < Below(p.Keys, x)
  {
    HalvingIsForest(p, x);
    if p[p[x]] == x {
      StrAsymmetric(p[x], x);
    }
    BelowShrinks(p.Keys, x, p[p[x]]);
    var q := p[x := p[p[x]]];
    forall k | k in p ensures Root(q, k) == Root(p, k) {
      HalvingKeepsRoots(p, x, k);
    }
    RootOfParent(p, x);
    RootOfParent(p, p[x]);
  }

  lemma LinkStep(p: Parents, lo: string, hi: string)
    requires Forest(p) && lo in p && hi in p
    requires p[lo] == lo && p[hi] == hi && StrLess(lo, hi)
    ensures Forest(p[hi := lo])
    ensures RootsOf(p[hi := lo]) == Relabel(RootsOf(p), hi, lo)
  {
    LinkIsForest(p, lo, hi);
    var s, t := RootsOf(p[hi := lo]), Relabel(RootsOf(p), hi, lo);
    assert s.Keys == t.Keys;
    forall k {:trigger s[k]} {:trigger t[k]} | k in s ensures s[k] == t[k] {
      LinkMovesClass(p, lo, hi, k);
    }
  }

  class UnionFind {
    var parent: Parents

    ghost predicate Valid()
      reads this
    {
      Forest(parent)
    }

    ghost function Classes(): Roots
      reads this
      requires Valid()
    {
      RootsOf(parent)
    }

    constructor (items: seq<string>)
      ensures Valid()
      ensures forall x :: x in parent <==> x in items
      ensures forall x :: x in items ==> Classes()[x] == x
    {
      parent := map x | x in items :: x;
    }

    method Find(key: string) returns (r: string)
      requires Valid()
      modifies this
      ensures Valid()
      ensures Classes() == AddKey(old(Classes()), key)
      ensures r == Classes()[key]
      ensures ValidRoots(Classes()) && forall k :: k in Classes() && Classes()[k] == r ==> AtMost(r, k)
    {
      var x := key;
      if x !in parent {
        AddKeyClasses(parent, x);
        parent := parent[x := x];
      }
      ghost var classes := Classes();
      while parent[x] != x
        invariant Valid() && x in parent
        invariant Classes() == classes
        invariant Root(parent, x) == classes[key]
        decreases Below(parent.Keys, x)
      {
        HalvingStep(parent, x);
        ghost var next := parent[parent[x]];
        ghost var before := parent;
        parent := parent[x := parent[parent[x]]];
        x := parent[x];
        assert x == next;
        assert Root(parent, x) == RootsOf(parent)[x] == RootsOf(before)[x] == Root(before, x);
      }
      r := x;
      RootsOfValid(parent);
      forall k | k in Classes() && Classes()[k] == r ensures AtMost(r, k) {
        RootIsLeast(Classes(), key, k);
      }
    }

    method Union(a: string, b: string) returns (merged: bool)
      requires Valid()
      modifies this
      ensures Valid()
      ensures var before := AddKey(AddKey(old(Classes()), a), b);
              Classes() == Merge(before, a, b) && (merged <==> before[a] != before[b])
    {
      var ra := Find(a);
      var rb := Find(b);
      ghost var before := Classes();
      if ra == rb {
        MergeSame(before, a, b);
        return false;
      }
      LesserBelow(ra, rb);
      RootFacts(parent, a);
      RootFacts(parent, b);
      assert ra == Root(parent, a) && rb == Root(parent, b);
      if StrLess(rb, ra) {
        ra, rb := rb, ra;
      }
      LinkStep(parent, ra, rb);
      parent := parent[rb := ra];
      merged := true;
    }
  }

  // ------------------------------------------------ runs of finds and unions

  datatype Call = FindCall(x: string) | UnionCall(a: string, b: string)

  ghost function After(r: Roots, c: Call): Roots
  {
    match c
    case FindCall(x) => AddKey(r, x)
    case UnionCall(a, b) => Merge(AddKey(AddKey(r, a), b), a, b)
  }

  ghost function Run(r: Roots, calls: seq<Call>): Roots
  {
    if calls == [] then r else After(Run(r, calls[..|calls| - 1]), calls[|calls| - 1])
  }

  /** `R` is an equivalence on `keys`. */
  ghost predicate Equivalence(keys: set<string>, R: set<(string, string)>)
  {
    && (forall a :: a in keys ==> (a, a) in R)
    && (forall a, b :: (a, b) in R ==> a in keys && b in keys && (b, a) in R)
    && (forall a, b, c :: (a, b) in R && (b, c) in R ==> (a, c) in R)
  }

  ghost predicate JoinsAll(calls: seq<Call>, R: set<(string, string)>)
  {
    forall i :: 0 <= i < |calls| && calls[i].UnionCall? ==> (calls[i].a, calls[i].b) in R
  }

  ghost predicate KnowsCall(keys: set<string>, c: Call)
  {
    match c
    case FindCall(x) => x in keys
    case UnionCall(a, b) => a in keys && b in keys
  }

  ghost predicate Knows(keys: set<string>, calls: seq<Call>)
  {
    forall i :: 0 <= i < |calls| ==> KnowsCall(keys, calls[i])
  }

  /** The pairs the root map identifies. */
  ghost function SameClass(r: Roots): set<(string, string)>
  {
    set a, b | a in r && b in r && r[a] == r[b] :: (a, b)
  }

  lemma SameClassIsEquivalence(r: Roots)
    ensures Equivalence(r.Keys, SameClass(r))
  {
  }

  ghost predicate Fresh(r: Roots)
  {
    forall k :: k in r ==> r[k] == k
  }

  lemma {:induction false} RunValid(r: Roots, calls: seq<Call>)
    requires ValidRoots(r) && Knows(r.Keys, calls)
    ensures Run(r, calls).Keys == r.Keys && ValidRoots(Run(r, calls))
  {
    if calls == [] {
    } else {
      var n := |calls| - 1;
      RunValid(r, calls[..n]);
      assert Knows(r.Keys, calls[..n]);
      if calls[n].UnionCall? {
        MergeValid(Run(r, calls[..n]), calls[n].a, calls[n].b);
      }
    }
  }

  lemma AfterKeeps(q: Roots, last: Call, a: string, b: string)
    requires KnowsCall(q.Keys, last) && a in q && b in q
    requires q[a] == q[b] || last == UnionCall(a, b)
    ensures After(q, last).Keys == q.Keys && (a, b) in SameClass(After(q, last))
  {
    if last.UnionCall? {
      MergeJoins(q, last.a, last.b, a, b);
    }
  }

  lemma RunLast(r: Roots, calls: seq<Call>)
    requires calls != []
    ensures Run(r, calls) == After(Run(r, calls[..|calls| - 1]), calls[|calls| - 1])
  {
  }

  lemma {:induction false} RunJoins(r: Roots, calls: seq<Call>, i: nat)
    requires ValidRoots(r) && Knows(r.Keys, calls)
    requires i < |calls| && calls[i].UnionCall?
    ensures calls[i].a in r && calls[i].b in r
    ensures (calls[i].a, calls[i].b) in SameClass(Run(r, calls))
  {
    var n := |calls| - 1;
    var init := calls[..n];
    assert Knows(r.Keys, init);
    RunValid(r, init);
    var q := Run(r, init);
    var a, b := calls[i].a, calls[i].b;
    assert KnowsCall(r.Keys, calls[i]) && KnowsCall(r.Keys, calls[n]);
    if i < n {
      assert init[i] == calls[i];
      RunJoins(r, init, i);
      assert (a, b) in SameClass(q) && q[a] == q[b];
    } else {
      assert calls[n] == UnionCall(a, b);
    }
    AfterKeeps(q, calls[n], a, b);
    RunLast(r, calls);
  }

  lemma Chain(keys: set<string>, R: set<(string, string)>, a: string, b: string, c: string, d: string)
    requires Equivalence(keys, R) && (a, b) in R && (b, c) in R && (c, d) in R
    ensures (a, d) in R
  {
    assert (a, c) in R;
  }

  lemma LastCallStaysInside(q: Roots, last: Call, R: set<(string, string)>)
    requires KnowsCall(q.Keys, last) && (last.UnionCall? ==> (last.a, last.b) in R)
    requires Equivalence(q.Keys, R) && SameClass(q) <= R
    ensures SameClass(After(q, last)) <= R
  {
    if last.UnionCall? {
      var a, b := last.a, last.b;
      forall x, y | (x, y) in SameClass(After(q, last))
        ensures (x, y) in R
      {
        MergeJoins(q, a, b, x, y);
        if q[x] == q[y] {
          assert (x, y) in SameClass(q);
        } else if q[x] == q[a] {
          assert (x, a) in SameClass(q) && (b, y) in SameClass(q);
          Chain(q.Keys, R, x, a, b, y);
        } else {
          assert (x, b) in SameClass(q) && (a, y) in SameClass(q);
          Chain(q.Keys, R, x, b, a, y);
        }
      }
    }
  }

  lemma {:induction false} RunInside(r: Roots, calls: seq<Call>, R: set<(string, string)>)
    requires Fresh(r) && Knows(r.Keys, calls)
    requires Equivalence(r.Keys, R) && JoinsAll(calls, R)
    ensures SameClass(Run(r, calls)) <= R
  {
    if calls == [] {
    } else {
      var n := |calls| - 1;
      assert Knows(r.Keys, calls[..n]) && JoinsAll(calls[..n], R);
      RunInside(r, calls[..n], R);
      RunValid(r, calls[..n]);
      LastCallStaysInside(Run(r, calls[..n]), calls[n], R);
    }
  }

  /** After any interleaving of finds and unions from singletons, the classes are the least
      equivalence that joins the arguments of every union. */
  lemma RunIsLeastEquivalence(r: Roots, calls: seq<Call>)
    requires Fresh(r) && Knows(r.Keys, calls)
    ensures Run(r, calls).Keys == r.Keys && ValidRoots(Run(r, calls))
    ensures Equivalence(r.Keys, SameClass(Run(r, calls))) && JoinsAll(calls, SameClass(Run(r, calls)))
    ensures forall R :: Equivalence(r.Keys, R) && JoinsAll(calls, R) ==> SameClass(Run(r, calls)) <= R
  {
    RunValid(r, calls);
    SameClassIsEquivalence(Run(r, calls));
    forall i | 0 <= i < |calls| && calls[i].UnionCall?
      ensures (calls[i].a, calls[i].b) in SameClass(Run(r, calls))
    {
      RunJoins(r, calls, i);
    }
    forall R | Equivalence(r.Keys, R) && JoinsAll(calls, R) ensures SameClass(Run(r, calls)) <= R {
      RunInside(r, calls, R);
    }
  }

  ghost predicate SameUnions(calls: seq<Call>, others: seq<Call>)
  {
    forall a, b :: UnionCall(a, b) in calls <==> UnionCall(a, b) in others
  }

  lemma JoinsSame(calls: seq<Call>, others: seq<Call>, R: set<(string, string)>)
    requires SameUnions(calls, others) && JoinsAll(others, R)
    ensures JoinsAll(calls, R)
  {
    forall i | 0 <= i < |calls| && calls[i].UnionCall? ensures (calls[i].a, calls[i].b) in R {
      assert UnionCall(calls[i].a, calls[i].b) in calls;
    }
  }

  /** Union order is irrelevant: runs that join the same pairs end with the same root map. */
  lemma UnionOrderIrrelevant(r: Roots, calls: seq<Call>, others: seq<Call>)
    requires Fresh(r) && Knows(r.Keys, calls) && Knows(r.Keys, others)
    requires SameUnions(calls, others)
    ensures Run(r, calls) == Run(r, others)
  {
    RunIsLeastEquivalence(r, calls);
    RunIsLeastEquivalence(r, others);
    var q, s := Run(r, calls), Run(r, others);
    JoinsSame(calls, others, SameClass(s));
    JoinsSame(others, calls, SameClass(q));
    assert SameClass(q) == SameClass(s);
    forall a, b | a in q && b in q ensures q[a] == q[b] <==> s[a] == s[b] {
      assert q[a] == q[b] <==> (a, b) in SameClass(q);
      assert s[a] == s[b] <==> (a, b) in SameClass(s);
    }
    PartitionDeterminesRoots(q, s);
  }
}
