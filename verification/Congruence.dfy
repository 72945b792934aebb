/** Saturation of a union-find under congruence, over string keys: the `while changed` loop, the states
    it goes through, and the least congruence it computes. */
module Congruence {
  import opened UnionFinds

  /** One operation of the index: the keys of its two sides and its own key. */
  datatype Entry = Entry(a: string, b: string, parent: string)

  type Pair = (string, string)

  datatype System = System(keys: set<string>, base: seq<Pair>, entries: seq<Entry>)

  ghost predicate KnownEntry(keys: set<string>, e: Entry)
  {
    e.a in keys && e.b in keys && e.parent in keys
  }

  ghost predicate WellKeyed(sys: System)
  {
    && (forall i :: 0 <= i < |sys.entries| ==> KnownEntry(sys.keys, sys.entries[i]))
    && (forall i :: 0 <= i < |sys.base| ==> sys.base[i].0 in sys.keys && sys.base[i].1 in sys.keys)
  }

  ghost predicate Contains(R: set<Pair>, base: seq<Pair>)
  {
    forall i :: 0 <= i < |base| ==> base[i] in R
  }

  ghost predicate Respects(R: set<Pair>, e: Entry, f: Entry)
  {
    (e.a, f.a) in R && (e.b, f.b) in R ==> (e.parent, f.parent) in R
  }

  ghost predicate ClosedUnder(R: set<Pair>, entries: seq<Entry>)
  {
    forall i, j :: 0 <= i < |entries| && 0 <= j < |entries| ==> Respects(R, entries[i], entries[j])
  }

  /** An equivalence on the keys that contains the base and is closed under the operation. */
  ghost predicate Congruent(sys: System, R: set<Pair>)
  {
    Equivalence(sys.keys, R) && Contains(R, sys.base) && ClosedUnder(R, sys.entries)
  }

  ghost predicate InEvery(sys: System, p: Pair)
  {
    forall R :: Congruent(sys, R) ==> p in R
  }

  /** The pairs that lie in every congruence. */
  ghost function Least(sys: System): set<Pair>
  {
    set a, b | a in sys.keys && b in sys.keys && InEvery(sys, (a, b)) :: (a, b)
  }

  lemma LeastRespects(sys: System, i: nat, j: nat)
    requires WellKeyed(sys) && i < |sys.entries| && j < |sys.entries|
    ensures Respects(Least(sys), sys.entries[i], sys.entries[j])
  {
    var e, f := sys.entries[i], sys.entries[j];
    assert KnownEntry(sys.keys, e) && KnownEntry(sys.keys, f);
    if (e.a, f.a) in Least(sys) && (e.b, f.b) in Least(sys) {
      assert InEvery(sys, (e.a, f.a)) && InEvery(sys, (e.b, f.b));
      forall R | Congruent(sys, R) ensures (e.parent, f.parent) in R {
        assert Respects(R, e, f);
      }
      assert InEvery(sys, (e.parent, f.parent));
    }
  }

  lemma LeastIsCongruent(sys: System)
    requires WellKeyed(sys)
    ensures Congruent(sys, Least(sys))
  {
    var L := Least(sys);
    forall a | a in sys.keys ensures (a, a) in L {
    }
    forall a, b | (a, b) in L ensures (b, a) in L {
      assert InEvery(sys, (a, b));
      forall R | Congruent(sys, R) ensures (b, a) in R { assert (a, b) in R; }
      assert InEvery(sys, (b, a));
    }
    forall a, b, c | (a, b) in L && (b, c) in L ensures (a, c) in L {
      assert InEvery(sys, (a, b)) && InEvery(sys, (b, c));
      forall R | Congruent(sys, R) ensures (a, c) in R { assert (a, b) in R && (b, c) in R; }
      assert InEvery(sys, (a, c));
    }
    forall i | 0 <= i < |sys.base| ensures sys.base[i] in L {
      forall R | Congruent(sys, R) ensures sys.base[i] in R {}
      assert InEvery(sys, sys.base[i]);
    }
    forall i, j | 0 <= i < |sys.entries| && 0 <= j < |sys.entries|
      ensures Respects(L, sys.entries[i], sys.entries[j])
    {
      LeastRespects(sys, i, j);
    }
  }

  /** The classes only identify what every congruence identifies. */
  ghost predicate Justified(r: Roots, sys: System)
  {
    ValidRoots(r) && r.Keys == sys.keys && SameClass(r) <= Least(sys)
  }

  lemma MergeJustified(r: Roots, a: string, b: string, sys: System)
    requires WellKeyed(sys) && Justified(r, sys) && (a, b) in Least(sys)
    ensures Justified(Merge(r, a, b), sys)
    ensures SameClass(r) <= SameClass(Merge(r, a, b))
    ensures (a, b) in SameClass(Merge(r, a, b))
  {
    LeastIsCongruent(sys);
    var c := UnionCall(a, b);
    assert After(r, c) == Merge(r, a, b);
    LastCallStaysInside(r, c, Least(sys));
    MergeValid(r, a, b);
    forall x, y | (x, y) in SameClass(r) ensures (x, y) in SameClass(Merge(r, a, b)) {
      AfterKeeps(r, c, x, y);
    }
    AfterKeeps(r, c, a, b);
  }

  lemma FreshJustified(r: Roots, sys: System)
    requires WellKeyed(sys) && Fresh(r) && r.Keys == sys.keys
    ensures Justified(r, sys) && |Reps(r)| == |sys.keys|
  {
    forall k | k in r ensures Rooted(r, k) {}
    LeastIsCongruent(sys);
    assert Reps(r) == sys.keys;
  }

  lemma RootRelated(r: Roots, sys: System, k: string)
    requires WellKeyed(sys) && Justified(r, sys) && k in r
    ensures (k, r[k]) in Least(sys) && (r[k], k) in Least(sys)
  {
    assert Rooted(r, k);
    assert (k, r[k]) in SameClass(r) && (r[k], k) in SameClass(r);
  }

  /** Two entries whose sides were each related to one signature have related parents. */
  lemma SameSignature(sys: System, i: nat, j: nat, sa: string, sb: string)
    requires WellKeyed(sys) && i < |sys.entries| && j < |sys.entries|
    requires (sys.entries[i].a, sa) in Least(sys) && (sys.entries[i].b, sb) in Least(sys)
    requires (sys.entries[j].a, sa) in Least(sys) && (sys.entries[j].b, sb) in Least(sys)
    ensures (sys.entries[i].parent, sys.entries[j].parent) in Least(sys)
  {
    LeastIsCongruent(sys);
    var L, e, f := Least(sys), sys.entries[i], sys.entries[j];
    assert (sa, f.a) in L && (sb, f.b) in L;
    assert (e.a, f.a) in L && (e.b, f.b) in L;
    assert Respects(L, e, f);
  }

  ghost predicate Owned(sys: System, sig: Pair, parent: string, j: nat)
  {
    && j < |sys.entries| && sys.entries[j].parent == parent
    && (sys.entries[j].a, sig.0) in Least(sys) && (sys.entries[j].b, sig.1) in Least(sys)
  }

  type Buckets = map<Pair, string>

  /** What the buckets of a round remember: a signature maps to the parent of an entry
      whose sides are related to it. */
  ghost predicate BucketsJustified(sys: System, buckets: Buckets, owner: map<Pair, nat>)
  {
    buckets.Keys == owner.Keys &&
    forall sig :: sig in buckets ==> Owned(sys, sig, buckets[sig], owner[sig])
  }

  ghost predicate CoveredEntry(r: Roots, e: Entry, buckets: Buckets)
    requires KnownEntry(r.Keys, e)
  {
    var sig := (r[e.a], r[e.b]);
    sig in buckets && buckets[sig] in r && r[buckets[sig]] == r[e.parent]
  }

  /** The first `n` entries have a bucket for their signature, with a parent of the same class. */
  ghost predicate Covered(r: Roots, entries: seq<Entry>, n: nat, buckets: Buckets)
    requires n <= |entries| && forall i :: 0 <= i < |entries| ==> KnownEntry(r.Keys, entries[i])
  {
    forall i :: 0 <= i < n ==> CoveredEntry(r, entries[i], buckets)
  }

  lemma CoveredIsClosed(r: Roots, entries: seq<Entry>, buckets: Buckets)
    requires forall i :: 0 <= i < |entries| ==> KnownEntry(r.Keys, entries[i])
    requires Covered(r, entries, |entries|, buckets)
    ensures ClosedUnder(SameClass(r), entries)
  {
    forall i, j | 0 <= i < |entries| && 0 <= j < |entries|
      ensures Respects(SameClass(r), entries[i], entries[j])
    {
      assert CoveredEntry(r, entries[i], buckets) && CoveredEntry(r, entries[j], buckets);
    }
  }

  /** A union of two related keys keeps the classes justified and counts itself. */
  method UnionRelated(uf: UnionFind, a: string, b: string, ghost sys: System) returns (merged: bool)
    requires uf.Valid() && WellKeyed(sys) && Justified(uf.Classes(), sys) && (a, b) in Least(sys)
    modifies uf
    ensures uf.Valid() && Justified(uf.Classes(), sys)
    ensures SameClass(old(uf.Classes())) <= SameClass(uf.Classes()) && (a, b) in SameClass(uf.Classes())
    ensures |Reps(uf.Classes())| + (if merged then 1 else 0) == |Reps(old(uf.Classes()))|
    ensures !merged ==> uf.Classes() == old(uf.Classes())
    ensures a in old(uf.Classes()) && b in old(uf.Classes()) && uf.Classes() == Merge(old(uf.Classes()), a, b)
    ensures merged <==> uf.Classes() != old(uf.Classes())
  {
    ghost var r := uf.Classes();
    MergeJustified(r, a, b, sys);
    if r[a] == r[b] {
      MergeSame(r, a, b);
    } else {
      MergeCounts(r, a, b);
    }
    merged := uf.Union(a, b);
  }

  lemma BucketAdded(sys: System, buckets: Buckets, owner: map<Pair, nat>, sig: Pair, i: nat)
    requires BucketsJustified(sys, buckets, owner) && i < |sys.entries|
    requires Owned(sys, sig, sys.entries[i].parent, i)
    ensures BucketsJustified(sys, buckets[sig := sys.entries[i].parent], owner[sig := i])
  {
  }

  /** The entry just visited found its bucket, or made it. */
  lemma CoveredGrows(r: Roots, entries: seq<Entry>, n: nat, buckets: Buckets, buckets': Buckets)
    requires n < |entries| && forall i :: 0 <= i < |entries| ==> KnownEntry(r.Keys, entries[i])
    requires Covered(r, entries, n, buckets) && CoveredEntry(r, entries[n], buckets')
    requires forall sig :: sig in buckets ==> sig in buckets' && buckets'[sig] == buckets[sig]
    ensures Covered(r, entries, n + 1, buckets')
  {
    forall i | 0 <= i < n ensures CoveredEntry(r, entries[i], buckets') {
      assert CoveredEntry(r, entries[i], buckets);
    }
  }

  /** What a round has done before it visits entry `i`. */
  ghost predicate RoundState(sys: System, start: Roots, now: Roots, i: nat, buckets: Buckets, owner: map<Pair, nat>, unions: nat)
  {
    && WellKeyed(sys) && i <= |sys.entries| && start.Keys == sys.keys
    && Justified(now, sys)
    && SameClass(start) <= SameClass(now)
    && |Reps(now)| + unions == |Reps(start)|
    && BucketsJustified(sys, buckets, owner)
    && (unions == 0 ==> now == start && Covered(start, sys.entries, i, buckets))
  }

  /** A round in progress: the classes and the buckets. */
  datatype Step = Step(r: Roots, buckets: Buckets)

  ghost predicate BucketsKnown(keys: set<string>, buckets: Buckets)
  {
    forall sig :: sig in buckets ==> buckets[sig] in keys
  }

  /** What visiting one entry does. */
  ghost function VisitOf(st: Step, e: Entry): (next: Step)
    requires KnownEntry(st.r.Keys, e) && BucketsKnown(st.r.Keys, st.buckets)
    ensures next.r.Keys == st.r.Keys && BucketsKnown(next.r.Keys, next.buckets)
  {
    var sig := (st.r[e.a], st.r[e.b]);
    if sig in st.buckets then Step(Merge(st.r, e.parent, st.buckets[sig]), st.buckets)
    else Step(st.r, st.buckets[sig := e.parent])
  }

  ghost predicate IsStep(st: Step, e: Entry, next: Step)
  {
    KnownEntry(st.r.Keys, e) && BucketsKnown(st.r.Keys, st.buckets) && next == VisitOf(st, e)
  }

  /** The states of a round, before each visit and at the end; the classes stay justified. */
  ghost predicate Trace(sys: System, start: Roots, steps: seq<Step>)
  {
    && 0 < |steps| <= |sys.entries| + 1 && steps[0] == Step(start, map[])
    && (forall k :: 0 <= k < |steps| ==> Justified(steps[k].r, sys))
    && forall k :: 0 <= k < |steps| - 1 ==> IsStep(steps[k], sys.entries[k], steps[k + 1])
  }

  /** One round leads from the one root map to the other. */
  ghost predicate RoundFrom(sys: System, start: Roots, after: Roots)
  {
    exists steps: seq<Step> :: Trace(sys, start, steps) && |steps| == |sys.entries| + 1 && steps[|sys.entries|].r == after
  }

  lemma TraceGrows(sys: System, start: Roots, steps: seq<Step>, next: Step)
    requires Trace(sys, start, steps) && |steps| <= |sys.entries| && Justified(next.r, sys)
    requires IsStep(steps[|steps| - 1], sys.entries[|steps| - 1], next)
    ensures Trace(sys, start, steps + [next])
  {
    var longer := steps + [next];
    forall k | 0 <= k < |longer| - 1 ensures IsStep(longer[k], sys.entries[k], longer[k + 1]) {
      if k < |steps| - 1 {
        assert IsStep(steps[k], sys.entries[k], steps[k + 1]);
      }
    }
  }

  lemma RoundStarts(sys: System, start: Roots)
    requires WellKeyed(sys) && Justified(start, sys)
    ensures RoundState(sys, start, start, 0, map[], map[], 0)
    ensures Trace(sys, start, [Step(start, map[])])
  {
  }

  /** A bucket that is hit holds the parent of an entry with related sides. */
  lemma HitIsRelated(sys: System, start: Roots, now: Roots, i: nat, buckets: Buckets, owner: map<Pair, nat>, unions: nat)
    requires RoundState(sys, start, now, i, buckets, owner, unions) && i < |sys.entries|
    ensures var e := sys.entries[i];
            && e.a in now && e.b in now
            && ((now[e.a], now[e.b]) in buckets ==> (e.parent, buckets[(now[e.a], now[e.b])]) in Least(sys))
  {
    var e := sys.entries[i];
    assert KnownEntry(sys.keys, e);
    var sig := (now[e.a], now[e.b]);
    if sig in buckets {
      RootRelated(now, sys, e.a);
      RootRelated(now, sys, e.b);
      assert Owned(sys, sig, buckets[sig], owner[sig]);
      SameSignature(sys, i, owner[sig], sig.0, sig.1);
    }
  }

  /** After a hit: the classes of the entry's parent and of the bucket are one. */
  lemma HitAdvances(sys: System, start: Roots, now: Roots, i: nat, buckets: Buckets, owner: map<Pair, nat>, unions: nat,
                    after: Roots, merged: bool)
    requires RoundState(sys, start, now, i, buckets, owner, unions) && i < |sys.entries|
    requires var e := sys.entries[i];
             && e.a in now && e.b in now && (now[e.a], now[e.b]) in buckets
             && (e.parent, buckets[(now[e.a], now[e.b])]) in SameClass(after)
    requires Justified(after, sys) && SameClass(now) <= SameClass(after)
    requires |Reps(after)| + (if merged then 1 else 0) == |Reps(now)| && (!merged ==> after == now)
    ensures RoundState(sys, start, after, i + 1, buckets, owner, unions + if merged then 1 else 0)
  {
    if unions == 0 && !merged {
      CoveredGrows(start, sys.entries, i, buckets, buckets);
    }
  }

  /** After a miss: the entry has its own bucket. */
  lemma MissAdvances(sys: System, start: Roots, now: Roots, i: nat, buckets: Buckets, owner: map<Pair, nat>, unions: nat)
    requires RoundState(sys, start, now, i, buckets, owner, unions) && i < |sys.entries|
    requires var e := sys.entries[i]; e.a in now && e.b in now && (now[e.a], now[e.b]) !in buckets
    ensures var e := sys.entries[i];
            var sig := (now[e.a], now[e.b]);
            RoundState(sys, start, now, i + 1, buckets[sig := e.parent], owner[sig := i], unions)
  {
    var e := sys.entries[i];
    assert KnownEntry(sys.keys, e);
    RootRelated(now, sys, e.a);
    RootRelated(now, sys, e.b);
    var sig := (now[e.a], now[e.b]);
    BucketAdded(sys, buckets, owner, sig, i);
    if unions == 0 {
      CoveredGrows(start, sys.entries, i, buckets, buckets[sig := e.parent]);
    }
  }

  lemma StateIsKnown(sys: System, start: Roots, now: Roots, i: nat, buckets: Buckets, owner: map<Pair, nat>, unions: nat)
    requires RoundState(sys, start, now, i, buckets, owner, unions) && i < |sys.entries|
    ensures KnownEntry(now.Keys, sys.entries[i]) && BucketsKnown(now.Keys, buckets)
  {
    forall sig | sig in buckets ensures buckets[sig] in now.Keys {
      assert Owned(sys, sig, buckets[sig], owner[sig]);
      assert KnownEntry(sys.keys, sys.entries[owner[sig]]);
    }
  }

  /** The loop body of a round: look the signature up, join the parents or fill the bucket. */
  method Visit(uf: UnionFind, e: Entry, buckets: Buckets, unions: nat,
               ghost sys: System, ghost start: Roots, ghost owner: map<Pair, nat>, ghost i: nat)
    returns (buckets': Buckets, unions': nat, ghost owner': map<Pair, nat>)
    requires uf.Valid() && i < |sys.entries| && e == sys.entries[i]
    requires RoundState(sys, start, uf.Classes(), i, buckets, owner, unions)
    modifies uf
    ensures uf.Valid() && RoundState(sys, start, uf.Classes(), i + 1, buckets', owner', unions')
    ensures IsStep(Step(old(uf.Classes()), buckets), e, Step(uf.Classes(), buckets'))
  {
    ghost var now := uf.Classes();
    StateIsKnown(sys, start, now, i, buckets, owner, unions);
    HitIsRelated(sys, start, now, i, buckets, owner, unions);
    var sa := uf.Find(e.a);
    var sb := uf.Find(e.b);
    var sig := (sa, sb);
    buckets', unions', owner' := buckets, unions, owner;
    if sig in buckets {
      var merged := UnionRelated(uf, e.parent, buckets[sig], sys);
      HitAdvances(sys, start, now, i, buckets, owner, unions, uf.Classes(), merged);
      if merged {
        unions' := unions + 1;
      }
    } else {
      MissAdvances(sys, start, now, i, buckets, owner, unions);
      buckets' := buckets[sig := e.parent];
      owner' := owner[sig := i];
    }
  }

  /** A round before visit `i`, with the states it has gone through. */
  ghost predicate InRound(sys: System, start: Roots, now: Roots, i: nat, buckets: Buckets, owner: map<Pair, nat>, unions: nat, steps: seq<Step>)
  {
    && RoundState(sys, start, now, i, buckets, owner, unions)
    && Trace(sys, start, steps) && |steps| == i + 1 && steps[i] == Step(now, buckets)
  }

  lemma InRoundNext(sys: System, start: Roots, now: Roots, i: nat, buckets: Buckets, owner: map<Pair, nat>, unions: nat, steps: seq<Step>,
                    now': Roots, buckets': Buckets, owner': map<Pair, nat>, unions': nat)
    requires InRound(sys, start, now, i, buckets, owner, unions, steps) && i < |sys.entries|
    requires RoundState(sys, start, now', i + 1, buckets', owner', unions')
    requires IsStep(Step(now, buckets), sys.entries[i], Step(now', buckets'))
    ensures InRound(sys, start, now', i + 1, buckets', owner', unions', steps + [Step(now', buckets')])
  {
    TraceGrows(sys, start, steps, Step(now', buckets'));
  }

  lemma InRoundEnds(sys: System, start: Roots, now: Roots, i: nat, buckets: Buckets, owner: map<Pair, nat>, unions: nat, steps: seq<Step>)
    requires InRound(sys, start, now, i, buckets, owner, unions, steps) && i == |sys.entries|
    ensures Justified(now, sys) && SameClass(start) <= SameClass(now) && RoundFrom(sys, start, now)
    ensures |Reps(now)| + unions == |Reps(start)|
    ensures unions == 0 ==> ClosedUnder(SameClass(now), sys.entries)
  {
    if unions == 0 {
      CoveredIsClosed(start, sys.entries, buckets);
    }
  }

  /** One round over the operation index. */
  method Round(uf: UnionFind, entries: seq<Entry>, ghost sys: System) returns (changed: bool, unions: nat)
    requires uf.Valid() && WellKeyed(sys) && entries == sys.entries && Justified(uf.Classes(), sys)
    modifies uf
    ensures uf.Valid() && Justified(uf.Classes(), sys)
    ensures SameClass(old(uf.Classes())) <= SameClass(uf.Classes())
    ensures |Reps(uf.Classes())| + unions == |Reps(old(uf.Classes()))|
    ensures changed <==> unions > 0
    ensures !changed ==> ClosedUnder(SameClass(uf.Classes()), entries)
    ensures RoundFrom(sys, old(uf.Classes()), uf.Classes())
  {
    unions := 0;
    var buckets: Buckets := map[];
    ghost var owner: map<Pair, nat> := map[];
    ghost var start := uf.Classes();
    ghost var steps := [Step(start, map[])];
    RoundStarts(sys, start);
    for i := 0 to |entries|
      invariant uf.Valid() && InRound(sys, start, uf.Classes(), i, buckets, owner, unions, steps)
    {
      ghost var now, b, o, u := uf.Classes(), buckets, owner, unions;
      buckets, unions, owner := Visit(uf, entries[i], buckets, unions, sys, start, owner, i);
      InRoundNext(sys, start, now, i, b, o, u, steps, uf.Classes(), buckets, owner, unions);
      steps := steps + [Step(uf.Classes(), buckets)];
    }
    InRoundEnds(sys, start, uf.Classes(), |entries|, buckets, owner, unions, steps);
    changed := unions > 0;
  }

  lemma StillContains(before: Roots, after: Roots, base: seq<Pair>)
    requires Contains(SameClass(before), base) && SameClass(before) <= SameClass(after)
    ensures Contains(SameClass(after), base)
  {
    forall i | 0 <= i < |base| ensures base[i] in SameClass(after) {
      assert base[i] in SameClass(before);
    }
  }

  /** Justified classes that contain the base and are closed under the operation are the least ones. */
  lemma ClosedIsLeast(r: Roots, sys: System)
    requires WellKeyed(sys) && Justified(r, sys)
    requires Contains(SameClass(r), sys.base) && ClosedUnder(SameClass(r), sys.entries)
    ensures SameClass(r) == Least(sys)
  {
    SameClassIsEquivalence(r);
    assert Congruent(sys, SameClass(r));
    forall p | p in Least(sys) ensures p in SameClass(r) {
      assert InEvery(sys, p);
    }
  }

  /** The rounds of a saturation: `history` holds the root maps between them, and each round was a
      change, except that the last one changed nothing when `changed` is false. */
  ghost predicate Saturation(sys: System, history: seq<Roots>, changed: bool)
  {
    && history != []
    && (forall k :: 0 <= k < |history| - 1 ==> RoundFrom(sys, history[k], history[k + 1]))
    && forall k :: 0 <= k < |history| - (if changed then 1 else 2) ==> history[k] != history[k + 1]
  }

  lemma RoundAdded(sys: System, history: seq<Roots>, next: Roots, changed: bool)
    requires Saturation(sys, history, true) && RoundFrom(sys, history[|history| - 1], next)
    requires changed ==> next != history[|history| - 1]
    ensures Saturation(sys, history + [next], changed)
  {
    var longer := history + [next];
    forall k | 0 <= k < |longer| - 1 ensures RoundFrom(sys, longer[k], longer[k + 1]) {
      if k < |history| - 1 {
        assert RoundFrom(sys, history[k], history[k + 1]);
      }
    }
    forall k | 0 <= k < |longer| - (if changed then 1 else 2) ensures longer[k] != longer[k + 1] {
      if k < |history| - 1 {
        assert history[k] != history[k + 1];
      }
    }
  }

  /** A saturation after some rounds. */
  ghost predicate InSaturation(sys: System, start: Roots, now: Roots, rounds: nat, unions: nat, changed: bool, history: seq<Roots>)
  {
    && Justified(now, sys) && Contains(SameClass(now), sys.base)
    && |Reps(now)| + unions == |Reps(start)|
    && unions >= (if changed then rounds else rounds - 1)
    && (!changed ==> ClosedUnder(SameClass(now), sys.entries))
    && |history| == rounds + 1 && history[0] == start && history[rounds] == now
    && Saturation(sys, history, changed)
  }

  lemma InSaturationNext(sys: System, start: Roots, now: Roots, rounds: nat, unions: nat, history: seq<Roots>,
                         next: Roots, u: nat, changed: bool)
    requires InSaturation(sys, start, now, rounds, unions, true, history)
    requires Justified(next, sys) && SameClass(now) <= SameClass(next) && RoundFrom(sys, now, next)
    requires |Reps(next)| + u == |Reps(now)| && (changed <==> u > 0)
    requires !changed ==> ClosedUnder(SameClass(next), sys.entries)
    ensures InSaturation(sys, start, next, rounds + 1, unions + u, changed, history + [next])
  {
    StillContains(now, next, sys.base);
    RoundAdded(sys, history, next, changed);
  }

  /** The saturation loop: at most `cap` rounds, stopping early when a round changes nothing. */
  method Saturate(uf: UnionFind, entries: seq<Entry>, cap: nat, ghost sys: System)
    returns (unions: nat, rounds: nat, changed: bool, ghost history: seq<Roots>)
    requires uf.Valid() && WellKeyed(sys) && entries == sys.entries
    requires Justified(uf.Classes(), sys) && Contains(SameClass(uf.Classes()), sys.base)
    modifies uf
    ensures uf.Valid() && Justified(uf.Classes(), sys)
    ensures |Reps(uf.Classes())| + unions == |Reps(old(uf.Classes()))|
    ensures rounds <= cap && |history| == rounds + 1
    ensures history[0] == old(uf.Classes()) && history[rounds] == uf.Classes() && Saturation(sys, history, changed)
    ensures changed ==> rounds == cap && unions >= rounds
    ensures !changed ==> unions + 1 >= rounds && SameClass(uf.Classes()) == Least(sys)
  {
    changed, rounds, unions := true, 0, 0;
    ghost var start := uf.Classes();
    history := [start];
    while changed && rounds < cap
      invariant uf.Valid() && rounds <= cap
      invariant InSaturation(sys, start, uf.Classes(), rounds, unions, changed, history)
      decreases cap - rounds
    {
      ghost var now := uf.Classes();
      var u;
      changed, u := Round(uf, entries, sys);
      InSaturationNext(sys, start, now, rounds, unions, history, uf.Classes(), u, changed);
      rounds := rounds + 1;
      unions := unions + u;
      history := history + [uf.Classes()];
    }
    if !changed {
      ClosedIsLeast(uf.Classes(), sys);
    }
  }

  /** Every changing round lowers the class count, so a cap of at least the number of keys is
      never what stops the loop. */
  lemma CapNeverReached(keys: set<string>, r: Roots, unions: nat, rounds: nat, cap: nat)
    requires r.Keys == keys && keys != {} && ValidRoots(r)
    requires |Reps(r)| + unions == |keys| && unions >= rounds && rounds == cap
    ensures cap < |keys|
  {
    var k :| k in keys;
    assert Rooted(r, k);
    assert r[k] in Reps(r);
  }
}
