/** One round, visit by visit: classes only grow, and two entries that had one signature when they
    were visited are in one class from then on, although the roots keep moving. Nothing here depends
    on the roles or on the law. */
module RoundTraces {
  import opened Congruence
  import opened UnionFinds

  ghost predicate Grown(small: Buckets, large: Buckets)
  {
    forall sig :: sig in small ==> sig in large && large[sig] == small[sig]
  }

  ghost predicate ClassesKept(r: Roots, q: Roots)
  {
    r.Keys == q.Keys && forall a, b :: a in r && b in r && r[a] == r[b] ==> q[a] == q[b]
  }

  /** The bucket of a signature holds a key of the class of `parent`. */
  ghost predicate Holds(st: Step, sig: Pair, parent: string)
  {
    parent in st.r && sig in st.buckets && st.buckets[sig] in st.r && st.r[st.buckets[sig]] == st.r[parent]
  }

  /** A visit joins the parent of its entry with the bucket of its signature, and loses nothing. */
  lemma StepFacts(st: Step, e: Entry, next: Step)
    requires IsStep(st, e, next)
    ensures ClassesKept(st.r, next.r) && Grown(st.buckets, next.buckets)
    ensures Holds(next, (st.r[e.a], st.r[e.b]), e.parent)
  {
    var sig := (st.r[e.a], st.r[e.b]);
    if sig in st.buckets {
      var b := st.buckets[sig];
      MergeJoins(st.r, e.parent, b, e.parent, b);
      forall x, y | x in st.r && y in st.r && st.r[x] == st.r[y] ensures next.r[x] == next.r[y] {
        MergeJoins(st.r, e.parent, b, x, y);
      }
    }
  }

  lemma HoldsStays(st: Step, next: Step, sig: Pair, parent: string)
    requires Holds(st, sig, parent) && ClassesKept(st.r, next.r) && Grown(st.buckets, next.buckets)
    ensures Holds(next, sig, parent)
  {
  }

  /** The signature that entry `i` had when it was visited. */
  ghost function SignatureAt(sys: System, start: Roots, steps: seq<Step>, i: nat): Pair
    requires WellKeyed(sys) && Trace(sys, start, steps) && i < |steps| && i < |sys.entries|
  {
    assert KnownEntry(sys.keys, sys.entries[i]) && Justified(steps[i].r, sys);
    (steps[i].r[sys.entries[i].a], steps[i].r[sys.entries[i].b])
  }

  lemma StepAt(sys: System, start: Roots, steps: seq<Step>, k: nat)
    requires Trace(sys, start, steps) && k + 1 < |steps|
    ensures IsStep(steps[k], sys.entries[k], steps[k + 1])
    ensures Justified(steps[k].r, sys) && Justified(steps[k + 1].r, sys)
  {
  }

  lemma StepKeeps(sys: System, start: Roots, steps: seq<Step>, k: nat)
    requires Trace(sys, start, steps) && k + 1 < |steps|
    ensures ClassesKept(steps[k].r, steps[k + 1].r) && Grown(steps[k].buckets, steps[k + 1].buckets)
  {
    StepAt(sys, start, steps, k);
    StepFacts(steps[k], sys.entries[k], steps[k + 1]);
  }

  lemma StepCovers(sys: System, start: Roots, steps: seq<Step>, k: nat, sig: Pair)
    requires WellKeyed(sys) && Trace(sys, start, steps) && k + 1 < |steps| && sig == SignatureAt(sys, start, steps, k)
    ensures Holds(steps[k + 1], sig, sys.entries[k].parent)
  {
    StepAt(sys, start, steps, k);
    StepFacts(steps[k], sys.entries[k], steps[k + 1]);
  }

  lemma {:induction false} EntryStaysCovered(sys: System, start: Roots, steps: seq<Step>, i: nat, k: nat, sig: Pair)
    requires WellKeyed(sys) && Trace(sys, start, steps) && i < k < |steps| && sig == SignatureAt(sys, start, steps, i)
    ensures Holds(steps[k], sig, sys.entries[i].parent)
    decreases k
  {
    if i == k - 1 {
      StepCovers(sys, start, steps, i, sig);
    } else {
      EntryStaysCovered(sys, start, steps, i, k - 1, sig);
      StepKeeps(sys, start, steps, k - 1);
      HoldsStays(steps[k - 1], steps[k], sig, sys.entries[i].parent);
    }
  }

  /** Two entries that had the same signature when they were visited are in one class afterwards. */
  lemma SameSignatureJoins(sys: System, start: Roots, steps: seq<Step>, i: nat, j: nat, k: nat)
    requires WellKeyed(sys) && Trace(sys, start, steps) && i < k < |steps| && j < k
    requires SignatureAt(sys, start, steps, i) == SignatureAt(sys, start, steps, j)
    ensures sys.entries[i].parent in steps[k].r && sys.entries[j].parent in steps[k].r
    ensures steps[k].r[sys.entries[i].parent] == steps[k].r[sys.entries[j].parent]
  {
    var sig := SignatureAt(sys, start, steps, i);
    EntryStaysCovered(sys, start, steps, i, k, sig);
    EntryStaysCovered(sys, start, steps, j, k, sig);
  }

  lemma KeptTwice(r: Roots, q: Roots, p: Roots)
    requires ClassesKept(r, q) && ClassesKept(q, p)
    ensures ClassesKept(r, p)
  {
  }

  ghost predicate KeptAlong(steps: seq<Step>)
  {
    forall k :: 0 <= k < |steps| - 1 ==> ClassesKept(steps[k].r, steps[k + 1].r)
  }

  lemma {:induction false} KeptBetween(steps: seq<Step>, i: nat, k: nat)
    requires KeptAlong(steps) && i <= k < |steps|
    ensures ClassesKept(steps[i].r, steps[k].r)
    decreases k
  {
    if i == k {
    } else {
      KeptBetween(steps, i, k - 1);
      KeptTwice(steps[i].r, steps[k - 1].r, steps[k].r);
    }
  }

  lemma ClassesStay(sys: System, start: Roots, steps: seq<Step>, i: nat, k: nat)
    requires Trace(sys, start, steps) && i <= k < |steps|
    ensures ClassesKept(steps[i].r, steps[k].r)
  {
    forall j | 0 <= j < |steps| - 1 ensures ClassesKept(steps[j].r, steps[j + 1].r) {
      StepKeeps(sys, start, steps, j);
    }
    KeptBetween(steps, i, k);
  }

  /** The buckets only hold parents of entries visited before. */
  ghost predicate Visited(sys: System, st: Step, k: nat)
    requires k <= |sys.entries|
  {
    forall sig :: sig in st.buckets ==> exists i :: 0 <= i < k && sys.entries[i].parent == st.buckets[sig]
  }

  lemma {:induction false} BucketsVisited(sys: System, start: Roots, steps: seq<Step>, k: nat)
    requires Trace(sys, start, steps) && k < |steps|
    ensures Visited(sys, steps[k], k)
  {
    if k == 0 {
    } else {
      BucketsVisited(sys, start, steps, k - 1);
      StepAt(sys, start, steps, k - 1);
      var st, next, e := steps[k - 1], steps[k], sys.entries[k - 1];
      forall sig | sig in next.buckets ensures exists i :: 0 <= i < k && sys.entries[i].parent == next.buckets[sig] {
        if sig in st.buckets {
          var i :| 0 <= i < k - 1 && sys.entries[i].parent == st.buckets[sig];
        } else {
          assert sys.entries[k - 1].parent == next.buckets[sig];
        }
      }
    }
  }
}
