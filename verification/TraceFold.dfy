/** The one-role closure of a law that makes xx equal to x. Every term belongs to one class; one round
    gathers the terms of the next size in that class and at most one other, and the round after it
    joins the two, so that two rounds add all terms of the next size. */
module TraceFold {
  import opened Congruence
  import opened GroundRule
  import opened RoundTraces
  import opened Syntax
  import opened Terms
  import opened TraceRounds
  import opened UnionFinds

  ghost predicate Folding(ix: Index)
  {
    Setting(ix) && ix.ru == Rule(XX, X)
  }

  lemma {:induction false} AllFold(t: Term)
    requires OverRoles(t, TRACE_ROLES)
    ensures Nf(t, Rule(XX, X)) == X
  {
    match t
    case Var(_) =>
    case Op(l, r) =>
      AllFold(l);
      AllFold(r);
  }

  /** In the class of the leaf. */
  ghost predicate AtLeaf(ix: Index, r: Roots, t: Term)
    requires Setting(ix) && r.Keys == ix.sys.keys && InTrace(t)
  {
    InTrace(X) && RootOfTerm(ix, r, t) == RootOfTerm(ix, r, X)
  }

  lemma AtLeafIsComplete(ix: Index, r: Roots, t: Term)
    requires Folding(ix) && r.Keys == ix.sys.keys && InTrace(t)
    ensures Complete(ix, r, t) <==> AtLeaf(ix, r, t)
  {
    AllFold(t);
    NfInTrace(ix, t);
  }

  /** In the class of the bucket whose signature is twice the root of the leaf. */
  ghost predicate InLeafBucket(ix: Index, st: Step, t: Term)
    requires Setting(ix) && st.r.Keys == ix.sys.keys && InTrace(t) && InTrace(X)
  {
    var c := RootOfTerm(ix, st.r, X);
    (c, c) in st.buckets && st.buckets[(c, c)] in st.r && st.r[st.buckets[(c, c)]] == RootOfTerm(ix, st.r, t)
  }

  ghost predicate GatheredAt(ix: Index, st: Step, j: nat)
    requires Setting(ix) && st.r.Keys == ix.sys.keys && j < |ix.ops|
  {
    OpAt(ix, j) && InTrace(X) && (AtLeaf(ix, st.r, ix.ops[j]) || InLeafBucket(ix, st, ix.ops[j]))
  }

  /** The operations visited so far are in the leaf's class or in that of the leaf's bucket. */
  ghost predicate Gathered(ix: Index, st: Step, i: nat)
    requires Setting(ix) && st.r.Keys == ix.sys.keys && i <= |ix.ops|
  {
    forall j {:trigger GatheredAt(ix, st, j)} :: 0 <= j < i ==> GatheredAt(ix, st, j)
  }

  /** A term in one of the two classes stays in one of them when an operation of the leaf's class
      with itself is visited. */
  lemma VisitKeepsGathered(ix: Index, st: Step, e: Entry, next: Step, t: Term)
    requires Setting(ix) && st.r.Keys == next.r.Keys == ix.sys.keys && InTrace(X) && InTrace(t)
    requires IsStep(st, e, next) && st.r[e.a] == st.r[e.b] == RootOfTerm(ix, st.r, X)
    requires AtLeaf(ix, st.r, t) || InLeafBucket(ix, st, t)
    ensures AtLeaf(ix, next.r, t) || InLeafBucket(ix, next, t)
  {
    assert KeyKnown(ix, X) && KeyKnown(ix, t);
    var c, kx, kt := RootOfTerm(ix, st.r, X), Canonical(X), Canonical(t);
    if (c, c) in st.buckets {
      var b := st.buckets[(c, c)];
      MergeJoins(st.r, e.parent, b, kt, kx);
      MergeJoins(st.r, e.parent, b, kt, b);
      LesserBelow(st.r[e.parent], st.r[b]);
    }
  }

  lemma VisitGathers(ix: Index, st: Step, e: Entry, next: Step, t: Term)
    requires Setting(ix) && st.r.Keys == next.r.Keys == ix.sys.keys && InTrace(X) && InTrace(t)
    requires IsStep(st, e, next) && st.r[e.a] == st.r[e.b] == RootOfTerm(ix, st.r, X) && e.parent == Canonical(t)
    ensures AtLeaf(ix, next.r, t) || InLeafBucket(ix, next, t)
  {
    assert KeyKnown(ix, X) && KeyKnown(ix, t);
    var c, kx, kt := RootOfTerm(ix, st.r, X), Canonical(X), Canonical(t);
    if (c, c) in st.buckets {
      var b := st.buckets[(c, c)];
      MergeJoins(st.r, kt, b, kt, b);
      MergeJoins(st.r, kt, b, kt, kx);
      LesserBelow(st.r[kt], st.r[b]);
    }
  }

  ghost predicate GathersAt(ix: Index, steps: seq<Step>, k: nat)
    requires Setting(ix) && k + 1 < |steps| && k < |ix.ops|
  {
    && steps[k].r.Keys == steps[k + 1].r.Keys == ix.sys.keys
    && (Gathered(ix, steps[k], k) ==> Gathered(ix, steps[k + 1], k + 1))
  }

  lemma {:induction false} GatheredUpTo(ix: Index, steps: seq<Step>, i: nat, k: nat)
    requires Setting(ix) && k <= i < |steps| && i <= |ix.ops| && steps[0].r.Keys == ix.sys.keys
    requires forall j {:trigger GathersAt(ix, steps, j)} :: 0 <= j < i ==> GathersAt(ix, steps, j)
    ensures steps[k].r.Keys == ix.sys.keys && Gathered(ix, steps[k], k)
  {
    if k == 0 {
    } else {
      GatheredUpTo(ix, steps, i, k - 1);
      assert GathersAt(ix, steps, k - 1);
    }
  }

  lemma LeafInTrace()
    ensures InTrace(X) && InTrace(XX)
  {
    assert TRACE_ROLES[0] == "x";
    assert OverRoles(X, TRACE_ROLES) && Ops(X) == 0 && Ops(XX) == 1;
  }

  /** An operand small enough to have been in the leaf's class from the start still is. */
  lemma OperandAtLeaf(ix: Index, start: Roots, steps: seq<Step>, k: nat, size: nat, t: Term)
    requires Folding(ix) && Trace(ix.sys, start, steps) && k < |steps| && start.Keys == ix.sys.keys
    requires CompleteUpTo(ix, start, Everything(), size) && InTrace(t) && Ops(t) <= size
    ensures steps[k].r.Keys == ix.sys.keys && AtLeaf(ix, steps[k].r, t)
  {
    LeafInTrace();
    KeysOfTrace(ix, start, steps, k);
    AllFold(t);
    assert Complete(ix, start, t);
    AtLeafIsComplete(ix, start, t);
    ClassesStay(ix.sys, start, steps, 0, k);
    assert KeyKnown(ix, X) && KeyKnown(ix, t);
  }

  lemma GatheredStep(ix: Index, start: Roots, steps: seq<Step>, k: nat, size: nat)
    requires Folding(ix) && Trace(ix.sys, start, steps) && k + 1 < |steps| && start.Keys == ix.sys.keys
    requires CompleteUpTo(ix, start, Everything(), size) && k < |ix.ops| && Ops(ix.ops[k]) <= size + 1
    requires steps[k].r.Keys == steps[k + 1].r.Keys == ix.sys.keys && Gathered(ix, steps[k], k)
    ensures Gathered(ix, steps[k + 1], k + 1)
  {
    LeafInTrace();
    assert OpAt(ix, k);
    var t := ix.ops[k];
    OperandAtLeaf(ix, start, steps, k, size, t.left);
    OperandAtLeaf(ix, start, steps, k, size, t.right);
    StepAt(ix.sys, start, steps, k);
    forall j {:trigger GatheredAt(ix, steps[k + 1], j)} | 0 <= j < k + 1 ensures GatheredAt(ix, steps[k + 1], j) {
      assert OpAt(ix, j);
      if j < k {
        assert GatheredAt(ix, steps[k], j);
        VisitKeepsGathered(ix, steps[k], ix.sys.entries[k], steps[k + 1], ix.ops[j]);
      } else {
        VisitGathers(ix, steps[k], ix.sys.entries[k], steps[k + 1], t);
      }
    }
  }

  /** When the operations before `i` have been visited, they are in at most two classes. */
  lemma GatheredBefore(ix: Index, start: Roots, steps: seq<Step>, i: nat, size: nat)
    requires Folding(ix) && Trace(ix.sys, start, steps) && i < |steps| && i <= |ix.ops| && start.Keys == ix.sys.keys
    requires CompleteUpTo(ix, start, Everything(), size)
    requires forall k :: 0 <= k < i ==> Ops(ix.ops[k]) <= size + 1
    ensures steps[i].r.Keys == ix.sys.keys && Gathered(ix, steps[i], i)
  {
    KeysOfTrace(ix, start, steps, 0);
    forall k | 0 <= k < i ensures GathersAt(ix, steps, k) {
      KeysOfTrace(ix, start, steps, k);
      KeysOfTrace(ix, start, steps, k + 1);
      if Gathered(ix, steps[k], k) {
        GatheredStep(ix, start, steps, k, size);
      }
    }
    GatheredUpTo(ix, steps, i, i);
  }

  ghost predicate OneOf(ix: Index, r: Roots, s: Term, t: Term)
    requires Setting(ix) && r.Keys == ix.sys.keys && InTrace(s) && InTrace(t)
  {
    AtLeaf(ix, r, s) || AtLeaf(ix, r, t) || RootOfTerm(ix, r, s) == RootOfTerm(ix, r, t)
  }

  /** The terms up to a size that are not in the leaf's class are all in one other class. */
  ghost predicate TwoClasses(ix: Index, r: Roots, size: nat)
    requires Setting(ix) && r.Keys == ix.sys.keys
  {
    forall s, t :: InTrace(s) && InTrace(t) && s.Op? && t.Op? && Ops(s) <= size && Ops(t) <= size ==> OneOf(ix, r, s, t)
  }

  lemma GatheredIsOneOf(ix: Index, st: Step, i: nat, j: nat, l: nat)
    requires Setting(ix) && st.r.Keys == ix.sys.keys && i <= |ix.ops| && j < i && l < i && Gathered(ix, st, i)
    ensures InTrace(ix.ops[j]) && InTrace(ix.ops[l]) && OneOf(ix, st.r, ix.ops[j], ix.ops[l])
  {
    assert GatheredAt(ix, st, j) && GatheredAt(ix, st, l);
  }

  lemma OneOfStays(ix: Index, r: Roots, q: Roots, s: Term, t: Term)
    requires Setting(ix) && r.Keys == q.Keys == ix.sys.keys && ClassesKept(r, q) && InTrace(s) && InTrace(t)
    requires OneOf(ix, r, s, t)
    ensures OneOf(ix, q, s, t)
  {
    LeafInTrace();
    assert KeyKnown(ix, X) && KeyKnown(ix, s) && KeyKnown(ix, t);
  }

  /** The positions of two operations, both visited when the first `i` entries have been. */
  lemma BothVisited(ix: Index, start: Roots, steps: seq<Step>, size: nat, s: Term, t: Term) returns (i: nat, j: nat, l: nat)
    requires Folding(ix) && Trace(ix.sys, start, steps) && |steps| == |ix.sys.entries| + 1
    requires InTrace(s) && InTrace(t) && s.Op? && t.Op? && Ops(s) <= size && Ops(t) <= size
    ensures j < i <= |ix.ops| && l < i && ix.ops[j] == s && ix.ops[l] == t
    ensures forall k :: 0 <= k < i ==> Ops(ix.ops[k]) <= size
  {
    j := OpIndex(ix, start, steps, s);
    l := OpIndex(ix, start, steps, t);
    i := (if j < l then l else j) + 1;
    forall k | 0 <= k < i ensures Ops(ix.ops[k]) <= size {
      EarlierIsNotLarger(ix, i - 1, k);
    }
  }

  lemma PairIsOneOf(ix: Index, start: Roots, steps: seq<Step>, size: nat, s: Term, t: Term)
    requires Folding(ix) && Trace(ix.sys, start, steps) && |steps| == |ix.sys.entries| + 1 && start.Keys == ix.sys.keys
    requires CompleteUpTo(ix, start, Everything(), size)
    requires InTrace(s) && InTrace(t) && s.Op? && t.Op? && Ops(s) <= size + 1 && Ops(t) <= size + 1
    ensures steps[|ix.sys.entries|].r.Keys == ix.sys.keys && OneOf(ix, steps[|ix.sys.entries|].r, s, t)
  {
    var m := |ix.sys.entries|;
    var i, j, l := BothVisited(ix, start, steps, size + 1, s, t);
    KeysOfTrace(ix, start, steps, m);
    GatheredBefore(ix, start, steps, i, size);
    GatheredIsOneOf(ix, steps[i], i, j, l);
    ClassesStay(ix.sys, start, steps, i, m);
    OneOfStays(ix, steps[i].r, steps[m].r, s, t);
  }

  /** One round gathers the terms of the next size. */
  lemma RoundGathers(ix: Index, r: Roots, q: Roots, size: nat)
    requires Folding(ix) && RoundFrom(ix.sys, r, q) && r.Keys == q.Keys == ix.sys.keys
    requires CompleteUpTo(ix, r, Everything(), size)
    ensures TwoClasses(ix, q, size + 1)
  {
    var steps: seq<Step> :| Trace(ix.sys, r, steps) && |steps| == |ix.sys.entries| + 1 && steps[|ix.sys.entries|].r == q;
    forall s, t | InTrace(s) && InTrace(t) && s.Op? && t.Op? && Ops(s) <= size + 1 && Ops(t) <= size + 1
      ensures OneOf(ix, q, s, t)
    {
      PairIsOneOf(ix, r, steps, size, s, t);
    }
  }

  lemma EverythingIsClosed(ix: Index)
    requires Setting(ix)
    ensures Closed(ix, Everything())
  {
    forall t | InTrace(t) && t.Op? ensures Nf(t.left, ix.ru) in Everything() && Nf(t.right, ix.ru) in Everything() {
      NfInTrace(ix, t.left);
      NfInTrace(ix, t.right);
    }
  }

  /** The first operation outside the leaf's class joins it in the next round. */
  lemma FirstJoins(ix: Index, r: Roots, q: Roots, t: Term) returns (first: Term)
    requires Folding(ix) && RoundFrom(ix.sys, r, q) && r.Keys == q.Keys == ix.sys.keys && Started(ix, r)
    requires InTrace(t) && t.Op? && !AtLeaf(ix, r, t)
    ensures InTrace(first) && first.Op? && Ops(first) <= Ops(t) && !AtLeaf(ix, r, first) && AtLeaf(ix, q, first)
  {
    assert OpKnown(ix, t);
    var i: nat :| i < |ix.ops| && ix.ops[i] == t;
    assert OpAt(ix, i);
    AllFold(t);
    LeafInTrace();
    AtLeafIsComplete(ix, r, t);
    EverythingIsClosed(ix);
    var f := FirstLacking(ix, r, Everything(), i);
    EarlierIsNotLarger(ix, i, f);
    first := ix.ops[f];
    var steps: seq<Step> :| Trace(ix.sys, r, steps) && |steps| == |ix.sys.entries| + 1 && steps[|ix.sys.entries|].r == q;
    assert Ops(X) < Ops(XX);
    FirstBecomesComplete(ix, r, steps, Everything(), f);
    AtLeafIsComplete(ix, r, first);
    AtLeafIsComplete(ix, q, first);
  }

  lemma RoundKeepsClasses(ix: Index, r: Roots, q: Roots)
    requires Setting(ix) && RoundFrom(ix.sys, r, q)
    ensures ClassesKept(r, q)
  {
    var steps: seq<Step> :| Trace(ix.sys, r, steps) && |steps| == |ix.sys.entries| + 1 && steps[|ix.sys.entries|].r == q;
    ClassesStay(ix.sys, r, steps, 0, |ix.sys.entries|);
  }

  /** The next round takes the other class into the leaf's. */
  lemma RoundFolds(ix: Index, r: Roots, q: Roots, size: nat)
    requires Folding(ix) && RoundFrom(ix.sys, r, q) && r.Keys == q.Keys == ix.sys.keys && Started(ix, r)
    requires TwoClasses(ix, r, size)
    ensures CompleteUpTo(ix, q, Everything(), size)
  {
    RoundKeepsClasses(ix, r, q);
    LeafInTrace();
    forall t | InTrace(t) && Ops(t) <= size ensures Complete(ix, q, t) {
      AtLeafIsComplete(ix, q, t);
      assert KeyKnown(ix, t) && KeyKnown(ix, X);
      if t.Op? && !AtLeaf(ix, r, t) {
        var first := FirstJoins(ix, r, q, t);
        assert KeyKnown(ix, first);
        assert OneOf(ix, r, first, t);
      } else if t.Var? {
        LeafIsNormal(ix, t);
      }
    }
  }

  lemma StartIsFolded(ix: Index, r: Roots)
    requires Folding(ix) && Started(ix, r)
    ensures CompleteUpTo(ix, r, Everything(), 1)
  {
    LeafInTrace();
    forall t | InTrace(t) && Ops(t) <= 1 ensures Complete(ix, r, t) {
      TinyTerms(t);
      AtLeafIsComplete(ix, r, t);
    }
  }

  /** After two rounds for each further size, all terms up to that size are in the leaf's class. */
  lemma {:induction false} FoldedAfter(ix: Index, history: seq<Roots>, size: nat)
    requires 1 <= size && 2 * (size - 1) < |history|
    requires Folding(ix) && Consecutive(ix, history) && Started(ix, history[0])
    ensures Started(ix, history[2 * (size - 1)]) && CompleteUpTo(ix, history[2 * (size - 1)], Everything(), size)
  {
    if size == 1 {
      StartIsFolded(ix, history[0]);
    } else {
      var k := 2 * (size - 2);
      FoldedAfter(ix, history, size - 1);
      assert RoundAt(ix, history, k) && RoundAt(ix, history, k + 1);
      RoundGathers(ix, history[k], history[k + 1], size - 1);
      RoundKeepsStarted(ix, history[k], history[k + 1]);
      RoundFolds(ix, history[k + 1], history[k + 2], size);
      RoundKeepsStarted(ix, history[k + 1], history[k + 2]);
    }
  }

  lemma FoldingRule(ix: Index, history: seq<Roots>)
    requires Folding(ix) && Consecutive(ix, history) && 8 < |history| && Started(ix, history[0])
    ensures AllDone(ix, history[8])
  {
    FoldedAfter(ix, history, TRACE_DEPTH);
    CompleteMeansDone(ix, history[8]);
  }
}
