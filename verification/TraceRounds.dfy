/** Rounds of the one-role closure, followed through their visits. A class is complete when it holds
    all terms of its normal form. A complete class keeps its root through every later round; the first
    operation that is not yet in the class of its normal form gets there in the next round; and once
    all classes are complete, a round changes nothing. */
module TraceRounds {
  import opened Closure
  import opened Congruence
  import opened GroundRule
  import opened RoundTraces
  import opened Syntax
  import opened Terms
  import opened UnionFinds
  import opened Universe

  const TRACE_ROLES := ["x"]
  const TRACE_DEPTH: nat := 5

  const X := Var("x")
  const XX := Op(X, X)

  predicate InTrace(t: Term)
  {
    InUniverse(t, TRACE_ROLES, TRACE_DEPTH)
  }

  /** The operations of the trace universe behind the entries of a system, and the rule of its law. */
  datatype Index = Index(sys: System, ops: seq<Term>, ru: Rule)

  ghost predicate OpAt(ix: Index, i: nat)
    requires i < |ix.ops| == |ix.sys.entries|
  {
    InTrace(ix.ops[i]) && ix.ops[i].Op? && ix.sys.entries[i] == EntryOf(ix.ops[i])
  }

  ghost predicate KeyKnown(ix: Index, t: Term)
  {
    Canonical(t) in ix.sys.keys
  }

  ghost predicate KeyHeld(ix: Index, k: string)
  {
    exists t :: InTrace(t) && Canonical(t) == k
  }

  ghost predicate OpKnown(ix: Index, t: Term)
  {
    t in ix.ops
  }

  ghost predicate OneNf(ix: Index, s: Term, t: Term)
  {
    (Canonical(s), Canonical(t)) in Least(ix.sys) ==> Nf(s, ix.ru) == Nf(t, ix.ru)
  }

  /** The keys are those of the trace universe, the entries its operations in the order of their
      size, and the least congruence only relates terms with one normal form. */
  ghost predicate Setting(ix: Index)
  {
    && WellKeyed(ix.sys) && GoodRule(ix.ru) && (InTrace(ix.ru.big) ==> InTrace(ix.ru.small))
    && |ix.ops| == |ix.sys.entries| && BySize(ix.ops)
    && (forall t {:trigger KeyKnown(ix, t)} :: InTrace(t) ==> KeyKnown(ix, t))
    && (forall k {:trigger KeyHeld(ix, k)} :: k in ix.sys.keys ==> KeyHeld(ix, k))
    && (forall i {:trigger OpAt(ix, i)} :: 0 <= i < |ix.ops| ==> OpAt(ix, i))
    && (forall t {:trigger OpKnown(ix, t)} :: InTrace(t) && t.Op? ==> OpKnown(ix, t))
    && forall s, t {:trigger OneNf(ix, s, t)} :: InTrace(s) && InTrace(t) ==> OneNf(ix, s, t)
  }

  /** The root of a term. */
  ghost function RootOfTerm(ix: Index, r: Roots, t: Term): string
    requires Setting(ix) && r.Keys == ix.sys.keys && InTrace(t)
  {
    assert KeyKnown(ix, t);
    r[Canonical(t)]
  }

  /** Classes inside the least congruence, with the two sides of the rule joined. */
  ghost predicate Started(ix: Index, r: Roots)
    requires Setting(ix)
  {
    && Justified(r, ix.sys)
    && (InTrace(ix.ru.big) ==> RootOfTerm(ix, r, ix.ru.big) == RootOfTerm(ix, r, ix.ru.small))
  }

  /** Terms of one class have one normal form. */
  lemma ClassHasOneNf(ix: Index, r: Roots, s: Term, t: Term)
    requires Setting(ix) && Justified(r, ix.sys) && InTrace(s) && InTrace(t)
    requires RootOfTerm(ix, r, s) == RootOfTerm(ix, r, t)
    ensures Nf(s, ix.ru) == Nf(t, ix.ru)
  {
    assert KeyKnown(ix, s) && KeyKnown(ix, t);
    assert (Canonical(s), Canonical(t)) in SameClass(r) && OneNf(ix, s, t);
  }

  /** A rule whose big side is outside the universe rewrites nothing inside it. */
  lemma {:induction false} OutsideIsNormal(t: Term, ru: Rule)
    requires InTrace(t) && !InTrace(ru.big)
    ensures Nf(t, ru) == t
  {
    match t
    case Var(_) =>
    case Op(l, r) =>
      OutsideIsNormal(l, ru);
      OutsideIsNormal(r, ru);
  }

  lemma NfInTrace(ix: Index, t: Term)
    requires Setting(ix) && InTrace(t)
    ensures InTrace(Nf(t, ix.ru)) && Ops(Nf(t, ix.ru)) <= Ops(t)
    ensures Nf(Nf(t, ix.ru), ix.ru) == Nf(t, ix.ru)
  {
    NfIsNormal(t, ix.ru);
    if InTrace(ix.ru.small) {
      NfStaysInside(t, ix.ru, TRACE_ROLES);
    } else {
      OutsideIsNormal(t, ix.ru);
    }
  }

  // -------------------------------------------------------- what a merge keeps

  /** All terms with this normal form are in one class. */
  ghost predicate IsDone(ix: Index, r: Roots, n: Term)
    requires Setting(ix) && r.Keys == ix.sys.keys && InTrace(n)
  {
    forall u :: InTrace(u) && Nf(u, ix.ru) == n ==> RootOfTerm(ix, r, u) == RootOfTerm(ix, r, n)
  }

  /** No term with this normal form has changed its root. */
  ghost predicate RootsKept(ix: Index, r: Roots, q: Roots, n: Term)
    requires Setting(ix) && r.Keys == q.Keys == ix.sys.keys
  {
    forall u :: InTrace(u) && Nf(u, ix.ru) == n ==> RootOfTerm(ix, q, u) == RootOfTerm(ix, r, u)
  }

  lemma KeyHasTerm(ix: Index, k: string) returns (t: Term)
    requires Setting(ix) && k in ix.sys.keys
    ensures InTrace(t) && Canonical(t) == k
  {
    assert KeyHeld(ix, k);
    t :| InTrace(t) && Canonical(t) == k;
  }

  /** A merge changes no root of a normal form other than that of the merged terms. */
  lemma MergeKeepsOthers(ix: Index, r: Roots, p: Term, b: Term, n: Term)
    requires Setting(ix) && Justified(r, ix.sys) && InTrace(p) && InTrace(b)
    requires Canonical(p) in r && Canonical(b) in r && Justified(Merge(r, Canonical(p), Canonical(b)), ix.sys)
    ensures Nf(p, ix.ru) == Nf(b, ix.ru)
    ensures Nf(p, ix.ru) != n ==> RootsKept(ix, r, Merge(r, Canonical(p), Canonical(b)), n)
  {
    var kp, kb := Canonical(p), Canonical(b);
    var q := Merge(r, kp, kb);
    MergeJoins(r, kp, kb, kp, kb);
    ClassHasOneNf(ix, q, p, b);
    LesserBelow(r[kp], r[kb]);
    if Nf(p, ix.ru) != n {
      forall u | InTrace(u) && Nf(u, ix.ru) == n ensures RootOfTerm(ix, q, u) == RootOfTerm(ix, r, u) {
        assert KeyKnown(ix, u);
        if RootOfTerm(ix, r, u) == r[kp] {
          ClassHasOneNf(ix, r, u, p);
        }
        if RootOfTerm(ix, r, u) == r[kb] {
          ClassHasOneNf(ix, r, u, b);
        }
      }
    }
  }

  lemma KeysOfTrace(ix: Index, start: Roots, steps: seq<Step>, k: nat)
    requires Setting(ix) && Trace(ix.sys, start, steps) && k < |steps|
    ensures steps[k].r.Keys == ix.sys.keys && Justified(steps[k].r, ix.sys)
  {
  }

  /** A visit changes nothing, or joins the term of its entry with that of an earlier one. */
  lemma StepMerges(ix: Index, start: Roots, steps: seq<Step>, k: nat) returns (j: nat)
    requires Setting(ix) && Trace(ix.sys, start, steps) && k + 1 < |steps|
    ensures k < |ix.ops| && InTrace(ix.ops[k]) && Canonical(ix.ops[k]) in steps[k].r
    ensures steps[k + 1].r == steps[k].r ||
            (j < k && InTrace(ix.ops[j]) && Canonical(ix.ops[j]) in steps[k].r &&
             steps[k + 1].r == Merge(steps[k].r, Canonical(ix.ops[k]), Canonical(ix.ops[j])))
  {
    StepAt(ix.sys, start, steps, k);
    BucketsVisited(ix.sys, start, steps, k);
    assert OpAt(ix, k);
    assert KeyKnown(ix, ix.ops[k]);
    var st, e := steps[k], ix.sys.entries[k];
    var sig := (st.r[e.a], st.r[e.b]);
    j := 0;
    if sig in st.buckets {
      j :| j < k && ix.sys.entries[j].parent == st.buckets[sig];
      assert OpAt(ix, j);
      assert KeyKnown(ix, ix.ops[j]);
    }
  }

  /** The visit of entry `k` cannot matter to the normal form `n`: its term has another one, or is
      already in the class of every earlier operation with that one. */
  ghost predicate Quiet(ix: Index, r: Roots, k: nat, n: Term)
    requires Setting(ix) && r.Keys == ix.sys.keys && k < |ix.ops|
  {
    assert OpAt(ix, k);
    Nf(ix.ops[k], ix.ru) == n ==>
      forall j :: 0 <= j < k && OpAt(ix, j) && Nf(ix.ops[j], ix.ru) == n ==>
                    RootOfTerm(ix, r, ix.ops[j]) == RootOfTerm(ix, r, ix.ops[k])
  }

  lemma QuietStep(ix: Index, start: Roots, steps: seq<Step>, k: nat, n: Term)
    requires Setting(ix) && Trace(ix.sys, start, steps) && k + 1 < |steps|
    requires steps[k].r.Keys == ix.sys.keys && Quiet(ix, steps[k].r, k, n)
    ensures steps[k + 1].r.Keys == ix.sys.keys && RootsKept(ix, steps[k].r, steps[k + 1].r, n)
  {
    KeysOfTrace(ix, start, steps, k);
    KeysOfTrace(ix, start, steps, k + 1);
    var j := StepMerges(ix, start, steps, k);
    if steps[k + 1].r != steps[k].r {
      var p, b := ix.ops[k], ix.ops[j];
      MergeKeepsOthers(ix, steps[k].r, p, b, n);
      if Nf(p, ix.ru) == n {
        assert OpAt(ix, j);
        MergeSame(steps[k].r, Canonical(p), Canonical(b));
      }
    }
  }

  lemma RootsKeptTwice(ix: Index, r: Roots, q: Roots, p: Roots, n: Term)
    requires Setting(ix) && r.Keys == q.Keys == p.Keys == ix.sys.keys
    requires RootsKept(ix, r, q, n) && RootsKept(ix, q, p, n)
    ensures RootsKept(ix, r, p, n)
  {
  }

  lemma DoneIsKept(ix: Index, r: Roots, q: Roots, n: Term)
    requires Setting(ix) && r.Keys == q.Keys == ix.sys.keys && InTrace(n) && Nf(n, ix.ru) == n
    requires IsDone(ix, r, n) && RootsKept(ix, r, q, n)
    ensures IsDone(ix, q, n)
  {
  }

  lemma DoneIsQuiet(ix: Index, r: Roots, k: nat, n: Term)
    requires Setting(ix) && r.Keys == ix.sys.keys && k < |ix.ops| && InTrace(n) && IsDone(ix, r, n)
    ensures Quiet(ix, r, k, n)
  {
    assert OpAt(ix, k);
  }

  lemma DoneStep(ix: Index, start: Roots, steps: seq<Step>, k: nat, n: Term)
    requires Setting(ix) && Trace(ix.sys, start, steps) && k + 1 < |steps|
    requires steps[k].r.Keys == ix.sys.keys && InTrace(n) && IsDone(ix, steps[k].r, n)
    ensures steps[k + 1].r.Keys == ix.sys.keys && RootsKept(ix, steps[k].r, steps[k + 1].r, n)
  {
    DoneIsQuiet(ix, steps[k].r, k, n);
    QuietStep(ix, start, steps, k, n);
  }

  /** Along these root maps, a complete class keeps its root from one to the next. */
  ghost predicate DoneAlong(ix: Index, steps: seq<Step>, n: Term)
    requires Setting(ix) && InTrace(n)
  {
    && (forall k :: 0 <= k < |steps| ==> steps[k].r.Keys == ix.sys.keys)
    && forall k :: 0 <= k < |steps| - 1 && IsDone(ix, steps[k].r, n) ==> RootsKept(ix, steps[k].r, steps[k + 1].r, n)
  }

  lemma {:induction false} DoneAlongKeeps(ix: Index, steps: seq<Step>, k: nat, n: Term)
    requires Setting(ix) && InTrace(n) && Nf(n, ix.ru) == n && DoneAlong(ix, steps, n)
    requires k < |steps| && IsDone(ix, steps[0].r, n)
    ensures RootsKept(ix, steps[0].r, steps[k].r, n) && IsDone(ix, steps[k].r, n)
  {
    if k == 0 {
    } else {
      DoneAlongKeeps(ix, steps, k - 1, n);
      RootsKeptTwice(ix, steps[0].r, steps[k - 1].r, steps[k].r, n);
      DoneIsKept(ix, steps[0].r, steps[k].r, n);
    }
  }

  /** A class that is complete keeps its root through a whole round. */
  lemma DoneKeepsRoots(ix: Index, start: Roots, steps: seq<Step>, k: nat, n: Term)
    requires Setting(ix) && Trace(ix.sys, start, steps) && k < |steps|
    requires start.Keys == ix.sys.keys && InTrace(n) && Nf(n, ix.ru) == n && IsDone(ix, start, n)
    ensures steps[k].r.Keys == ix.sys.keys && RootsKept(ix, start, steps[k].r, n) && IsDone(ix, steps[k].r, n)
  {
    forall j | 0 <= j < |steps| ensures steps[j].r.Keys == ix.sys.keys {
      KeysOfTrace(ix, start, steps, j);
    }
    forall j | 0 <= j < |steps| - 1 && IsDone(ix, steps[j].r, n)
      ensures RootsKept(ix, steps[j].r, steps[j + 1].r, n)
    {
      DoneStep(ix, start, steps, j, n);
    }
    DoneAlongKeeps(ix, steps, k, n);
  }

  // ------------------------------------------------------- one round completes

  lemma SignatureIs(ix: Index, start: Roots, steps: seq<Step>, i: nat)
    requires Setting(ix) && Trace(ix.sys, start, steps) && |steps| == |ix.sys.entries| + 1 && i < |ix.ops|
    ensures ix.ops[i].Op? && InTrace(ix.ops[i]) && InTrace(ix.ops[i].left) && InTrace(ix.ops[i].right)
    ensures ix.sys.entries[i].parent == Canonical(ix.ops[i]) && steps[i].r.Keys == ix.sys.keys
    ensures SignatureAt(ix.sys, start, steps, i) ==
            (RootOfTerm(ix, steps[i].r, ix.ops[i].left), RootOfTerm(ix, steps[i].r, ix.ops[i].right))
  {
    assert OpAt(ix, i);
    KeysOfTrace(ix, start, steps, i);
  }

  /** The entry of an operation, and its signature when it was visited. */
  lemma OpIndex(ix: Index, start: Roots, steps: seq<Step>, t: Term) returns (i: nat)
    requires Setting(ix) && Trace(ix.sys, start, steps) && |steps| == |ix.sys.entries| + 1 && InTrace(t) && t.Op?
    ensures i < |ix.ops| && ix.ops[i] == t
    ensures ix.sys.entries[i].parent == Canonical(t) && InTrace(t.left) && InTrace(t.right)
    ensures steps[i].r.Keys == ix.sys.keys
    ensures SignatureAt(ix.sys, start, steps, i) == (RootOfTerm(ix, steps[i].r, t.left), RootOfTerm(ix, steps[i].r, t.right))
  {
    assert OpKnown(ix, t);
    i :| 0 <= i < |ix.ops| && ix.ops[i] == t;
    SignatureIs(ix, start, steps, i);
  }

  /** A term with the normal form of an operation other than the small side is an operation whose
      operands have the normal forms of its operands. */
  lemma NormalOperands(ru: Rule, u: Term, n: Term)
    requires GoodRule(ru) && n.Op? && n != ru.small && Nf(u, ru) == n
    ensures u.Op? && Nf(u.left, ru) == n.left && Nf(u.right, ru) == n.right
  {
  }

  /** If the classes of the two operands are complete, so is the class of the operation after the round. */
  lemma OperandsDone(ix: Index, start: Roots, steps: seq<Step>, n: Term, u: Term)
    requires Setting(ix) && Trace(ix.sys, start, steps) && |steps| == |ix.sys.entries| + 1
    requires InTrace(n) && n.Op? && InTrace(n.left) && InTrace(n.right) && Nf(n, ix.ru) == n && n != ix.ru.small
    requires start.Keys == ix.sys.keys && InTrace(u) && Nf(u, ix.ru) == n
    requires IsDone(ix, start, n.left) && IsDone(ix, start, n.right)
    ensures steps[|ix.sys.entries|].r.Keys == ix.sys.keys
    ensures RootOfTerm(ix, steps[|ix.sys.entries|].r, u) == RootOfTerm(ix, steps[|ix.sys.entries|].r, n)
  {
    var m := |ix.sys.entries|;
    KeysOfTrace(ix, start, steps, m);
    if u != n {
      NormalOperands(ix.ru, u, n);
      NormalOperands(ix.ru, n, n);
      var i := OpIndex(ix, start, steps, u);
      var j := OpIndex(ix, start, steps, n);
      DoneKeepsRoots(ix, start, steps, i, n.left);
      DoneKeepsRoots(ix, start, steps, i, n.right);
      DoneKeepsRoots(ix, start, steps, j, n.left);
      DoneKeepsRoots(ix, start, steps, j, n.right);
      SameSignatureJoins(ix.sys, start, steps, i, j, m);
    }
  }

  /** All classes whose normal form has at most `j` operations are complete. */
  ghost predicate DoneUpTo(ix: Index, r: Roots, j: nat)
    requires Setting(ix) && r.Keys == ix.sys.keys
  {
    forall n :: InTrace(n) && Nf(n, ix.ru) == n && Ops(n) <= j ==> IsDone(ix, r, n)
  }

  ghost predicate SmallDone(ix: Index, r: Roots)
    requires Setting(ix) && r.Keys == ix.sys.keys
  {
    InTrace(ix.ru.small) ==> IsDone(ix, r, ix.ru.small)
  }

  lemma RoundKeys(ix: Index, r: Roots, q: Roots)
    requires Setting(ix) && RoundFrom(ix.sys, r, q)
    ensures r.Keys == q.Keys == ix.sys.keys && Justified(r, ix.sys) && Justified(q, ix.sys)
  {
    var steps: seq<Step> :| Trace(ix.sys, r, steps) && |steps| == |ix.sys.entries| + 1 && steps[|ix.sys.entries|].r == q;
    KeysOfTrace(ix, r, steps, 0);
    KeysOfTrace(ix, r, steps, |ix.sys.entries|);
  }

  lemma DoneStays(ix: Index, r: Roots, q: Roots, n: Term)
    requires Setting(ix) && RoundFrom(ix.sys, r, q) && r.Keys == q.Keys == ix.sys.keys
    requires InTrace(n) && Nf(n, ix.ru) == n && IsDone(ix, r, n)
    ensures RootsKept(ix, r, q, n) && IsDone(ix, q, n)
  {
    var steps: seq<Step> :| Trace(ix.sys, r, steps) && |steps| == |ix.sys.entries| + 1 && steps[|ix.sys.entries|].r == q;
    DoneKeepsRoots(ix, r, steps, |ix.sys.entries|, n);
  }

  lemma OpBecomesDone(ix: Index, r: Roots, q: Roots, n: Term)
    requires Setting(ix) && RoundFrom(ix.sys, r, q) && r.Keys == q.Keys == ix.sys.keys
    requires InTrace(n) && n.Op? && Nf(n, ix.ru) == n && n != ix.ru.small
    requires InTrace(n.left) && InTrace(n.right) && IsDone(ix, r, n.left) && IsDone(ix, r, n.right)
    ensures IsDone(ix, q, n)
  {
    var steps: seq<Step> :| Trace(ix.sys, r, steps) && |steps| == |ix.sys.entries| + 1 && steps[|ix.sys.entries|].r == q;
    forall u | InTrace(u) && Nf(u, ix.ru) == n ensures RootOfTerm(ix, q, u) == RootOfTerm(ix, q, n) {
      OperandsDone(ix, r, steps, n, u);
    }
  }

  /** With the class of the small side complete, a round completes the classes of the next size. */
  lemma RoundCompletes(ix: Index, r: Roots, q: Roots, j: nat)
    requires Setting(ix) && RoundFrom(ix.sys, r, q) && r.Keys == q.Keys == ix.sys.keys
    requires DoneUpTo(ix, r, j) && SmallDone(ix, r)
    ensures DoneUpTo(ix, q, j + 1) && SmallDone(ix, q)
  {
    SmallIsNormal(ix.ru.small, ix.ru);
    forall n | InTrace(n) && Nf(n, ix.ru) == n && Ops(n) <= j + 1 ensures IsDone(ix, q, n) {
      if n == ix.ru.small || Ops(n) <= j {
        DoneStays(ix, r, q, n);
      } else {
        NormalOperands(ix.ru, n, n);
        OpBecomesDone(ix, r, q, n);
      }
    }
    if InTrace(ix.ru.small) {
      DoneStays(ix, r, q, ix.ru.small);
    }
  }

  /** When all classes are complete, a round changes nothing. */
  lemma AllDoneIsStill(ix: Index, r: Roots, q: Roots)
    requires Setting(ix) && RoundFrom(ix.sys, r, q) && r.Keys == q.Keys == ix.sys.keys
    requires DoneUpTo(ix, r, TRACE_DEPTH)
    ensures q == r
  {
    forall k | k in r ensures q[k] == r[k] {
      var t := KeyHasTerm(ix, k);
      var n := Nf(t, ix.ru);
      NfInTrace(ix, t);
      DoneStays(ix, r, q, n);
      assert RootOfTerm(ix, q, t) == RootOfTerm(ix, r, t);
    }
  }

  // ------------------------------------------------- the first incomplete term

  /** The term is in the class of its normal form. */
  ghost predicate Complete(ix: Index, r: Roots, t: Term)
    requires Setting(ix) && r.Keys == ix.sys.keys && InTrace(t)
  {
    NfInTrace(ix, t);
    RootOfTerm(ix, r, t) == RootOfTerm(ix, r, Nf(t, ix.ru))
  }

  /** A set of normal forms that contains those of the operands of each of its terms. */
  ghost predicate Closed(ix: Index, w: iset<Term>)
  {
    forall t :: InTrace(t) && t.Op? && t != ix.ru.big && Nf(t, ix.ru) in w ==>
                  Nf(t.left, ix.ru) in w && Nf(t.right, ix.ru) in w
  }

  /** The operations before position `i` with a normal form in `w` are complete. */
  ghost predicate CompleteBefore(ix: Index, r: Roots, w: iset<Term>, i: nat)
    requires Setting(ix) && r.Keys == ix.sys.keys && i <= |ix.ops|
  {
    forall j :: 0 <= j < i && OpAt(ix, j) && Nf(ix.ops[j], ix.ru) in w ==> Complete(ix, r, ix.ops[j])
  }

  lemma LeafIsNormal(ix: Index, t: Term)
    requires Setting(ix) && InTrace(t) && t.Var?
    ensures Nf(t, ix.ru) == t
  {
  }

  lemma EarlyIsQuiet(ix: Index, r: Roots, now: Roots, w: iset<Term>, i: nat, k: nat, n: Term)
    requires Setting(ix) && r.Keys == now.Keys == ix.sys.keys && k < i <= |ix.ops|
    requires CompleteBefore(ix, r, w, i) && n in w && RootsKept(ix, r, now, n)
    ensures Quiet(ix, now, k, n)
  {
    assert OpAt(ix, k);
    if Nf(ix.ops[k], ix.ru) == n {
      assert Complete(ix, r, ix.ops[k]);
      forall j | 0 <= j < k && OpAt(ix, j) && Nf(ix.ops[j], ix.ru) == n
        ensures RootOfTerm(ix, now, ix.ops[j]) == RootOfTerm(ix, now, ix.ops[k])
      {
        assert Complete(ix, r, ix.ops[j]);
      }
    }
  }

  ghost predicate KeptAlongUpTo(ix: Index, steps: seq<Step>, i: nat, n: Term)
    requires Setting(ix) && i < |steps|
  {
    && (forall k :: 0 <= k < |steps| ==> steps[k].r.Keys == ix.sys.keys)
    && forall k :: 0 <= k < i && RootsKept(ix, steps[0].r, steps[k].r, n) ==> RootsKept(ix, steps[k].r, steps[k + 1].r, n)
  }

  lemma {:induction false} KeptUpTo(ix: Index, steps: seq<Step>, i: nat, k: nat, n: Term)
    requires Setting(ix) && k <= i < |steps| && KeptAlongUpTo(ix, steps, i, n)
    ensures RootsKept(ix, steps[0].r, steps[k].r, n)
  {
    if k == 0 {
    } else {
      KeptUpTo(ix, steps, i, k - 1, n);
      RootsKeptTwice(ix, steps[0].r, steps[k - 1].r, steps[k].r, n);
    }
  }

  /** Up to the first incomplete operation no root of a class in `w` changes. */
  lemma RootsKeptBefore(ix: Index, start: Roots, steps: seq<Step>, w: iset<Term>, i: nat, k: nat, n: Term)
    requires Setting(ix) && Trace(ix.sys, start, steps) && start.Keys == ix.sys.keys
    requires k <= i < |steps| && i <= |ix.ops| && CompleteBefore(ix, start, w, i) && n in w
    ensures steps[k].r.Keys == ix.sys.keys && RootsKept(ix, start, steps[k].r, n)
  {
    forall j | 0 <= j < |steps| ensures steps[j].r.Keys == ix.sys.keys {
      KeysOfTrace(ix, start, steps, j);
    }
    forall j | 0 <= j < i && RootsKept(ix, steps[0].r, steps[j].r, n)
      ensures RootsKept(ix, steps[j].r, steps[j + 1].r, n)
    {
      EarlyIsQuiet(ix, start, steps[j].r, w, i, j, n);
      QuietStep(ix, start, steps, j, n);
    }
    KeptUpTo(ix, steps, i, k, n);
  }

  lemma EarlierIsNotLarger(ix: Index, i: nat, j: nat)
    requires Setting(ix) && j <= i < |ix.ops|
    ensures Ops(ix.ops[j]) <= Ops(ix.ops[i])
  {
    if j < i {
      assert SizesAt(ix.ops, j, i);
    }
  }

  /** A smaller operation has been visited before. */
  lemma SmallerIsEarlier(ix: Index, i: nat, j: nat)
    requires Setting(ix) && i < |ix.ops| && j < |ix.ops| && Ops(ix.ops[j]) < Ops(ix.ops[i])
    ensures j < i
  {
    if i <= j {
      EarlierIsNotLarger(ix, j, i);
    }
  }

  lemma OperandIsComplete(ix: Index, r: Roots, w: iset<Term>, i: nat, t: Term)
    requires Setting(ix) && r.Keys == ix.sys.keys && i < |ix.ops| && CompleteBefore(ix, r, w, i)
    requires InTrace(t) && Nf(t, ix.ru) in w && Ops(t) < Ops(ix.ops[i])
    ensures Complete(ix, r, t)
  {
    if t.Var? {
      LeafIsNormal(ix, t);
    } else {
      assert OpKnown(ix, t);
      var j: nat :| j < |ix.ops| && ix.ops[j] == t;
      SmallerIsEarlier(ix, i, j);
      assert OpAt(ix, j);
    }
  }

  /** The rewritten form of an operation, as it stands before its head is rewritten. */
  function Inner(t: Term, ru: Rule): Term
    requires t.Op?
  {
    Op(Nf(t.left, ru), Nf(t.right, ru))
  }

  lemma InnerIsSmaller(ix: Index, t: Term)
    requires Setting(ix) && Ops(ix.ru.small) < Ops(ix.ru.big) && InTrace(t) && t.Op?
    ensures InTrace(t.left) && InTrace(t.right) && InTrace(Inner(t, ix.ru))
    ensures Inner(t, ix.ru) == t || Ops(Inner(t, ix.ru)) < Ops(t)
    ensures Nf(Inner(t, ix.ru), ix.ru) == Nf(t, ix.ru)
    ensures Inner(t, ix.ru) == ix.ru.big || Inner(t, ix.ru) == Nf(t, ix.ru)
  {
    NfInTrace(ix, t.left);
    NfInTrace(ix, t.right);
    NfShrinks(t.left, ix.ru);
    NfShrinks(t.right, ix.ru);
  }

  lemma BigStaysJoined(ix: Index, start: Roots, steps: seq<Step>, k: nat)
    requires Setting(ix) && Trace(ix.sys, start, steps) && k < |steps| && Started(ix, start)
    ensures Started(ix, steps[k].r)
  {
    KeysOfTrace(ix, start, steps, k);
    ClassesStay(ix.sys, start, steps, 0, k);
    if InTrace(ix.ru.big) {
      assert KeyKnown(ix, ix.ru.big) && KeyKnown(ix, ix.ru.small);
    }
  }

  /** The root of an operand when its operation is visited is the one its normal form had earlier. */
  lemma OperandsMeet(ix: Index, start: Roots, steps: seq<Step>, w: iset<Term>, i: nat, j: nat, a: Term)
    requires Setting(ix) && Trace(ix.sys, start, steps) && start.Keys == ix.sys.keys
    requires j <= i < |steps| && i < |ix.ops| && CompleteBefore(ix, start, w, i)
    requires InTrace(a) && Nf(a, ix.ru) in w && Ops(a) < Ops(ix.ops[i])
    ensures steps[i].r.Keys == steps[j].r.Keys == ix.sys.keys && InTrace(Nf(a, ix.ru))
    ensures RootOfTerm(ix, steps[i].r, a) == RootOfTerm(ix, steps[j].r, Nf(a, ix.ru))
  {
    NfInTrace(ix, a);
    OperandIsComplete(ix, start, w, i, a);
    RootsKeptBefore(ix, start, steps, w, i, i, Nf(a, ix.ru));
    RootsKeptBefore(ix, start, steps, w, i, j, Nf(a, ix.ru));
  }

  /** The first incomplete operation of a closed set is complete after the round: its operands are,
      and their roots have not moved since the operation it is to be joined with was visited. */
  lemma FirstBecomesComplete(ix: Index, start: Roots, steps: seq<Step>, w: iset<Term>, i: nat)
    requires Setting(ix) && Trace(ix.sys, start, steps) && |steps| == |ix.sys.entries| + 1
    requires Started(ix, start) && Ops(ix.ru.small) < Ops(ix.ru.big) && Closed(ix, w)
    requires i < |ix.ops| && CompleteBefore(ix, start, w, i) && OpAt(ix, i) && Nf(ix.ops[i], ix.ru) in w
    ensures steps[|ix.sys.entries|].r.Keys == ix.sys.keys && Complete(ix, steps[|ix.sys.entries|].r, ix.ops[i])
  {
    var m, u := |ix.sys.entries|, ix.ops[i];
    var v := Inner(u, ix.ru);
    KeysOfTrace(ix, start, steps, m);
    InnerIsSmaller(ix, u);
    BigStaysJoined(ix, start, steps, m);
    BigIsRewritten(ix.ru);
    if u != ix.ru.big && v != u {
      var j := OpIndex(ix, start, steps, v);
      SmallerIsEarlier(ix, i, j);
      OperandsMeet(ix, start, steps, w, i, j, u.left);
      OperandsMeet(ix, start, steps, w, i, j, u.right);
      SignatureIs(ix, start, steps, i);
      SameSignatureJoins(ix.sys, start, steps, i, j, m);
    }
  }

  // -------------------------------------------------- how many rounds it takes

  ghost predicate RoundAt(ix: Index, history: seq<Roots>, k: nat)
    requires k + 1 < |history|
  {
    RoundFrom(ix.sys, history[k], history[k + 1])
  }

  /** The root maps of consecutive rounds. */
  ghost predicate Consecutive(ix: Index, history: seq<Roots>)
    requires Setting(ix)
  {
    && (forall k :: 0 <= k < |history| ==> history[k].Keys == ix.sys.keys)
    && forall k {:trigger RoundAt(ix, history, k)} :: 0 <= k < |history| - 1 ==> RoundAt(ix, history, k)
  }

  lemma RoundKeepsStarted(ix: Index, r: Roots, q: Roots)
    requires Setting(ix) && RoundFrom(ix.sys, r, q) && Started(ix, r)
    ensures Started(ix, q)
  {
    var steps: seq<Step> :| Trace(ix.sys, r, steps) && |steps| == |ix.sys.entries| + 1 && steps[|ix.sys.entries|].r == q;
    BigStaysJoined(ix, r, steps, |ix.sys.entries|);
  }

  lemma CompleteStays(ix: Index, r: Roots, q: Roots, t: Term)
    requires Setting(ix) && RoundFrom(ix.sys, r, q) && r.Keys == q.Keys == ix.sys.keys
    requires InTrace(t) && Complete(ix, r, t)
    ensures Complete(ix, q, t)
  {
    var steps: seq<Step> :| Trace(ix.sys, r, steps) && |steps| == |ix.sys.entries| + 1 && steps[|ix.sys.entries|].r == q;
    ClassesStay(ix.sys, r, steps, 0, |ix.sys.entries|);
    NfInTrace(ix, t);
    assert KeyKnown(ix, t) && KeyKnown(ix, Nf(t, ix.ru));
  }

  /** An operation with a normal form in `w` that is not complete. */
  ghost predicate Lacking(ix: Index, r: Roots, w: iset<Term>, i: nat)
    requires Setting(ix) && r.Keys == ix.sys.keys && i < |ix.ops|
  {
    OpAt(ix, i) && Nf(ix.ops[i], ix.ru) in w && !Complete(ix, r, ix.ops[i])
  }

  lemma FirstLacking(ix: Index, r: Roots, w: iset<Term>, i: nat) returns (first: nat)
    requires Setting(ix) && r.Keys == ix.sys.keys && i < |ix.ops| && Lacking(ix, r, w, i)
    ensures first <= i && Lacking(ix, r, w, first) && CompleteBefore(ix, r, w, first)
    decreases i
  {
    if CompleteBefore(ix, r, w, i) {
      first := i;
    } else {
      var j: nat :| j < i && OpAt(ix, j) && Nf(ix.ops[j], ix.ru) in w && !Complete(ix, r, ix.ops[j]);
      first := FirstLacking(ix, r, w, j);
    }
  }

  /** The terms of `list` are all the terms up to a size that have to be rewritten to get into `w`. */
  ghost predicate Lists(ix: Index, w: iset<Term>, list: seq<Term>, size: nat)
  {
    && (forall i :: 0 <= i < |list| ==> InTrace(list[i]) && Ops(list[i]) <= size && list[i].Op? && Nf(list[i], ix.ru) in w)
    && forall t :: InTrace(t) && Ops(t) <= size && Nf(t, ix.ru) in w && Nf(t, ix.ru) != t && t != ix.ru.big ==> t in list
  }

  ghost function LackingOf(ix: Index, r: Roots, list: seq<Term>): set<int>
    requires Setting(ix) && r.Keys == ix.sys.keys && forall i :: 0 <= i < |list| ==> InTrace(list[i])
  {
    set i | 0 <= i < |list| && !Complete(ix, r, list[i])
  }

  lemma StartedBigIsComplete(ix: Index, r: Roots)
    requires Setting(ix) && Started(ix, r) && InTrace(ix.ru.big)
    ensures Complete(ix, r, ix.ru.big)
  {
    BigIsRewritten(ix.ru);
  }

  lemma NotListedIsComplete(ix: Index, r: Roots, w: iset<Term>, list: seq<Term>, size: nat, t: Term)
    requires Setting(ix) && Started(ix, r) && Lists(ix, w, list, size)
    requires InTrace(t) && Ops(t) <= size && Nf(t, ix.ru) in w
    ensures t in list || Complete(ix, r, t)
  {
    if t == ix.ru.big {
      StartedBigIsComplete(ix, r);
    }
  }

  lemma FirstOfList(ix: Index, r: Roots, w: iset<Term>, list: seq<Term>, size: nat, l: nat) returns (first: nat, m: nat)
    requires Setting(ix) && Started(ix, r) && Lists(ix, w, list, size)
    requires l < |list| && !Complete(ix, r, list[l])
    ensures first < |ix.ops| && Lacking(ix, r, w, first) && CompleteBefore(ix, r, w, first)
    ensures m < |list| && list[m] == ix.ops[first]
  {
    assert OpKnown(ix, list[l]);
    var i: nat :| i < |ix.ops| && ix.ops[i] == list[l];
    assert OpAt(ix, i);
    first := FirstLacking(ix, r, w, i);
    EarlierIsNotLarger(ix, i, first);
    NotListedIsComplete(ix, r, w, list, size, ix.ops[first]);
    m :| 0 <= m < |list| && list[m] == ix.ops[first];
  }

  /** As long as a listed term is incomplete, every round completes one. */
  lemma RoundCompletesOne(ix: Index, r: Roots, q: Roots, w: iset<Term>, list: seq<Term>, size: nat, l: nat) returns (m: nat)
    requires Setting(ix) && RoundFrom(ix.sys, r, q) && r.Keys == q.Keys == ix.sys.keys && Started(ix, r)
    requires Ops(ix.ru.small) < Ops(ix.ru.big) && Closed(ix, w) && Lists(ix, w, list, size)
    requires l < |list| && !Complete(ix, r, list[l])
    ensures m < |list| && !Complete(ix, r, list[m]) && Complete(ix, q, list[m])
  {
    var first;
    first, m := FirstOfList(ix, r, w, list, size, l);
    var steps: seq<Step> :| Trace(ix.sys, r, steps) && |steps| == |ix.sys.entries| + 1 && steps[|ix.sys.entries|].r == q;
    FirstBecomesComplete(ix, r, steps, w, first);
  }

  lemma ProperSubset(a: set<int>, b: set<int>)
    requires a < b
    ensures |a| < |b|
  {
    var rest := b - a;
    assert b == a + rest && rest != {};
    assert |b| == |a| + |rest|;
  }

  lemma FewerLacking(ix: Index, r: Roots, q: Roots, w: iset<Term>, list: seq<Term>, size: nat)
    requires Setting(ix) && RoundFrom(ix.sys, r, q) && r.Keys == q.Keys == ix.sys.keys && Started(ix, r)
    requires Ops(ix.ru.small) < Ops(ix.ru.big) && Closed(ix, w) && Lists(ix, w, list, size)
    ensures LackingOf(ix, q, list) <= LackingOf(ix, r, list)
    ensures LackingOf(ix, r, list) != {} ==> |LackingOf(ix, q, list)| < |LackingOf(ix, r, list)|
  {
    var before, after := LackingOf(ix, r, list), LackingOf(ix, q, list);
    forall i | i in after ensures i in before {
      if Complete(ix, r, list[i]) {
        CompleteStays(ix, r, q, list[i]);
      }
    }
    if before != {} {
      var l :| l in before;
      var m := RoundCompletesOne(ix, r, q, w, list, size, l);
      assert m in before && m !in after;
      ProperSubset(after, before);
    }
  }

  lemma {:induction false} SetBelow(s: set<int>, n: nat)
    requires forall i :: i in s ==> 0 <= i < n
    ensures |s| <= n
  {
    if n == 0 {
      forall i: int ensures i !in s {
      }
      assert s == {};
    } else {
      SetBelow(s - {n - 1}, n - 1);
    }
  }

  ghost predicate AtMostLacking(ix: Index, r: Roots, list: seq<Term>, n: nat)
    requires Setting(ix) && r.Keys == ix.sys.keys && forall i :: 0 <= i < |list| ==> InTrace(list[i])
  {
    Started(ix, r) && |LackingOf(ix, r, list)| <= n
  }

  lemma OneLessLacking(ix: Index, r: Roots, q: Roots, w: iset<Term>, list: seq<Term>, size: nat, n: nat, n': nat)
    requires Setting(ix) && RoundFrom(ix.sys, r, q) && r.Keys == q.Keys == ix.sys.keys
    requires Ops(ix.ru.small) < Ops(ix.ru.big) && Closed(ix, w) && Lists(ix, w, list, size)
    requires AtMostLacking(ix, r, list, n) && (n' == n - 1 || n' == n == 0)
    ensures AtMostLacking(ix, q, list, n')
  {
    RoundKeepsStarted(ix, r, q);
    FewerLacking(ix, r, q, w, list, size);
    if LackingOf(ix, r, list) == {} {
      assert LackingOf(ix, q, list) == {};
    }
  }

  /** After `k` rounds at most the rest of the list is incomplete. */
  ghost predicate LackingAt(ix: Index, history: seq<Roots>, list: seq<Term>, k: nat)
    requires Setting(ix) && Consecutive(ix, history) && k < |history| && forall i :: 0 <= i < |list| ==> InTrace(list[i])
  {
    k <= |list| && AtMostLacking(ix, history[k], list, |list| - k)
  }

  lemma ListStep(ix: Index, history: seq<Roots>, w: iset<Term>, list: seq<Term>, size: nat, k: nat)
    requires Setting(ix) && Consecutive(ix, history) && k + 1 < |history| && k < |list|
    requires Ops(ix.ru.small) < Ops(ix.ru.big) && Closed(ix, w) && Lists(ix, w, list, size)
    requires LackingAt(ix, history, list, k)
    ensures LackingAt(ix, history, list, k + 1)
  {
    assert RoundAt(ix, history, k);
    OneLessLacking(ix, history[k], history[k + 1], w, list, size, |list| - k, |list| - k - 1);
  }

  /** After as many rounds as the list is long, all of it is complete. */
  lemma ListCompletes(ix: Index, history: seq<Roots>, w: iset<Term>, list: seq<Term>, size: nat)
    requires Setting(ix) && Consecutive(ix, history) && |list| < |history| && Started(ix, history[0])
    requires Ops(ix.ru.small) < Ops(ix.ru.big) && Closed(ix, w) && Lists(ix, w, list, size)
    ensures LackingAt(ix, history, list, |list|)
  {
    SetBelow(LackingOf(ix, history[0], list), |list|);
    var k := 0;
    while k < |list|
      invariant 0 <= k <= |list| && LackingAt(ix, history, list, k)
    {
      ListStep(ix, history, w, list, size, k);
      k := k + 1;
    }
  }

  /** All terms up to a size with normal forms in `w` are complete. */
  ghost predicate CompleteUpTo(ix: Index, r: Roots, w: iset<Term>, size: nat)
    requires Setting(ix) && r.Keys == ix.sys.keys
  {
    forall t :: InTrace(t) && Ops(t) <= size && Nf(t, ix.ru) in w ==> Complete(ix, r, t)
  }

  lemma CompleteAfterList(ix: Index, history: seq<Roots>, w: iset<Term>, list: seq<Term>, size: nat)
    requires Setting(ix) && Consecutive(ix, history) && |list| < |history| && Started(ix, history[0])
    requires Ops(ix.ru.small) < Ops(ix.ru.big) && Closed(ix, w) && Lists(ix, w, list, size)
    ensures CompleteUpTo(ix, history[|list|], w, size)
  {
    var r := history[|list|];
    ListCompletes(ix, history, w, list, size);
    assert LackingOf(ix, r, list) == {};
    forall t | InTrace(t) && Ops(t) <= size && Nf(t, ix.ru) in w ensures Complete(ix, r, t) {
      NotListedIsComplete(ix, r, w, list, size, t);
      if t in list {
        var i :| 0 <= i < |list| && list[i] == t;
        assert i !in LackingOf(ix, r, list);
      }
    }
  }

  /** From a root map with the small side's class complete, five more rounds complete everything. */
  lemma {:induction false} SizesComplete(ix: Index, history: seq<Roots>, from: nat, j: nat)
    requires Setting(ix) && Consecutive(ix, history) && from + j < |history|
    requires DoneUpTo(ix, history[from], 0) && SmallDone(ix, history[from])
    ensures DoneUpTo(ix, history[from + j], j) && SmallDone(ix, history[from + j])
  {
    if j == 0 {
    } else {
      SizesComplete(ix, history, from, j - 1);
      assert RoundAt(ix, history, from + j - 1);
      RoundCompletes(ix, history[from + j - 1], history[from + j], j - 1);
    }
  }

  /** All classes are complete. */
  ghost predicate AllDone(ix: Index, r: Roots)
    requires Setting(ix) && r.Keys == ix.sys.keys
  {
    DoneUpTo(ix, r, TRACE_DEPTH)
  }

  /** The leaf and the square of the leaf are the only terms of their sizes. */
  lemma TinyTerms(t: Term)
    requires OverRoles(t, TRACE_ROLES)
    ensures Ops(t) == 0 <==> t == X
    ensures Ops(t) == 1 <==> t == XX
  {
    match t
    case Var(_) =>
    case Op(l, r) =>
      if Ops(t) == 1 {
        TinyTerms(l);
        TinyTerms(r);
      }
  }

  /** All terms of the universe, as a set that every normal form lies in. */
  ghost function Everything(): iset<Term>
  {
    iset t | InTrace(t)
  }

  /** If every term is complete, so is every class. */
  lemma CompleteMeansDone(ix: Index, r: Roots)
    requires Setting(ix) && r.Keys == ix.sys.keys && CompleteUpTo(ix, r, Everything(), TRACE_DEPTH)
    ensures AllDone(ix, r)
  {
    forall n | InTrace(n) && Nf(n, ix.ru) == n ensures IsDone(ix, r, n) {
      forall u | InTrace(u) && Nf(u, ix.ru) == n ensures RootOfTerm(ix, r, u) == RootOfTerm(ix, r, n) {
        assert Complete(ix, r, u);
      }
    }
  }
}
