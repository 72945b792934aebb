/** The cap of twelve rounds never cuts the one-role closure short: whatever the law, after at most
    ten rounds every class is complete. */
module TraceCap {
  import opened Congruence
  import opened GroundRule
  import opened Terms
  import opened TraceFold
  import opened TraceRounds
  import opened UnionFinds

  /** A leaf other than the small side is alone in its class. */
  lemma LeavesDone(ix: Index, r: Roots)
    requires Setting(ix) && r.Keys == ix.sys.keys && SmallDone(ix, r)
    ensures DoneUpTo(ix, r, 0)
  {
    forall n | InTrace(n) && Nf(n, ix.ru) == n && Ops(n) <= 0 ensures IsDone(ix, r, n) {
      TinyTerms(n);
      if n != ix.ru.small {
        forall u | InTrace(u) && Nf(u, ix.ru) == n ensures RootOfTerm(ix, r, u) == RootOfTerm(ix, r, n) {
          assert u.Var?;
          TinyTerms(u);
        }
      }
    }
  }

  /** Once the class of the small side is complete, five rounds complete everything. */
  lemma FiveMoreRounds(ix: Index, history: seq<Roots>, from: nat)
    requires Setting(ix) && Consecutive(ix, history) && from + TRACE_DEPTH < |history| && SmallDone(ix, history[from])
    ensures AllDone(ix, history[from + TRACE_DEPTH])
  {
    LeavesDone(ix, history[from]);
    SizesComplete(ix, history, from, TRACE_DEPTH);
  }

  // ------------------------------------------------------- nothing to rewrite

  lemma NothingToRewrite(ix: Index, r: Roots)
    requires Setting(ix) && r.Keys == ix.sys.keys && !InTrace(ix.ru.big)
    ensures AllDone(ix, r)
  {
    forall n | InTrace(n) ensures IsDone(ix, r, n) {
      forall u | InTrace(u) && Nf(u, ix.ru) == n ensures RootOfTerm(ix, r, u) == RootOfTerm(ix, r, n) {
        OutsideIsNormal(u, ix.ru);
      }
    }
  }

  // ----------------------------------------------------- sides of equal size

  lemma {:induction false} NfKeepsSize(t: Term, ru: Rule)
    requires Ops(ru.small) == Ops(ru.big)
    ensures Ops(Nf(t, ru)) == Ops(t)
  {
    match t
    case Var(_) =>
    case Op(l, r) =>
      NfKeepsSize(l, ru);
      NfKeepsSize(r, ru);
  }

  lemma EqualSizes(ix: Index, r: Roots)
    requires Setting(ix) && Started(ix, r) && InTrace(ix.ru.big) && Ops(ix.ru.small) == Ops(ix.ru.big)
    ensures SmallDone(ix, r)
  {
    var n := ix.ru.small;
    forall u | InTrace(u) && Nf(u, ix.ru) == n ensures RootOfTerm(ix, r, u) == RootOfTerm(ix, r, n) {
      NfKeepsSize(u, ix.ru);
      if u != ix.ru.big {
        SmallIsNormal(u, ix.ru);
      }
    }
  }

  // -------------------------------------------------------- a large big side

  /** The terms that contain a term of at least three operations, are larger, and fit the universe. */
  function Around(t: Term): seq<Term>
  {
    if Ops(t) >= 5 then []
    else if Ops(t) == 4 then [Op(t, X), Op(X, t)]
    else [Op(t, X), Op(X, t), Op(Op(t, X), X), Op(X, Op(t, X)), Op(Op(X, t), X), Op(X, Op(X, t)), Op(t, XX), Op(XX, t)]
  }

  lemma {:induction false} RewrittenIsAround(t: Term, ru: Rule)
    requires InTrace(t) && Ops(ru.big) >= 3 && Nf(t, ru) != t && t != ru.big
    ensures Ops(ru.big) < Ops(t) && t in Around(ru.big)
  {
    if Ops(t) <= Ops(ru.big) {
      SmallIsNormal(t, ru);
    }
    match t
    case Op(l, r) =>
      TinyTerms(l);
      TinyTerms(r);
      if Nf(l, ru) != l {
        if l != ru.big { RewrittenIsAround(l, ru); }
        else { assert Nf(l, ru) != l; }
        if Ops(l) < Ops(ru.big) { SmallIsNormal(l, ru); }
      } else {
        if r != ru.big { RewrittenIsAround(r, ru); }
        if Ops(r) < Ops(ru.big) { SmallIsNormal(r, ru); }
      }
  }

  lemma AroundFits(t: Term)
    requires InTrace(t) && Ops(t) >= 3
    ensures |Around(t)| <= 8
    ensures forall i :: 0 <= i < |Around(t)| ==> InTrace(Around(t)[i]) && Around(t)[i].Op?
  {
    assert OverRoles(X, TRACE_ROLES) && OverRoles(XX, TRACE_ROLES) && Ops(XX) == 1;
    if Ops(t) == 3 {
      assert InTrace(Op(t, X)) && InTrace(Op(X, t)) && InTrace(Op(t, XX)) && InTrace(Op(XX, t));
      assert InTrace(Op(Op(t, X), X)) && InTrace(Op(X, Op(t, X)));
      assert InTrace(Op(Op(X, t), X)) && InTrace(Op(X, Op(X, t)));
    }
  }

  lemma AroundIsList(ix: Index)
    requires Setting(ix) && InTrace(ix.ru.big) && Ops(ix.ru.big) >= 3
    ensures Lists(ix, Everything(), Around(ix.ru.big), TRACE_DEPTH) && Closed(ix, Everything())
  {
    var list := Around(ix.ru.big);
    AroundFits(ix.ru.big);
    forall i | 0 <= i < |list| ensures Nf(list[i], ix.ru) in Everything() {
      NfInTrace(ix, list[i]);
    }
    forall t | InTrace(t) && Nf(t, ix.ru) != t && t != ix.ru.big ensures t in list {
      RewrittenIsAround(t, ix.ru);
    }
    EverythingIsClosed(ix);
  }

  lemma LargeRule(ix: Index, history: seq<Roots>)
    requires Setting(ix) && Consecutive(ix, history) && 8 < |history| && Started(ix, history[0])
    requires InTrace(ix.ru.big) && 3 <= Ops(ix.ru.big) && Ops(ix.ru.small) < Ops(ix.ru.big)
    ensures |Around(ix.ru.big)| <= 8 && AllDone(ix, history[|Around(ix.ru.big)|])
  {
    AroundFits(ix.ru.big);
    AroundIsList(ix);
    CompleteAfterList(ix, history, Everything(), Around(ix.ru.big), TRACE_DEPTH);
    CompleteMeansDone(ix, history[|Around(ix.ru.big)|]);
  }

  // ------------------------------------------- a big side of two operations

  /** The operation, or the one with its sides exchanged. */
  function Turned(flip: bool, a: Term, b: Term): Term
  {
    if flip then Op(b, a) else Op(a, b)
  }

  ghost function Tiny(): iset<Term>
  {
    iset{X, XX}
  }

  /** How often a term is rewritten on the way to its normal form. */
  function Rewrites(t: Term, ru: Rule): nat
  {
    match t
    case Var(_) => 0
    case Op(l, r) => Rewrites(l, ru) + Rewrites(r, ru) + if Op(Nf(l, ru), Nf(r, ru)) == ru.big then 1 else 0
  }

  /** Rewriting two operations to none keeps the number of operations even or odd. */
  lemma {:induction false} NfKeepsParity(t: Term, ru: Rule)
    requires ru.big.Op? && Ops(ru.big) == Ops(ru.small) + 2
    ensures Ops(t) == Ops(Nf(t, ru)) + 2 * Rewrites(t, ru)
  {
    match t
    case Var(_) =>
    case Op(l, r) =>
      NfKeepsParity(l, ru);
      NfKeepsParity(r, ru);
  }

  /** The rule x(xx) -> x, or (xx)x -> x. */
  predicate Vanishing(ru: Rule, flip: bool)
  {
    ru == Rule(Turned(flip, X, XX), X)
  }

  function VanishingList(flip: bool): seq<Term>
  {
    var t := Turned(flip, X, XX);
    [Op(X, t), Op(t, X), Turned(flip, X, Op(X, t)), Turned(flip, X, Op(t, X)), Turned(flip, t, XX)]
  }

  lemma VanishingOperands(t: Term, ru: Rule, flip: bool)
    requires Vanishing(ru, flip) && t.Op?
    ensures Nf(t, ru) == X <==> Op(Nf(t.left, ru), Nf(t.right, ru)) == Turned(flip, X, XX)
    ensures Nf(t, ru) == XX <==> Nf(t.left, ru) == X && Nf(t.right, ru) == X
  {
  }

  lemma VanishingSmall(t: Term, ru: Rule, flip: bool)
    requires Vanishing(ru, flip) && OverRoles(t, TRACE_ROLES) && Ops(t) <= 2
    ensures Nf(t, ru) == X ==> t == X || t == ru.big
    ensures Nf(t, ru) == XX ==> t == XX
  {
    NfKeepsParity(t, ru);
    TinyTerms(t);
    if t != ru.big {
      SmallIsNormal(t, ru);
    }
  }

  lemma VanishingThree(t: Term, ru: Rule, flip: bool)
    requires Vanishing(ru, flip) && OverRoles(t, TRACE_ROLES) && Ops(t) <= 3
    ensures Nf(t, ru) == X ==> t == X || t == ru.big
    ensures Nf(t, ru) == XX ==> t == XX || t == Op(X, ru.big) || t == Op(ru.big, X)
  {
    NfKeepsParity(t, ru);
    TinyTerms(t);
    match t
    case Var(_) =>
    case Op(l, r) =>
      VanishingOperands(t, ru, flip);
      VanishingSmall(l, ru, flip);
      VanishingSmall(r, ru, flip);
  }

  lemma VanishingListed(t: Term, ru: Rule, flip: bool)
    requires Vanishing(ru, flip) && InTrace(t) && Ops(t) <= 4 && Nf(t, ru) in Tiny() && Nf(t, ru) != t && t != ru.big
    ensures t in VanishingList(flip)
  {
    NfKeepsParity(t, ru);
    if Ops(t) <= 3 {
      VanishingThree(t, ru, flip);
    } else {
      VanishingOperands(t, ru, flip);
      VanishingThree(t.left, ru, flip);
      VanishingThree(t.right, ru, flip);
      NfKeepsParity(t.left, ru);
      NfKeepsParity(t.right, ru);
    }
  }

  lemma VanishingHead(flip: bool, ru: Rule, a: Term, b: Term)
    requires Vanishing(ru, flip) && Nf(a, ru) == X && Nf(b, ru) in Tiny() && OverRoles(a, TRACE_ROLES) && OverRoles(b, TRACE_ROLES)
    ensures var t := Turned(flip, a, b);
            OverRoles(t, TRACE_ROLES) && Ops(t) == Ops(a) + Ops(b) + 1 && t.Op? &&
            Nf(t, ru) == if Nf(b, ru) == XX then X else XX
  {
  }

  lemma VanishingListIsTiny(flip: bool, ru: Rule, i: nat)
    requires Vanishing(ru, flip) && i < |VanishingList(flip)|
    ensures var t := VanishingList(flip)[i]; InTrace(t) && Ops(t) <= 4 && t.Op? && Nf(t, ru) in Tiny()
  {
    var t := Turned(flip, X, XX);
    TinyTerms(X);
    TinyTerms(XX);
    VanishingHead(flip, ru, X, X);
    VanishingHead(flip, ru, X, XX);
    var inner := Turned(flip, X, t);
    var outer := Turned(flip, t, X);
    VanishingHead(flip, ru, X, t);
    VanishingHead(flip, ru, t, X);
    VanishingHead(flip, ru, X, inner);
    VanishingHead(flip, ru, X, outer);
    VanishingHead(flip, ru, t, XX);
  }

  lemma VanishingIsList(ix: Index, flip: bool)
    requires Setting(ix) && Vanishing(ix.ru, flip)
    ensures Lists(ix, Tiny(), VanishingList(flip), 4)
  {
    var list := VanishingList(flip);
    forall i | 0 <= i < |list| ensures InTrace(list[i]) && Ops(list[i]) <= 4 && list[i].Op? && Nf(list[i], ix.ru) in Tiny() {
      VanishingListIsTiny(flip, ix.ru, i);
    }
    forall t | InTrace(t) && Ops(t) <= 4 && Nf(t, ix.ru) in Tiny() && Nf(t, ix.ru) != t && t != ix.ru.big ensures t in list {
      VanishingListed(t, ix.ru, flip);
    }
  }

  lemma VanishingIsClosed(ix: Index, flip: bool)
    requires Setting(ix) && Vanishing(ix.ru, flip)
    ensures Closed(ix, Tiny())
  {
    forall t | InTrace(t) && t.Op? && t != ix.ru.big && Nf(t, ix.ru) in Tiny()
      ensures Nf(t.left, ix.ru) in Tiny() && Nf(t.right, ix.ru) in Tiny()
    {
      VanishingOperands(t, ix.ru, flip);
    }
  }

  lemma VanishingSmallDone(ix: Index, r: Roots)
    requires Setting(ix) && r.Keys == ix.sys.keys && CompleteUpTo(ix, r, Tiny(), 4)
    requires ix.ru.small == X && Ops(ix.ru.big) == 2
    ensures SmallDone(ix, r)
  {
    forall u | InTrace(u) && Nf(u, ix.ru) == X ensures RootOfTerm(ix, r, u) == RootOfTerm(ix, r, X) {
      NfKeepsParity(u, ix.ru);
      assert Complete(ix, r, u);
    }
  }

  lemma VanishingCompletes(ix: Index, history: seq<Roots>, flip: bool)
    requires Setting(ix) && Consecutive(ix, history) && 5 < |history| && Started(ix, history[0]) && Vanishing(ix.ru, flip)
    ensures SmallDone(ix, history[5])
  {
    VanishingIsList(ix, flip);
    VanishingIsClosed(ix, flip);
    assert |VanishingList(flip)| == 5;
    assert Ops(ix.ru.big) == 2 by { assert Ops(X) == 0 && Ops(XX) == 1; }
    CompleteAfterList(ix, history, Tiny(), VanishingList(flip), 4);
    VanishingSmallDone(ix, history[5]);
  }

  lemma VanishingRule(ix: Index, history: seq<Roots>, flip: bool)
    requires Setting(ix) && Consecutive(ix, history) && 10 < |history| && Started(ix, history[0]) && Vanishing(ix.ru, flip)
    ensures AllDone(ix, history[10])
  {
    VanishingCompletes(ix, history, flip);
    FiveMoreRounds(ix, history, 5);
  }

  /** The rule x(xx) -> xx, or (xx)x -> xx. */
  predicate Shrinking(ru: Rule, flip: bool)
  {
    ru == Rule(Turned(flip, X, XX), XX)
  }

  function ShrinkingList(flip: bool): seq<Term>
  {
    var t := Turned(flip, X, Turned(flip, X, XX));
    [t, Turned(flip, X, t), Turned(flip, X, Turned(flip, X, t))]
  }

  /** With an operation as its small side, a rule makes no leaf out of an operation. */
  lemma LeafFromLeaf(t: Term, ru: Rule)
    requires OverRoles(t, TRACE_ROLES) && ru.small.Op? && ru.big.Op?
    ensures Nf(t, ru) == X <==> t == X
  {
    TinyTerms(t);
  }

  lemma ShrinkingOperands(t: Term, ru: Rule, flip: bool)
    requires Shrinking(ru, flip) && OverRoles(t, TRACE_ROLES)
    ensures Nf(t, ru) == X <==> t == X
    ensures t.Op? && Nf(t, ru) == XX ==> t == XX || (t == Turned(flip, X, if flip then t.left else t.right) &&
                                                    Nf(if flip then t.left else t.right, ru) == XX)
  {
    TinyTerms(t);
    if t.Op? {
      LeafFromLeaf(t.left, ru);
      LeafFromLeaf(t.right, ru);
    }
  }

  lemma {:induction false} ShrinkingListed(t: Term, ru: Rule, flip: bool)
    requires Shrinking(ru, flip) && InTrace(t) && Nf(t, ru) == XX && t != XX && t != ru.big
    ensures 3 <= Ops(t) && t == ShrinkingList(flip)[Ops(t) - 3]
  {
    ShrinkingOperands(t, ru, flip);
    var inner := if flip then t.left else t.right;
    if inner != XX && inner != ru.big {
      ShrinkingListed(inner, ru, flip);
    }
  }

  lemma ShrinkingIsList(ix: Index, flip: bool)
    requires Setting(ix) && Shrinking(ix.ru, flip)
    ensures Lists(ix, Tiny(), ShrinkingList(flip), TRACE_DEPTH) && Closed(ix, Tiny())
  {
    var list := ShrinkingList(flip);
    forall t | InTrace(t) && Nf(t, ix.ru) in Tiny() && Nf(t, ix.ru) != t && t != ix.ru.big ensures t in list {
      ShrinkingOperands(t, ix.ru, flip);
      ShrinkingListed(t, ix.ru, flip);
    }
    forall t | InTrace(t) && t.Op? && t != ix.ru.big && Nf(t, ix.ru) in Tiny()
      ensures Nf(t.left, ix.ru) in Tiny() && Nf(t.right, ix.ru) in Tiny()
    {
      ShrinkingOperands(t, ix.ru, flip);
    }
  }

  lemma ShrinkingRule(ix: Index, history: seq<Roots>, flip: bool)
    requires Setting(ix) && Consecutive(ix, history) && 8 < |history| && Started(ix, history[0]) && Shrinking(ix.ru, flip)
    ensures AllDone(ix, history[8])
  {
    ShrinkingIsList(ix, flip);
    CompleteAfterList(ix, history, Tiny(), ShrinkingList(flip), TRACE_DEPTH);
    var r := history[3];
    forall u | InTrace(u) && Nf(u, ix.ru) == XX ensures RootOfTerm(ix, r, u) == RootOfTerm(ix, r, XX) {
      assert Complete(ix, r, u);
    }
    FiveMoreRounds(ix, history, 3);
  }

  // ------------------------------------------------------------ every law

  lemma TwoOperations(t: Term)
    requires OverRoles(t, TRACE_ROLES) && Ops(t) == 2
    ensures t == Turned(false, X, XX) || t == Turned(true, X, XX)
  {
    TinyTerms(t.left);
    TinyTerms(t.right);
  }

  lemma TwoOperationRule(ix: Index, history: seq<Roots>) returns (k: nat)
    requires Setting(ix) && Consecutive(ix, history) && 10 < |history| && Started(ix, history[0])
    requires InTrace(ix.ru.big) && Ops(ix.ru.small) < Ops(ix.ru.big) == 2
    ensures k <= 10 && AllDone(ix, history[k])
  {
    TwoOperations(ix.ru.big);
    TinyTerms(ix.ru.small);
    var flip := ix.ru.big == Turned(true, X, XX);
    if ix.ru.small == X {
      VanishingRule(ix, history, flip);
      k := 10;
    } else {
      ShrinkingRule(ix, history, flip);
      k := 8;
    }
  }

  /** After at most ten rounds every class is complete, whatever the rule. */
  lemma CompleteAfterTen(ix: Index, history: seq<Roots>) returns (k: nat)
    requires Setting(ix) && Consecutive(ix, history) && 10 < |history| && Started(ix, history[0])
    ensures k <= 10 && AllDone(ix, history[k])
  {
    var ru := ix.ru;
    if !InTrace(ru.big) {
      NothingToRewrite(ix, history[0]);
      k := 0;
    } else if Ops(ru.small) == Ops(ru.big) {
      EqualSizes(ix, history[0]);
      FiveMoreRounds(ix, history, 0);
      k := TRACE_DEPTH;
    } else if Ops(ru.big) >= 3 {
      LargeRule(ix, history);
      k := |Around(ru.big)|;
    } else if Ops(ru.big) == 2 {
      k := TwoOperationRule(ix, history);
    } else {
      TinyTerms(ru.big);
      TinyTerms(ru.small);
      FoldingRule(ix, history);
      k := 8;
    }
  }

  lemma SaturationIsConsecutive(ix: Index, history: seq<Roots>)
    requires Setting(ix) && Saturation(ix.sys, history, true) && history[0].Keys == ix.sys.keys
    ensures Consecutive(ix, history)
  {
    forall k | 0 <= k < |history| ensures history[k].Keys == ix.sys.keys {
      if k > 0 {
        RoundKeys(ix, history[k - 1], history[k]);
      }
    }
  }

  /** No saturation goes on changing for more than ten rounds. */
  lemma AtMostTenChanges(ix: Index, history: seq<Roots>)
    requires Setting(ix) && Saturation(ix.sys, history, true) && Started(ix, history[0])
    ensures |history| <= 11
  {
    if 11 < |history| {
      SaturationIsConsecutive(ix, history);
      var k := CompleteAfterTen(ix, history);
      assert RoundAt(ix, history, k);
      AllDoneIsStill(ix, history[k], history[k + 1]);
    }
  }
}
