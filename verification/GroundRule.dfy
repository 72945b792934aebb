/** A closure whose law has one instance: read as a rewrite rule, it gives every term a normal form. */
module GroundRule {
  import opened Closure
  import opened Terms
  import opened Universe

  /** The two sides of an equality, the one with more operations first. */
  datatype Rule = Rule(big: Term, small: Term)

  predicate GoodRule(ru: Rule)
  {
    ru.big != ru.small && Ops(ru.small) <= Ops(ru.big)
  }

  function Head(l: Term, r: Term, ru: Rule): Term
  {
    if Op(l, r) == ru.big then ru.small else Op(l, r)
  }

  /** Rewrites from the inside out. */
  function Nf(t: Term, ru: Rule): Term
  {
    match t
    case Var(_) => if t == ru.big then ru.small else t
    case Op(l, r) => Head(Nf(l, ru), Nf(r, ru), ru)
  }

  /** Only terms with at least as many operations as the big side can be rewritten. */
  lemma {:induction false} SmallIsNormal(t: Term, ru: Rule)
    requires Ops(t) <= Ops(ru.big) && t != ru.big
    ensures Nf(t, ru) == t
  {
    match t
    case Var(_) =>
    case Op(l, r) =>
      SmallIsNormal(l, ru);
      SmallIsNormal(r, ru);
  }

  lemma BigIsRewritten(ru: Rule)
    ensures Nf(ru.big, ru) == ru.small
  {
    match ru.big
    case Var(_) =>
    case Op(l, r) =>
      SmallIsNormal(l, ru);
      SmallIsNormal(r, ru);
  }

  lemma {:induction false} NfIsNormal(t: Term, ru: Rule)
    requires GoodRule(ru)
    ensures Nf(Nf(t, ru), ru) == Nf(t, ru)
  {
    SmallIsNormal(ru.small, ru);
    match t
    case Var(_) =>
    case Op(l, r) =>
      NfIsNormal(l, ru);
      NfIsNormal(r, ru);
  }

  lemma {:induction false} NfStaysInside(t: Term, ru: Rule, roles: seq<string>)
    requires GoodRule(ru) && OverRoles(t, roles) && OverRoles(ru.small, roles)
    ensures OverRoles(Nf(t, ru), roles) && Ops(Nf(t, ru)) <= Ops(t)
  {
    match t
    case Var(_) =>
    case Op(l, r) =>
      NfStaysInside(l, ru, roles);
      NfStaysInside(r, ru, roles);
  }

  /** With a strictly smaller small side, every rewrite removes operations. */
  lemma {:induction false} NfShrinks(t: Term, ru: Rule)
    requires GoodRule(ru) && Ops(ru.small) < Ops(ru.big)
    ensures Nf(t, ru) == t || Ops(Nf(t, ru)) < Ops(t)
  {
    match t
    case Var(_) =>
    case Op(l, r) =>
      NfShrinks(l, ru);
      NfShrinks(r, ru);
  }

  // ------------------------------------------------- what the law forces

  predicate AcrossRule(s: Term, t: Term, ru: Rule)
  {
    s == t || (s == ru.big && t == ru.small) || (s == ru.small && t == ru.big)
  }

  /** The law has this instance and no other, apart from trivial ones. */
  ghost predicate OnlyInstance(eq: Equation, roles: seq<string>, d: nat, ru: Rule)
  {
    && GoodRule(ru) && InUniverse(ru.big, roles, d) && InUniverse(ru.small, roles, d)
    && (Instance(eq, roles, d, ru.big, ru.small) || Instance(eq, roles, d, ru.small, ru.big))
    && forall s, t :: Instance(eq, roles, d, s, t) ==> AcrossRule(s, t, ru)
  }

  ghost function SameNf(roles: seq<string>, d: nat, ru: Rule): iset<(Term, Term)>
  {
    iset s, t | InUniverse(s, roles, d) && InUniverse(t, roles, d) && Nf(s, ru) == Nf(t, ru) :: (s, t)
  }

  lemma SameNfIsLawCongruence(eq: Equation, roles: seq<string>, d: nat, ru: Rule)
    requires forall s, t :: Instance(eq, roles, d, s, t) ==> AcrossRule(s, t, ru)
    requires GoodRule(ru)
    ensures LawCongruence(eq, roles, d, SameNf(roles, d, ru))
  {
    var R := SameNf(roles, d, ru);
    BigIsRewritten(ru);
    SmallIsNormal(ru.small, ru);
    forall s, t | InUniverse(s, roles, d) && InUniverse(t, roles, d) ensures OpRespects(R, s, t) {
    }
    forall s, t | Instance(eq, roles, d, s, t) ensures (s, t) in R {
      assert AcrossRule(s, t, ru);
    }
  }

  /** Every law congruence relates a term with its normal form. */
  lemma {:induction false} NfIsForced(eq: Equation, roles: seq<string>, d: nat, ru: Rule, t: Term, R: iset<(Term, Term)>)
    requires OnlyInstance(eq, roles, d, ru) && LawCongruence(eq, roles, d, R) && InUniverse(t, roles, d)
    ensures InUniverse(Nf(t, ru), roles, d) && (t, Nf(t, ru)) in R
  {
    NfStaysInside(t, ru, roles);
    assert (ru.big, ru.small) in R;
    match t
    case Var(_) =>
    case Op(l, r) =>
      NfIsForced(eq, roles, d, ru, l, R);
      NfIsForced(eq, roles, d, ru, r, R);
      NfStaysInside(l, ru, roles);
      NfStaysInside(r, ru, roles);
      var u := Op(Nf(l, ru), Nf(r, ru));
      assert OpRespects(R, t, u);
  }

  /** So the law forces two terms together exactly when they have one normal form: what the closure
      decides round by round, a single pass of rewriting decides at once. */
  lemma ForcedIsSameNf(eq: Equation, roles: seq<string>, d: nat, ru: Rule, s: Term, t: Term)
    requires OnlyInstance(eq, roles, d, ru) && InUniverse(s, roles, d) && InUniverse(t, roles, d)
    ensures Forced(eq, roles, d, s, t) <==> Nf(s, ru) == Nf(t, ru)
  {
    if Forced(eq, roles, d, s, t) {
      SameNfIsLawCongruence(eq, roles, d, ru);
      assert (s, t) in SameNf(roles, d, ru);
    }
    if Nf(s, ru) == Nf(t, ru) {
      forall R | LawCongruence(eq, roles, d, R) ensures (s, t) in R {
        NfIsForced(eq, roles, d, ru, s, R);
        NfIsForced(eq, roles, d, ru, t, R);
        assert (Nf(s, ru), t) in R;
      }
    }
  }
}
