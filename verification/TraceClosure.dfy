/** The one-role closure of any law: its classes are the normal forms, and it is never cut short. */
module TraceClosure {
  import opened Closure
  import opened Congruence
  import opened GroundRule
  import opened SourceClosure
  import opened Syntax
  import opened Terms
  import opened TraceCap
  import opened TraceRounds
  import opened UnionFinds
  import opened Universe

  /** All variables sent to the one role. */
  function ToOneRole(eq: Equation): Substitution
  {
    map v | v in EqVars(eq) :: "x"
  }

  /** A rule with a big side outside the trace universe, for laws with nothing to rewrite. */
  function IdleRule(): Rule
  {
    Rule(Op(Op(Op(XX, XX), XX), X), X)
  }

  /** The law's instance as a rule: the side with more operations is rewritten to the other. */
  function RuleOf(eq: Equation): Rule
  {
    var s, t := Subst(eq.lhs, ToOneRole(eq)), Subst(eq.rhs, ToOneRole(eq));
    if s == t || !InTrace(s) || !InTrace(t) then IdleRule()
    else if Ops(s) < Ops(t) then Rule(t, s)
    else Rule(s, t)
  }

  lemma IdleRuleIsIdle()
    ensures GoodRule(IdleRule()) && !InTrace(IdleRule().big)
  {
    assert Ops(X) == 0 && Ops(XX) == 1;
  }

  lemma RuleIsGood(eq: Equation)
    ensures GoodRule(RuleOf(eq)) && (InTrace(RuleOf(eq).big) ==> InTrace(RuleOf(eq).small))
  {
    IdleRuleIsIdle();
  }

  lemma OneRoleIsDiagonal(eq: Equation)
    ensures Enumerates(EqVars(eq), TRACE_ROLES, SUBSTITUTION_CAP, ToOneRole(eq))
  {
    DiagonalEnumerated(EqVars(eq), TRACE_ROLES, SUBSTITUTION_CAP, ToOneRole(eq));
  }

  lemma InstanceIsTheOne(eq: Equation, s: Term, t: Term)
    requires Instance(eq, TRACE_ROLES, TRACE_DEPTH, s, t)
    ensures s == Subst(eq.lhs, ToOneRole(eq)) && t == Subst(eq.rhs, ToOneRole(eq))
    ensures AcrossRule(s, t, RuleOf(eq))
  {
    var sub :| Enumerates(EqVars(eq), TRACE_ROLES, SUBSTITUTION_CAP, sub) && s == Subst(eq.lhs, sub) && t == Subst(eq.rhs, sub);
    OneRoleIsDiagonal(eq);
    OneSubstitution(EqVars(eq), TRACE_ROLES, SUBSTITUTION_CAP, sub, ToOneRole(eq));
  }

  lemma RuleIsInstance(eq: Equation)
    requires InTrace(RuleOf(eq).big)
    ensures Instance(eq, TRACE_ROLES, TRACE_DEPTH, RuleOf(eq).big, RuleOf(eq).small) ||
            Instance(eq, TRACE_ROLES, TRACE_DEPTH, RuleOf(eq).small, RuleOf(eq).big)
  {
    IdleRuleIsIdle();
    OneRoleIsDiagonal(eq);
    RuleIsGood(eq);
  }

  /** The law forces two trace terms together exactly when they have one normal form: a single pass
      of rewriting decides what the closure computes round by round. */
  lemma ForcedByRewriting(eq: Equation, s: Term, t: Term)
    requires InTrace(s) && InTrace(t)
    ensures Forced(eq, TRACE_ROLES, TRACE_DEPTH, s, t) <==> Nf(s, RuleOf(eq)) == Nf(t, RuleOf(eq))
  {
    var ru := RuleOf(eq);
    RuleIsGood(eq);
    forall a, b | Instance(eq, TRACE_ROLES, TRACE_DEPTH, a, b) ensures AcrossRule(a, b, ru) {
      InstanceIsTheOne(eq, a, b);
    }
    if InTrace(ru.big) {
      RuleIsInstance(eq);
      ForcedIsSameNf(eq, TRACE_ROLES, TRACE_DEPTH, ru, s, t);
    } else {
      OutsideIsNormal(s, ru);
      OutsideIsNormal(t, ru);
      SameNfIsLawCongruence(eq, TRACE_ROLES, TRACE_DEPTH, ru);
      if Forced(eq, TRACE_ROLES, TRACE_DEPTH, s, t) {
        assert (s, t) in SameNf(TRACE_ROLES, TRACE_DEPTH, ru);
      }
    }
  }

  // ------------------------------------------------------------ the cap

  ghost function TraceIndex(eq: Equation, terms: seq<Term>, sys: System): Index
  {
    Index(sys, OpsOf(terms), RuleOf(eq))
  }

  lemma TermsOfKeys(sys: System, terms: seq<Term>, eq: Equation, ix: Index)
    requires Represents(sys, terms, eq, TRACE_ROLES, TRACE_DEPTH) && ix.sys == sys
    ensures forall t {:trigger KeyKnown(ix, t)} :: InTrace(t) ==> KeyKnown(ix, t)
    ensures forall k {:trigger KeyHeld(ix, k)} :: k in sys.keys ==> KeyHeld(ix, k)
  {
    forall t {:trigger KeyKnown(ix, t)} | InTrace(t) ensures KeyKnown(ix, t) {
      assert t in terms;
    }
    forall k {:trigger KeyHeld(ix, k)} | k in sys.keys ensures KeyHeld(ix, k) {
      var t :| t in terms && Canonical(t) == k;
    }
  }

  lemma OpsOfEntries(sys: System, terms: seq<Term>, eq: Equation, ix: Index)
    requires Represents(sys, terms, eq, TRACE_ROLES, TRACE_DEPTH) && sys.entries == EntriesOf(terms)
    requires ix.sys == sys && ix.ops == OpsOf(terms)
    ensures |ix.ops| == |sys.entries|
    ensures forall i {:trigger OpAt(ix, i)} :: 0 <= i < |ix.ops| ==> OpAt(ix, i)
    ensures forall t {:trigger OpKnown(ix, t)} :: InTrace(t) && t.Op? ==> OpKnown(ix, t)
  {
    EntriesOfOps(terms);
    forall i {:trigger OpAt(ix, i)} | 0 <= i < |ix.ops| ensures OpAt(ix, i) {
      assert ix.ops[i] in OpsOf(terms);
      assert IsEntryOf(EntriesOf(terms)[i], OpsOf(terms)[i]);
    }
    forall t {:trigger OpKnown(ix, t)} | InTrace(t) && t.Op? ensures OpKnown(ix, t) {
      assert t in terms;
    }
  }

  lemma LeastHasOneNf(sys: System, terms: seq<Term>, eq: Equation, ix: Index)
    requires Represents(sys, terms, eq, TRACE_ROLES, TRACE_DEPTH) && ix.sys == sys && ix.ru == RuleOf(eq)
    ensures forall s, t {:trigger OneNf(ix, s, t)} :: InTrace(s) && InTrace(t) ==> OneNf(ix, s, t)
  {
    forall s, t {:trigger OneNf(ix, s, t)} | InTrace(s) && InTrace(t) ensures OneNf(ix, s, t) {
      LeastIsForced(sys, terms, eq, TRACE_ROLES, TRACE_DEPTH, s, t);
      ForcedByRewriting(eq, s, t);
    }
  }

  lemma RunIsSetting(eq: Equation, terms: seq<Term>, sys: System)
    requires Represents(sys, terms, eq, TRACE_ROLES, TRACE_DEPTH) && BySize(terms) && sys.entries == EntriesOf(terms)
    ensures Setting(TraceIndex(eq, terms, sys))
  {
    var ix := TraceIndex(eq, terms, sys);
    RepresentedIsKeyed(sys, terms, eq, TRACE_ROLES, TRACE_DEPTH);
    RuleIsGood(eq);
    OpsBySize(terms);
    TermsOfKeys(sys, terms, eq, ix);
    OpsOfEntries(sys, terms, eq, ix);
    LeastHasOneNf(sys, terms, eq, ix);
  }

  lemma RunIsStarted(eq: Equation, terms: seq<Term>, sys: System, r: Roots)
    requires Represents(sys, terms, eq, TRACE_ROLES, TRACE_DEPTH) && Setting(TraceIndex(eq, terms, sys))
    requires Justified(r, sys) && Contains(SameClass(r), sys.base)
    ensures Started(TraceIndex(eq, terms, sys), r)
  {
    var ix := TraceIndex(eq, terms, sys);
    if InTrace(ix.ru.big) {
      RuleIsInstance(eq);
      var kb, ks := Canonical(ix.ru.big), Canonical(ix.ru.small);
      var p :| p in sys.base && (p == (kb, ks) || p == (ks, kb));
      assert p in SameClass(r);
    }
  }

  lemma InitIsChanging(sys: System, history: seq<Roots>)
    requires Saturation(sys, history, false) && |history| > 1
    ensures Saturation(sys, history[..|history| - 1], true)
  {
    var init := history[..|history| - 1];
    forall k | 0 <= k < |init| - 1 ensures RoundFrom(sys, init[k], init[k + 1]) && init[k] != init[k + 1] {
      assert RoundFrom(sys, history[k], history[k + 1]) && history[k] != history[k + 1];
    }
  }

  /** The closure stops by itself: after at most ten rounds that change something comes one that
      does not. The program's cap of twelve is never what ends it. */
  lemma TraceNeverCut(eq: Equation, terms: seq<Term>, sys: System, history: seq<Roots>, c: Summary)
    requires ClosureRun(eq, TRACE_ROLES, TRACE_DEPTH, terms, sys, history, c)
    ensures c.rounds <= if c.saturated then 11 else 10
  {
    var ix := TraceIndex(eq, terms, sys);
    RunIsSetting(eq, terms, sys);
    RunIsStarted(eq, terms, sys, history[0]);
    if !c.saturated {
      AtMostTenChanges(ix, history);
    } else if |history| > 1 {
      InitIsChanging(sys, history);
      AtMostTenChanges(ix, history[..|history| - 1]);
    }
  }
}
