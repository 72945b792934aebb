/** What closure classes mean in magmas, and how closures over different roles relate. */
module Soundness {
  import opened Terms
  import opened Magma
  import opened Universe
  import opened Closure

  /** `rho` gives every role an element of the carrier. */
  ghost predicate RoleAssignment(roles: seq<string>, table: Table, rho: Env)
  {
    forall r :: r in roles ==> r in rho && 0 <= rho[r] < |table|
  }

  /** The pairs of universe terms that a table identifies under a role assignment. */
  ghost function EqualIn(roles: seq<string>, d: nat, table: Table, rho: Env): iset<(Term, Term)>
    requires FullRows(table)
  {
    iset s, t | InUniverse(s, roles, d) && InUniverse(t, roles, d) && Eval(s, table, rho) == Eval(t, table, rho) :: (s, t)
  }

  lemma InstanceHolds(eq: Equation, roles: seq<string>, d: nat, table: Table, rho: Env, s: Term, t: Term)
    requires FullRows(table) && Satisfies(eq, table) && RoleAssignment(roles, table, rho)
    requires Instance(eq, roles, d, s, t)
    ensures Eval(s, table, rho) == Eval(t, table, rho)
  {
    var vs := EqVars(eq);
    var sub :| Enumerates(vs, roles, SUBSTITUTION_CAP, sub) && s == Subst(eq.lhs, sub) && t == Subst(eq.rhs, sub);
    EnumeratedMapsToRoles(vs, roles, SUBSTITUTION_CAP, sub);
    var env: Env := map v | v in vs :: rho[sub[v]];
    assert Assignment(eq, table, env);
    assert Agrees(eq, table, env);
    EvalSubst(eq.lhs, sub, table, rho, env);
    EvalSubst(eq.rhs, sub, table, rho, env);
  }

  lemma EqualInIsLawCongruence(eq: Equation, roles: seq<string>, d: nat, table: Table, rho: Env)
    requires FullRows(table) && Satisfies(eq, table) && RoleAssignment(roles, table, rho)
    ensures LawCongruence(eq, roles, d, EqualIn(roles, d, table, rho))
  {
    var R := EqualIn(roles, d, table, rho);
    assert UniverseEquivalence(roles, d, R);
    forall s, t | InUniverse(s, roles, d) && InUniverse(t, roles, d) ensures OpRespects(R, s, t) {
    }
    forall s, t | Instance(eq, roles, d, s, t) ensures (s, t) in R {
      InstanceHolds(eq, roles, d, table, rho, s, t);
    }
  }

  /** Terms the law forces together have the same value in every table that satisfies the law,
      under every assignment of the roles. */
  lemma ForcedHolds(eq: Equation, roles: seq<string>, d: nat, table: Table, rho: Env, s: Term, t: Term)
    requires FullRows(table) && Satisfies(eq, table) && RoleAssignment(roles, table, rho)
    requires Forced(eq, roles, d, s, t)
    ensures Eval(s, table, rho) == Eval(t, table, rho)
  {
    EqualInIsLawCongruence(eq, roles, d, table, rho);
    assert (s, t) in EqualIn(roles, d, table, rho);
  }

  /** A spec that sends different variables to different roles. */
  ghost predicate Injective(vars: seq<string>, spec: map<string, string>)
  {
    forall v, w :: v in vars && w in vars && v in spec && w in spec && spec[v] == spec[w] ==> v == w
  }

  ghost predicate SpecInto(vars: seq<string>, spec: map<string, string>, roles: seq<string>)
  {
    spec.Keys == (set v | v in vars) && forall v :: v in spec ==> spec[v] in roles
  }

  /** The role assignment that undoes an injective spec. */
  lemma UndoSpec(vars: seq<string>, spec: map<string, string>, roles: seq<string>, table: Table, env: Env) returns (rho: Env)
    requires SpecInto(vars, spec, roles) && Injective(vars, spec)
    requires (forall v :: v in vars ==> v in env && 0 <= env[v] < |table|) && table != []
    ensures RoleAssignment(roles, table, rho)
    ensures forall v :: v in vars ==> spec[v] in rho && rho[spec[v]] == env[v]
  {
    rho := map r | r in roles :: if exists v :: v in vars && v in spec && spec[v] == r
                                 then env[(var v :| v in vars && v in spec && spec[v] == r; v)] else 0;
  }

  /** A target identified under an injective spec has no countermodel at all. */
  lemma IdentifiedHasNoCountermodel(eq1: Equation, eq2: Equation, roles: seq<string>, d: nat, spec: map<string, string>, table: Table)
    requires FullRows(table)
    requires SpecInto(EqVars(eq2), spec, roles) && Injective(EqVars(eq2), spec)
    requires Forced(eq1, roles, d, Subst(eq2.lhs, spec), Subst(eq2.rhs, spec))
    ensures !Countermodel(eq1, eq2, table)
  {
    if Countermodel(eq1, eq2, table) {
      var env :| Assignment(eq2, table, env) && Separates(eq2, table, env);
      assert EqVars(eq2)[0] in env;
      var rho := UndoSpec(EqVars(eq2), spec, roles, table, env);
      EvalSubst(eq2.lhs, spec, table, rho, env);
      EvalSubst(eq2.rhs, spec, table, rho, env);
      ForcedHolds(eq1, roles, d, table, rho, Subst(eq2.lhs, spec), Subst(eq2.rhs, spec));
      assert false;
    }
  }

  // ------------------------------------------------------------ role collapse

  function Compose(s: Substitution, h: Substitution): Substitution
  {
    map v | v in s :: if s[v] in h then h[s[v]] else s[v]
  }

  /** `h` sends roles to roles, and every enumerated substitution to an enumerated one. */
  ghost predicate Collapses(eq: Equation, roles: seq<string>, roles': seq<string>, h: Substitution)
  {
    && (forall r :: r in roles ==> r in h && h[r] in roles')
    && forall sub :: Enumerates(EqVars(eq), roles, SUBSTITUTION_CAP, sub) ==>
         Enumerates(EqVars(eq), roles', SUBSTITUTION_CAP, Compose(sub, h))
  }

  lemma CollapseStaysInside(t: Term, roles: seq<string>, d: nat, roles': seq<string>, d': nat, h: Substitution)
    requires InUniverse(t, roles, d) && d <= d'
    requires forall r :: r in roles ==> r in h && h[r] in roles'
    ensures InUniverse(Subst(t, h), roles', d')
  {
    OverRolesVars(t, roles);
    SubstOverRoles(t, h, roles');
    SubstKeepsOps(t, h);
  }

  lemma CollapsedInstance(eq: Equation, roles: seq<string>, d: nat, roles': seq<string>, d': nat, h: Substitution, s: Term, t: Term)
    requires Collapses(eq, roles, roles', h) && d <= d' && Instance(eq, roles, d, s, t)
    ensures Instance(eq, roles', d', Subst(s, h), Subst(t, h))
  {
    var sub :| Enumerates(EqVars(eq), roles, SUBSTITUTION_CAP, sub) && s == Subst(eq.lhs, sub) && t == Subst(eq.rhs, sub);
    EnumeratedMapsToRoles(EqVars(eq), roles, SUBSTITUTION_CAP, sub);
    var sub' := Compose(sub, h);
    SubstCompose(eq.lhs, sub, h, sub');
    SubstCompose(eq.rhs, sub, h, sub');
    CollapseStaysInside(s, roles, d, roles', d', h);
    CollapseStaysInside(t, roles, d, roles', d', h);
  }

  ghost function PullBack(roles: seq<string>, d: nat, h: Substitution, R: iset<(Term, Term)>): iset<(Term, Term)>
  {
    iset s, t | InUniverse(s, roles, d) && InUniverse(t, roles, d) && (Subst(s, h), Subst(t, h)) in R :: (s, t)
  }

  lemma PullBackIsLawCongruence(eq: Equation, roles: seq<string>, d: nat, roles': seq<string>, d': nat, h: Substitution, R: iset<(Term, Term)>)
    requires Collapses(eq, roles, roles', h) && d <= d' && LawCongruence(eq, roles', d', R)
    ensures LawCongruence(eq, roles, d, PullBack(roles, d, h, R))
  {
    var P := PullBack(roles, d, h, R);
    forall t | InUniverse(t, roles, d) ensures (t, t) in P {
      CollapseStaysInside(t, roles, d, roles', d', h);
    }
    forall s, t | InUniverse(s, roles, d) && InUniverse(t, roles, d) ensures OpRespects(P, s, t) {
      CollapseStaysInside(s, roles, d, roles', d', h);
      CollapseStaysInside(t, roles, d, roles', d', h);
      assert OpRespects(R, Subst(s, h), Subst(t, h));
    }
    forall s, t | Instance(eq, roles, d, s, t) ensures (s, t) in P {
      CollapsedInstance(eq, roles, d, roles', d', h, s, t);
    }
  }

  /** Collapsing roles keeps forced equalities forced, in any universe at least as deep. */
  lemma CollapseKeepsForced(eq: Equation, roles: seq<string>, d: nat, roles': seq<string>, d': nat, h: Substitution, s: Term, t: Term)
    requires Collapses(eq, roles, roles', h) && d <= d' && Forced(eq, roles, d, s, t)
    ensures Forced(eq, roles', d', Subst(s, h), Subst(t, h))
  {
    forall R | LawCongruence(eq, roles', d', R) ensures (Subst(s, h), Subst(t, h)) in R {
      PullBackIsLawCongruence(eq, roles, d, roles', d', h, R);
      assert (s, t) in PullBack(roles, d, h, R);
    }
  }

  /** Sending every role to one role always is such a collapse: the diagonal is always enumerated. */
  lemma DiagonalCollapses(eq: Equation, roles: seq<string>, role: string, h: Substitution)
    requires forall r :: r in roles ==> r in h && h[r] == role
    ensures Collapses(eq, roles, [role], h)
  {
    forall sub | Enumerates(EqVars(eq), roles, SUBSTITUTION_CAP, sub)
      ensures Enumerates(EqVars(eq), [role], SUBSTITUTION_CAP, Compose(sub, h))
    {
      EnumeratedMapsToRoles(EqVars(eq), roles, SUBSTITUTION_CAP, sub);
      DiagonalEnumerated(EqVars(eq), [role], SUBSTITUTION_CAP, Compose(sub, h));
    }
  }
}
