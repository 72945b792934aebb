/** Magma terms, equations, substitution of variable names, and their sizes. */
module Terms {
  import opened Orders

  datatype Term = Var(name: string) | Op(left: Term, right: Term)

  datatype Equation = Equation(lhs: Term, rhs: Term)

  function VarsIn(t: Term): (vs: seq<string>)
    ensures vs != []
  {
    match t
    case Var(name) => [name]
    case Op(l, r) => VarsIn(l) + VarsIn(r)
  }

  /** The sorted variables of an equation, the list every checker iterates over. */
  function EqVars(eq: Equation): (vs: seq<string>)
    ensures NoDuplicates(vs) && vs != []
    ensures forall v :: v in vs <==> v in VarsIn(eq.lhs) || v in VarsIn(eq.rhs)
  {
    var vs := SortedSet(VarsIn(eq.lhs) + VarsIn(eq.rhs), StrLess);
    assert VarsIn(eq.lhs)[0] in vs;
    vs
  }

  /** They really are in order. */
  lemma EqVarsAscending(eq: Equation)
    ensures Ascending(EqVars(eq), StrLess)
  {
    StrLessIsStrictTotal();
    SortedSetAscending(VarsIn(eq.lhs) + VarsIn(eq.rhs), StrLess);
  }

  /** Replaces variable names; a name without an entry stays as it is. */
  function Subst(t: Term, s: map<string, string>): Term
  {
    match t
    case Var(name) => Var(if name in s then s[name] else name)
    case Op(l, r) => Op(Subst(l, s), Subst(r, s))
  }

  /** The number of operations in a term, which is what the universe bound counts. */
  function Ops(t: Term): nat
  {
    match t
    case Var(_) => 0
    case Op(l, r) => Ops(l) + Ops(r) + 1
  }

  /** Every variable of `t` is one of `roles`. */
  predicate OverRoles(t: Term, roles: seq<string>)
  {
    match t
    case Var(name) => name in roles
    case Op(l, r) => OverRoles(l, roles) && OverRoles(r, roles)
  }

  lemma {:induction false} SubstKeepsOps(t: Term, s: map<string, string>)
    ensures Ops(Subst(t, s)) == Ops(t)
  {
    match t
    case Var(_) =>
    case Op(l, r) => SubstKeepsOps(l, s); SubstKeepsOps(r, s);
  }

  lemma {:induction false} SubstOverRoles(t: Term, s: map<string, string>, roles: seq<string>)
    requires forall v :: v in VarsIn(t) ==> v in s && s[v] in roles
    ensures OverRoles(Subst(t, s), roles)
  {
    match t
    case Var(_) => assert t.name in VarsIn(t);
    case Op(l, r) => SubstOverRoles(l, s, roles); SubstOverRoles(r, s, roles);
  }

  lemma {:induction false} OverRolesVars(t: Term, roles: seq<string>)
    ensures OverRoles(t, roles) <==> forall v :: v in VarsIn(t) ==> v in roles
  {
    match t
    case Var(_) => assert t.name in VarsIn(t);
    case Op(l, r) => OverRolesVars(l, roles); OverRolesVars(r, roles);
  }

  /** Two substitutions in a row are one, when the first is defined on every variable. */
  lemma {:induction false} SubstCompose(t: Term, s: map<string, string>, h: map<string, string>, sh: map<string, string>)
    requires forall v :: v in VarsIn(t) ==>
               v in s && v in sh && sh[v] == (if s[v] in h then h[s[v]] else s[v])
    ensures Subst(Subst(t, s), h) == Subst(t, sh)
  {
    match t
    case Var(_) => assert t.name in VarsIn(t);
    case Op(l, r) => SubstCompose(l, s, h, sh); SubstCompose(r, s, h, sh);
  }
}
