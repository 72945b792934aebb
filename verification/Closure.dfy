/** Bounded closure of a source law over roles: instances, saturation, and what its classes mean. */
module Closure {
  import opened Orders
  import opened Products
  import opened Terms
  import opened Syntax
  import opened Universe
  import opened UnionFinds
  import opened Congruence

  const SUBSTITUTION_CAP: nat := 96
  const ROUND_CAP: nat := 12

  type Substitution = map<string, string>

  // -------------------------------------------------------- role substitutions

  /** The number of product vectors the first loop reads before its `break`. */
  function Enumerated(total: nat, cap: nat): nat
  {
    var limit := if cap == 0 then 1 else cap;
    if total < limit then total else limit
  }

  ghost predicate IsNth(vars: seq<string>, roles: seq<string>, k: nat, s: Substitution)
    requires k < Pow(|roles|, |vars|)
  {
    var v := Product(roles, |vars|)[k];
    |v| == |vars| && s == Zip(vars, v)
  }

  /** `s` is one of the first substitutions of the product, in product order. */
  ghost predicate Enumerates(vars: seq<string>, roles: seq<string>, cap: nat, s: Substitution)
  {
    exists k :: 0 <= k < Enumerated(Pow(|roles|, |vars|), cap) && IsNth(vars, roles, k, s)
  }

  predicate Diagonal(vars: seq<string>, roles: seq<string>, s: Substitution)
    requires roles != []
  {
    s.Keys == (set v | v in vars) && forall v :: v in s ==> s[v] == roles[0]
  }

  lemma NthVector(vars: seq<string>, roles: seq<string>, k: nat)
    requires k < Pow(|roles|, |vars|)
    ensures var v := Product(roles, |vars|)[k];
            |v| == |vars| && forall i :: 0 <= i < |v| ==> v[i] in roles
  {
    var v := Product(roles, |vars|)[k];
    assert v in Product(roles, |vars|);
    ProductMembers(roles, |vars|, v);
  }

  lemma EnumeratedMapsToRoles(vars: seq<string>, roles: seq<string>, cap: nat, s: Substitution)
    requires NoDuplicates(vars) && Enumerates(vars, roles, cap, s)
    ensures s.Keys == (set v | v in vars)
    ensures forall v :: v in s ==> s[v] in roles
  {
    var k :| 0 <= k < Enumerated(Pow(|roles|, |vars|), cap) && IsNth(vars, roles, k, s);
    NthVector(vars, roles, k);
    forall v | v in s ensures s[v] in roles {
      var i :| 0 <= i < |vars| && vars[i] == v;
      ZipAt(vars, Product(roles, |vars|)[k], i);
    }
  }

  /** Below the cap nothing is missing: every map from the variables to the roles is listed. */
  lemma AllEnumeratedBelowCap(vars: seq<string>, roles: seq<string>, cap: nat, s: Substitution)
    requires NoDuplicates(vars) && Pow(|roles|, |vars|) <= cap
    requires s.Keys == (set v | v in vars) && forall v :: v in s ==> s[v] in roles
    ensures Enumerates(vars, roles, cap, s)
  {
    var k := EnvIsZip(vars, roles, s);
    assert IsNth(vars, roles, k, s);
  }

  lemma DiagonalEnumerated(vars: seq<string>, roles: seq<string>, cap: nat, s: Substitution)
    requires NoDuplicates(vars) && roles != [] && Diagonal(vars, roles, s)
    ensures Enumerates(vars, roles, cap, s)
  {
    ProductFirst(roles, |vars|);
    var v := Product(roles, |vars|)[0];
    forall x | x in s ensures Zip(vars, v)[x] == s[x] {
      var i :| 0 <= i < |vars| && vars[i] == x;
      ZipAt(vars, v, i);
    }
    assert Zip(vars, v) == s;
    assert IsNth(vars, roles, 0, s);
  }

  /** The loop that stops at the cap. */
  method ListSubstitutions(vars: seq<string>, roles: seq<string>, cap: nat) returns (listed: seq<Substitution>)
    requires NoDuplicates(vars)
    ensures |listed| == Enumerated(Pow(|roles|, |vars|), cap)
    ensures forall i :: 0 <= i < |listed| ==> IsNth(vars, roles, i, listed[i])
  {
    var product := Product(roles, |vars|);
    listed := [];
    var k := 0;
    while k < |product|
      invariant 0 <= k <= |product| && |listed| == k <= Enumerated(|product|, cap)
      invariant forall i :: 0 <= i < k ==> IsNth(vars, roles, i, listed[i])
      invariant k == |product| || k < Enumerated(|product|, cap)
    {
      NthVector(vars, roles, k);
      listed := listed + [Zip(vars, product[k])];
      k := k + 1;
      if |listed| >= cap { break; }
    }
  }

  lemma ListedExactly(vars: seq<string>, roles: seq<string>, cap: nat, listed: seq<Substitution>, s: Substitution)
    requires |listed| == Enumerated(Pow(|roles|, |vars|), cap)
    requires forall i :: 0 <= i < |listed| ==> IsNth(vars, roles, i, listed[i])
    ensures s in listed <==> Enumerates(vars, roles, cap, s)
  {
    if s in listed {
      var i :| 0 <= i < |listed| && listed[i] == s;
      assert IsNth(vars, roles, i, s);
    }
    if Enumerates(vars, roles, cap, s) {
      var i :| 0 <= i < |listed| && IsNth(vars, roles, i, s);
      assert IsNth(vars, roles, i, listed[i]);
    }
  }

  /** `role_substitutions`: the diagonal first, then the enumerated ones, each once; nothing for
      a law without variables. */
  method RoleSubstitutions(vars: seq<string>, roles: seq<string>, cap: nat) returns (out: seq<Substitution>)
    requires (vars == [] || roles != []) && NoDuplicates(vars)
    ensures vars == [] ==> out == []
    ensures vars != [] ==> out != [] && Diagonal(vars, roles, out[0])
    ensures NoDuplicates(out)
    ensures vars != [] ==> forall s :: s in out <==> Enumerates(vars, roles, cap, s)
  {
    if vars == [] { return []; }
    var listed := ListSubstitutions(vars, roles, cap);
    var diag: Substitution := map v | v in vars :: roles[0];
    DiagonalEnumerated(vars, roles, cap, diag);
    out := Dedup([diag] + listed);
    forall s ensures s in out <==> Enumerates(vars, roles, cap, s) {
      ListedExactly(vars, roles, cap, listed, s);
    }
  }

  lemma {:induction false} PowOne(n: nat)
    ensures Pow(1, n) == 1
  {
    if n == 0 {
    } else {
      PowOne(n - 1);
    }
  }

  /** With one role there is one substitution. */
  lemma OneSubstitution(vars: seq<string>, roles: seq<string>, cap: nat, s: Substitution, t: Substitution)
    requires |roles| == 1 && Enumerates(vars, roles, cap, s) && Enumerates(vars, roles, cap, t)
    ensures s == t
  {
    PowOne(|vars|);
  }

  lemma AtMostOneListed(vars: seq<string>, roles: seq<string>, cap: nat, out: seq<Substitution>)
    requires |roles| == 1 && NoDuplicates(out) && forall s :: s in out ==> Enumerates(vars, roles, cap, s)
    ensures |out| <= 1
  {
    if |out| > 1 {
      assert out[0] in out && out[1] in out;
      OneSubstitution(vars, roles, cap, out[0], out[1]);
    }
  }

  // --------------------------------------------- the relation the closure decides

  /** An enumerated instance of the law with both sides inside the universe. */
  ghost predicate Instance(eq: Equation, roles: seq<string>, d: nat, s: Term, t: Term)
  {
    InUniverse(s, roles, d) && InUniverse(t, roles, d) &&
    exists sub :: Enumerates(EqVars(eq), roles, SUBSTITUTION_CAP, sub) && s == Subst(eq.lhs, sub) && t == Subst(eq.rhs, sub)
  }

  /** The closure reads the first 96 maps of the variables to the roles. */
  lemma FirstNinetySix(vars: seq<string>, roles: seq<string>, s: Substitution)
    ensures Enumerates(vars, roles, SUBSTITUTION_CAP, s) <==>
            exists k :: 0 <= k < 96 && k < Pow(|roles|, |vars|) && IsNth(vars, roles, k, s)
  {
    if exists k :: 0 <= k < 96 && k < Pow(|roles|, |vars|) && IsNth(vars, roles, k, s) {
      var k :| 0 <= k < 96 && k < Pow(|roles|, |vars|) && IsNth(vars, roles, k, s);
      assert k < Enumerated(Pow(|roles|, |vars|), SUBSTITUTION_CAP);
    }
  }

  lemma {:induction false} PowGrows(b: nat, m: nat, n: nat)
    requires b >= 1 && m <= n
    ensures 1 <= Pow(b, m) <= Pow(b, n)
  {
    if n == 0 {
    } else if m == n {
      PowGrows(b, m - 1, n - 1);
      assert b * Pow(b, n - 1) >= Pow(b, n - 1);
    } else {
      PowGrows(b, m, n - 1);
      assert b * Pow(b, n - 1) >= Pow(b, n - 1);
    }
  }

  /** Over one role, over two roles with six variables and over three roles with four, nothing is
      cut: every map of the variables to the roles gives an instance. */
  lemma SmallLawsAreComplete(eq: Equation, roles: seq<string>, d: nat, sub: Substitution)
    requires |roles| == 1 || (|roles| == 2 && |EqVars(eq)| <= 6) || (|roles| == 3 && |EqVars(eq)| <= 4)
    requires sub.Keys == (set v | v in EqVars(eq)) && forall v :: v in sub ==> sub[v] in roles
    requires InUniverse(Subst(eq.lhs, sub), roles, d) && InUniverse(Subst(eq.rhs, sub), roles, d)
    ensures Instance(eq, roles, d, Subst(eq.lhs, sub), Subst(eq.rhs, sub))
  {
    var vars := EqVars(eq);
    if |roles| == 1 {
      PowOne(|vars|);
    } else if |roles| == 2 {
      PowGrows(2, |vars|, 6);
    } else {
      PowGrows(3, |vars|, 4);
    }
    EqVarsAscending(eq);
    AllEnumeratedBelowCap(vars, roles, SUBSTITUTION_CAP, sub);
  }

  ghost predicate UniverseEquivalence(roles: seq<string>, d: nat, R: iset<(Term, Term)>)
  {
    && (forall t :: InUniverse(t, roles, d) ==> (t, t) in R)
    && (forall s, t :: (s, t) in R ==> InUniverse(s, roles, d) && InUniverse(t, roles, d) && (t, s) in R)
    && (forall s, t, u :: (s, t) in R && (t, u) in R ==> (s, u) in R)
  }

  ghost predicate OpRespects(R: iset<(Term, Term)>, s: Term, t: Term)
  {
    s.Op? && t.Op? && (s.left, t.left) in R && (s.right, t.right) in R ==> (s, t) in R
  }

  ghost predicate OpClosed(roles: seq<string>, d: nat, R: iset<(Term, Term)>)
  {
    forall s, t :: InUniverse(s, roles, d) && InUniverse(t, roles, d) ==> OpRespects(R, s, t)
  }

  /** An equivalence on the universe that contains the instances and is closed under the
      operation wherever both results are inside. */
  ghost predicate LawCongruence(eq: Equation, roles: seq<string>, d: nat, R: iset<(Term, Term)>)
  {
    && UniverseEquivalence(roles, d, R)
    && OpClosed(roles, d, R)
    && forall s, t :: Instance(eq, roles, d, s, t) ==> (s, t) in R
  }

  /** `s` and `t` are related by the least such relation. */
  ghost predicate Forced(eq: Equation, roles: seq<string>, d: nat, s: Term, t: Term)
  {
    forall R :: LawCongruence(eq, roles, d, R) ==> (s, t) in R
  }

  // ------------------------------------------- from string keys back to terms

  ghost predicate UniverseList(terms: seq<Term>, roles: seq<string>, d: nat)
  {
    && PlainRoles(roles) && NoDuplicates(terms)
    && forall t :: t in terms <==> InUniverse(t, roles, d)
  }

  function EntryOf(t: Term): Entry
    requires t.Op?
  {
    Entry(Canonical(t.left), Canonical(t.right), Canonical(t))
  }

  /** The key-level system built from the listed universe. */
  ghost predicate Represents(sys: System, terms: seq<Term>, eq: Equation, roles: seq<string>, d: nat)
  {
    && UniverseList(terms, roles, d)
    && (forall k :: k in sys.keys <==> exists t :: t in terms && Canonical(t) == k)
    && (forall t :: t in terms && t.Op? ==> EntryOf(t) in sys.entries)
    && (forall e :: e in sys.entries ==> exists t :: t in terms && t.Op? && e == EntryOf(t))
    && (forall s, t :: Instance(eq, roles, d, s, t) ==> (Canonical(s), Canonical(t)) in sys.base)
    && (forall p :: p in sys.base ==> exists s, t :: Instance(eq, roles, d, s, t) && p == (Canonical(s), Canonical(t)))
  }

  lemma RepresentedIsKeyed(sys: System, terms: seq<Term>, eq: Equation, roles: seq<string>, d: nat)
    requires Represents(sys, terms, eq, roles, d)
    ensures WellKeyed(sys)
  {
    forall i | 0 <= i < |sys.entries| ensures KnownEntry(sys.keys, sys.entries[i]) {
      var e := sys.entries[i];
      assert e in sys.entries;
      var t :| t in terms && t.Op? && e == EntryOf(t);
      UniverseHasSubterms(t, roles, d);
      assert t.left in terms && t.right in terms;
    }
    forall i | 0 <= i < |sys.base| ensures sys.base[i].0 in sys.keys && sys.base[i].1 in sys.keys {
      var p := sys.base[i];
      assert p in sys.base;
      var s, t :| Instance(eq, roles, d, s, t) && p == (Canonical(s), Canonical(t));
      assert s in terms && t in terms;
    }
  }

  /** A congruence of keys, read as a relation of terms. */
  ghost function ToTerms(R: set<Pair>, roles: seq<string>, d: nat): iset<(Term, Term)>
  {
    iset s, t | InUniverse(s, roles, d) && InUniverse(t, roles, d) && (Canonical(s), Canonical(t)) in R :: (s, t)
  }

  lemma TermRespects(sys: System, terms: seq<Term>, eq: Equation, roles: seq<string>, d: nat, R: set<Pair>, s: Term, t: Term)
    requires Represents(sys, terms, eq, roles, d) && Congruent(sys, R)
    requires InUniverse(s, roles, d) && InUniverse(t, roles, d)
    ensures OpRespects(ToTerms(R, roles, d), s, t)
  {
    if s.Op? && t.Op? {
      assert s in terms && t in terms;
      var i :| 0 <= i < |sys.entries| && sys.entries[i] == EntryOf(s);
      var j :| 0 <= j < |sys.entries| && sys.entries[j] == EntryOf(t);
      assert Respects(R, sys.entries[i], sys.entries[j]);
    }
  }

  lemma ToTermsEquivalence(sys: System, terms: seq<Term>, eq: Equation, roles: seq<string>, d: nat, R: set<Pair>)
    requires Represents(sys, terms, eq, roles, d) && Equivalence(sys.keys, R)
    ensures UniverseEquivalence(roles, d, ToTerms(R, roles, d))
  {
    var T := ToTerms(R, roles, d);
    forall t | InUniverse(t, roles, d) ensures (t, t) in T {
      assert t in terms;
    }
  }

  lemma ToTermsIsLawCongruence(sys: System, terms: seq<Term>, eq: Equation, roles: seq<string>, d: nat, R: set<Pair>)
    requires Represents(sys, terms, eq, roles, d) && Congruent(sys, R)
    ensures LawCongruence(eq, roles, d, ToTerms(R, roles, d))
  {
    var T := ToTerms(R, roles, d);
    ToTermsEquivalence(sys, terms, eq, roles, d, R);
    forall s, t | InUniverse(s, roles, d) && InUniverse(t, roles, d) ensures OpRespects(T, s, t) {
      TermRespects(sys, terms, eq, roles, d, R, s, t);
    }
    forall s, t | Instance(eq, roles, d, s, t) ensures (s, t) in T {
      var p := (Canonical(s), Canonical(t));
      assert p in sys.base;
    }
  }

  /** A relation of terms, read as a relation of their keys. */
  ghost function ToKeys(R: iset<(Term, Term)>, keys: set<string>): set<Pair>
  {
    set a, b | a in keys && b in keys && (exists s, t :: (s, t) in R && Canonical(s) == a && Canonical(t) == b) :: (a, b)
  }

  lemma ToKeysExact(terms: seq<Term>, roles: seq<string>, d: nat, R: iset<(Term, Term)>, keys: set<string>, s: Term, t: Term)
    requires UniverseList(terms, roles, d) && UniverseEquivalence(roles, d, R)
    requires InUniverse(s, roles, d) && InUniverse(t, roles, d)
    requires Canonical(s) in keys && Canonical(t) in keys
    ensures (Canonical(s), Canonical(t)) in ToKeys(R, keys) <==> (s, t) in R
  {
    if (Canonical(s), Canonical(t)) in ToKeys(R, keys) {
      var s', t' :| (s', t') in R && Canonical(s') == Canonical(s) && Canonical(t') == Canonical(t);
      KeysIdentify(s, s', roles);
      KeysIdentify(t, t', roles);
    }
  }

  lemma KeyRespects(sys: System, terms: seq<Term>, eq: Equation, roles: seq<string>, d: nat, R: iset<(Term, Term)>, e: Entry, f: Entry)
    requires Represents(sys, terms, eq, roles, d) && LawCongruence(eq, roles, d, R)
    requires e in sys.entries && f in sys.entries
    ensures Respects(ToKeys(R, sys.keys), e, f)
  {
    var s :| s in terms && s.Op? && e == EntryOf(s);
    var t :| t in terms && t.Op? && f == EntryOf(t);
    UniverseHasSubterms(s, roles, d);
    UniverseHasSubterms(t, roles, d);
    assert s.left in terms && s.right in terms && t.left in terms && t.right in terms;
    ToKeysExact(terms, roles, d, R, sys.keys, s.left, t.left);
    ToKeysExact(terms, roles, d, R, sys.keys, s.right, t.right);
    ToKeysExact(terms, roles, d, R, sys.keys, s, t);
    assert OpRespects(R, s, t);
  }

  lemma ToKeysIsCongruent(sys: System, terms: seq<Term>, eq: Equation, roles: seq<string>, d: nat, R: iset<(Term, Term)>)
    requires Represents(sys, terms, eq, roles, d) && LawCongruence(eq, roles, d, R)
    ensures Congruent(sys, ToKeys(R, sys.keys))
  {
    var K := ToKeys(R, sys.keys);
    forall a | a in sys.keys ensures (a, a) in K {
      var t :| t in terms && Canonical(t) == a;
      assert (t, t) in R;
    }
    forall a, b | (a, b) in K ensures a in sys.keys && b in sys.keys && (b, a) in K {
      var s, t :| (s, t) in R && Canonical(s) == a && Canonical(t) == b;
      assert (t, s) in R;
    }
    forall a, b, c | (a, b) in K && (b, c) in K ensures (a, c) in K {
      var s, t :| (s, t) in R && Canonical(s) == a && Canonical(t) == b;
      var t', u :| (t', u) in R && Canonical(t') == b && Canonical(u) == c;
      KeysIdentify(t, t', roles);
      assert (s, u) in R;
    }
    forall i | 0 <= i < |sys.base| ensures sys.base[i] in K {
      assert sys.base[i] in sys.base;
      var s, t :| Instance(eq, roles, d, s, t) && sys.base[i] == (Canonical(s), Canonical(t));
      assert s in terms && t in terms && (s, t) in R;
    }
    forall i, j | 0 <= i < |sys.entries| && 0 <= j < |sys.entries|
      ensures Respects(K, sys.entries[i], sys.entries[j])
    {
      KeyRespects(sys, terms, eq, roles, d, R, sys.entries[i], sys.entries[j]);
    }
  }

  /** The least congruence of the keys is the least law congruence of the terms. */
  lemma LeastIsForced(sys: System, terms: seq<Term>, eq: Equation, roles: seq<string>, d: nat, s: Term, t: Term)
    requires Represents(sys, terms, eq, roles, d)
    requires InUniverse(s, roles, d) && InUniverse(t, roles, d)
    ensures (Canonical(s), Canonical(t)) in Least(sys) <==> Forced(eq, roles, d, s, t)
  {
    RepresentedIsKeyed(sys, terms, eq, roles, d);
    assert s in terms && t in terms;
    assert Canonical(s) in sys.keys && Canonical(t) in sys.keys;
    if (Canonical(s), Canonical(t)) in Least(sys) {
      forall R | LawCongruence(eq, roles, d, R) ensures (s, t) in R {
        ToKeysIsCongruent(sys, terms, eq, roles, d, R);
        assert InEvery(sys, (Canonical(s), Canonical(t)));
        ToKeysExact(terms, roles, d, R, sys.keys, s, t);
      }
    }
    if Forced(eq, roles, d, s, t) {
      forall R | Congruent(sys, R) ensures (Canonical(s), Canonical(t)) in R {
        ToTermsIsLawCongruence(sys, terms, eq, roles, d, R);
        assert (s, t) in ToTerms(R, roles, d);
      }
      assert InEvery(sys, (Canonical(s), Canonical(t)));
    }
  }
}
