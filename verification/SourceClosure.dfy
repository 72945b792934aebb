/** `bounded_source_closure`: from a law to its classes, with the counters it reports and the root maps
    between its rounds. */
module SourceClosure {
  import opened Orders
  import opened Terms
  import opened Syntax
  import opened Universe
  import opened UnionFinds
  import opened Congruence
  import opened Closure

  /** The returned record; `saturated` says that the last round changed nothing. */
  datatype Summary = Summary(
    terms: map<string, Term>,
    classes: map<string, seq<string>>,
    classCount: nat,
    directEqualities: nat,
    congruenceUnions: nat,
    rounds: nat,
    saturated: bool)

  // ------------------------------------------------------ the system of a law

  ghost function KeySet(terms: seq<Term>): set<string>
  {
    set t | t in terms :: Canonical(t)
  }

  ghost function PairOf(eq: Equation, s: Substitution): Pair
  {
    (Canonical(Subst(eq.lhs, s)), Canonical(Subst(eq.rhs, s)))
  }

  /** The key pairs of the substitutions whose two sides are both known. */
  ghost function BasePairs(eq: Equation, subs: seq<Substitution>, keys: set<string>): seq<Pair>
  {
    if subs == [] then []
    else
      var n := |subs| - 1;
      var p := PairOf(eq, subs[n]);
      BasePairs(eq, subs[..n], keys) + (if p.0 in keys && p.1 in keys then [p] else [])
  }

  ghost function EntriesOf(terms: seq<Term>): seq<Entry>
  {
    if terms == [] then []
    else
      var n := |terms| - 1;
      EntriesOf(terms[..n]) + (if terms[n].Op? then [EntryOf(terms[n])] else [])
  }

  /** The operations among the terms, in order. */
  ghost function OpsOf(terms: seq<Term>): seq<Term>
  {
    if terms == [] then []
    else
      var n := |terms| - 1;
      OpsOf(terms[..n]) + (if terms[n].Op? then [terms[n]] else [])
  }

  ghost predicate IsEntryOf(e: Entry, t: Term)
  {
    t.Op? && e == EntryOf(t)
  }

  /** The entries stand for the operations, one by one. */
  lemma {:induction false} EntriesOfOps(terms: seq<Term>)
    ensures |EntriesOf(terms)| == |OpsOf(terms)|
    ensures forall i :: 0 <= i < |OpsOf(terms)| ==> IsEntryOf(EntriesOf(terms)[i], OpsOf(terms)[i])
    ensures forall t :: t in OpsOf(terms) <==> t in terms && t.Op?
  {
    if terms == [] {
    } else {
      var n := |terms| - 1;
      EntriesOfOps(terms[..n]);
      assert terms == terms[..n] + [terms[n]];
    }
  }

  lemma {:induction false} OpsBySize(terms: seq<Term>)
    requires BySize(terms)
    ensures BySize(OpsOf(terms))
  {
    if terms == [] {
    } else {
      var n := |terms| - 1;
      BySizeInit(terms);
      OpsBySize(terms[..n]);
      EntriesOfOps(terms[..n]);
      BySizeSnoc(OpsOf(terms[..n]), terms[n]);
    }
  }

  lemma {:induction false} EntriesExactly(terms: seq<Term>, e: Entry)
    ensures e in EntriesOf(terms) <==> exists t :: t in terms && t.Op? && e == EntryOf(t)
  {
    if terms == [] {
    } else {
      var n := |terms| - 1;
      EntriesExactly(terms[..n], e);
      assert terms == terms[..n] + [terms[n]];
    }
  }

  lemma {:induction false} BaseExactly(eq: Equation, subs: seq<Substitution>, keys: set<string>, p: Pair)
    ensures p in BasePairs(eq, subs, keys) <==>
            p.0 in keys && p.1 in keys && exists s :: s in subs && p == PairOf(eq, s)
  {
    if subs == [] {
    } else {
      var n := |subs| - 1;
      BaseExactly(eq, subs[..n], keys, p);
      assert subs == subs[..n] + [subs[n]];
    }
  }

  lemma KnownKeyIsInside(terms: seq<Term>, roles: seq<string>, d: nat, t: Term)
    requires UniverseList(terms, roles, d) && OverRoles(t, roles)
    ensures Canonical(t) in KeySet(terms) <==> InUniverse(t, roles, d)
  {
    if Canonical(t) in KeySet(terms) {
      var s :| s in terms && Canonical(s) == Canonical(t);
      KeysIdentify(s, t, roles);
    }
    if InUniverse(t, roles, d) {
      assert t in terms;
    }
  }

  lemma InstanceSidesOverRoles(eq: Equation, roles: seq<string>, s: Substitution)
    requires Enumerates(EqVars(eq), roles, SUBSTITUTION_CAP, s)
    ensures OverRoles(Subst(eq.lhs, s), roles) && OverRoles(Subst(eq.rhs, s), roles)
  {
    EnumeratedMapsToRoles(EqVars(eq), roles, SUBSTITUTION_CAP, s);
    SubstOverRoles(eq.lhs, s, roles);
    SubstOverRoles(eq.rhs, s, roles);
  }

  ghost predicate LawSubstitutions(eq: Equation, roles: seq<string>, subs: seq<Substitution>)
  {
    forall s :: s in subs <==> Enumerates(EqVars(eq), roles, SUBSTITUTION_CAP, s)
  }

  lemma BaseIsInstances(eq: Equation, subs: seq<Substitution>, terms: seq<Term>, roles: seq<string>, d: nat)
    requires UniverseList(terms, roles, d) && LawSubstitutions(eq, roles, subs)
    ensures forall s, t :: Instance(eq, roles, d, s, t) ==>
              (Canonical(s), Canonical(t)) in BasePairs(eq, subs, KeySet(terms))
    ensures forall p :: p in BasePairs(eq, subs, KeySet(terms)) ==>
              exists s, t :: Instance(eq, roles, d, s, t) && p == (Canonical(s), Canonical(t))
  {
    var keys := KeySet(terms);
    forall s, t | Instance(eq, roles, d, s, t)
      ensures (Canonical(s), Canonical(t)) in BasePairs(eq, subs, keys)
    {
      var sub :| Enumerates(EqVars(eq), roles, SUBSTITUTION_CAP, sub) && s == Subst(eq.lhs, sub) && t == Subst(eq.rhs, sub);
      assert s in terms && t in terms && sub in subs && PairOf(eq, sub) == (Canonical(s), Canonical(t));
      BaseExactly(eq, subs, keys, (Canonical(s), Canonical(t)));
    }
    forall p | p in BasePairs(eq, subs, keys)
      ensures exists s, t :: Instance(eq, roles, d, s, t) && p == (Canonical(s), Canonical(t))
    {
      BaseExactly(eq, subs, keys, p);
      var sub :| sub in subs && p == PairOf(eq, sub);
      var s, t := Subst(eq.lhs, sub), Subst(eq.rhs, sub);
      InstanceSidesOverRoles(eq, roles, sub);
      KnownKeyIsInside(terms, roles, d, s);
      KnownKeyIsInside(terms, roles, d, t);
      assert Instance(eq, roles, d, s, t);
    }
  }

  ghost function SystemOf(eq: Equation, subs: seq<Substitution>, terms: seq<Term>): System
  {
    System(KeySet(terms), BasePairs(eq, subs, KeySet(terms)), EntriesOf(terms))
  }

  lemma SystemRepresents(eq: Equation, subs: seq<Substitution>, terms: seq<Term>, roles: seq<string>, d: nat)
    requires UniverseList(terms, roles, d) && LawSubstitutions(eq, roles, subs)
    ensures Represents(SystemOf(eq, subs, terms), terms, eq, roles, d)
    ensures WellKeyed(SystemOf(eq, subs, terms))
  {
    var sys := SystemOf(eq, subs, terms);
    BaseIsInstances(eq, subs, terms, roles, d);
    forall t | t in terms && t.Op? ensures EntryOf(t) in sys.entries {
      EntriesExactly(terms, EntryOf(t));
    }
    forall e | e in sys.entries ensures exists t :: t in terms && t.Op? && e == EntryOf(t) {
      EntriesExactly(terms, e);
    }
    RepresentedIsKeyed(sys, terms, eq, roles, d);
  }

  lemma {:induction false} KeyCount(terms: seq<Term>, roles: seq<string>)
    requires PlainRoles(roles) && NoDuplicates(terms) && forall t :: t in terms ==> OverRoles(t, roles)
    ensures |KeySet(terms)| == |terms|
  {
    if terms == [] {
    } else {
      var n := |terms| - 1;
      var init, last := terms[..n], terms[n];
      assert terms == init + [last];
      KeyCount(init, roles);
      assert KeySet(terms) == KeySet(init) + {Canonical(last)};
      if Canonical(last) in KeySet(init) {
        var s :| s in init && Canonical(s) == Canonical(last);
        KeysIdentify(s, last, roles);
        assert false;
      }
    }
  }

  // ------------------------------------------------------- what the result says

  /** The classes only join terms the law forces to be equal. */
  ghost predicate Sound(eq: Equation, roles: seq<string>, d: nat, r: Roots)
  {
    forall s, t :: InUniverse(s, roles, d) && InUniverse(t, roles, d) ==>
      Canonical(s) in r && Canonical(t) in r &&
      (r[Canonical(s)] == r[Canonical(t)] ==> Forced(eq, roles, d, s, t))
  }

  /** The classes join exactly those. */
  ghost predicate Exact(eq: Equation, roles: seq<string>, d: nat, r: Roots)
  {
    forall s, t :: InUniverse(s, roles, d) && InUniverse(t, roles, d) ==>
      Canonical(s) in r && Canonical(t) in r &&
      (r[Canonical(s)] == r[Canonical(t)] <==> Forced(eq, roles, d, s, t))
  }

  lemma JustifiedIsSound(sys: System, terms: seq<Term>, eq: Equation, roles: seq<string>, d: nat, r: Roots)
    requires Represents(sys, terms, eq, roles, d) && Justified(r, sys)
    ensures Sound(eq, roles, d, r)
    ensures SameClass(r) == Least(sys) ==> Exact(eq, roles, d, r)
  {
    forall s, t | InUniverse(s, roles, d) && InUniverse(t, roles, d)
      ensures Canonical(s) in r && Canonical(t) in r
      ensures r[Canonical(s)] == r[Canonical(t)] ==> Forced(eq, roles, d, s, t)
      ensures SameClass(r) == Least(sys) && Forced(eq, roles, d, s, t) ==> r[Canonical(s)] == r[Canonical(t)]
    {
      assert s in terms && t in terms;
      LeastIsForced(sys, terms, eq, roles, d, s, t);
      if r[Canonical(s)] == r[Canonical(t)] {
        assert (Canonical(s), Canonical(t)) in SameClass(r);
      }
    }
  }

  /** The members of a class, in the order of the universe. */
  ghost function Members(keys: seq<string>, r: Roots, root: string): seq<string>
    requires forall k :: k in keys ==> k in r
  {
    if keys == [] then []
    else
      var n := |keys| - 1;
      assert keys[n] in keys;
      Members(keys[..n], r, root) + (if r[keys[n]] == root then [keys[n]] else [])
  }

  ghost predicate Grouped(classes: map<string, seq<string>>, keys: seq<string>, r: Roots)
    requires forall k :: k in keys ==> k in r
  {
    && (forall root :: root in classes <==> exists k :: k in keys && r[k] == root)
    && forall root :: root in classes ==> classes[root] == Members(keys, r, root)
  }

  ghost predicate Listing(keys: seq<string>, terms: seq<Term>)
  {
    |keys| == |terms| && forall i :: 0 <= i < |terms| ==> keys[i] == Canonical(terms[i])
  }

  lemma ListingKeys(keys: seq<string>, terms: seq<Term>)
    requires Listing(keys, terms)
    ensures forall k :: k in keys <==> k in KeySet(terms)
  {
    forall k | k in keys ensures k in KeySet(terms) {
      var i :| 0 <= i < |keys| && keys[i] == k;
      assert terms[i] in terms;
    }
    forall k | k in KeySet(terms) ensures k in keys {
      var t :| t in terms && Canonical(t) == k;
      var i :| 0 <= i < |terms| && terms[i] == t;
      assert keys[i] in keys;
    }
  }

  /** `term_by_key`, and its keys in order. */
  method IndexTerms(terms: seq<Term>) returns (keys: seq<string>, byKey: map<string, Term>)
    ensures Listing(keys, terms)
    ensures byKey.Keys == KeySet(terms) && forall k :: k in byKey ==> byKey[k] in terms && Canonical(byKey[k]) == k
  {
    keys, byKey := [], map[];
    for i := 0 to |terms|
      invariant Listing(keys, terms[..i])
      invariant byKey.Keys == KeySet(terms[..i])
      invariant forall k :: k in byKey ==> byKey[k] in terms && Canonical(byKey[k]) == k
    {
      assert terms[..i + 1] == terms[..i] + [terms[i]];
      keys := keys + [Canonical(terms[i])];
      byKey := byKey[Canonical(terms[i]) := terms[i]];
    }
    assert terms[..|terms|] == terms;
  }

  method BuildIndex(terms: seq<Term>) returns (entries: seq<Entry>)
    ensures entries == EntriesOf(terms)
  {
    entries := [];
    for i := 0 to |terms|
      invariant entries == EntriesOf(terms[..i])
    {
      assert terms[..i + 1][..i] == terms[..i];
      if terms[i].Op? {
        entries := entries + [EntryOf(terms[i])];
      }
    }
    assert terms[..|terms|] == terms;
  }

  ghost predicate Joined(p: Pair, keys: set<string>, R: set<Pair>)
  {
    p.0 in keys && p.1 in keys ==> p in R
  }

  /** The first `n` substitutions have had their two sides joined, where both are known. */
  ghost predicate JoinedUpTo(eq: Equation, subs: seq<Substitution>, n: nat, keys: set<string>, R: set<Pair>)
    requires n <= |subs|
  {
    forall i :: 0 <= i < n ==> Joined(PairOf(eq, subs[i]), keys, R)
  }

  lemma JoinedStep(eq: Equation, subs: seq<Substitution>, n: nat, keys: set<string>, R: set<Pair>, R': set<Pair>)
    requires n < |subs| && JoinedUpTo(eq, subs, n, keys, R) && R <= R'
    requires Joined(PairOf(eq, subs[n]), keys, R')
    ensures JoinedUpTo(eq, subs, n + 1, keys, R')
  {
    forall i | 0 <= i < n + 1 ensures Joined(PairOf(eq, subs[i]), keys, R') {
      if i < n { assert Joined(PairOf(eq, subs[i]), keys, R); }
    }
  }

  lemma JoinedIsContained(eq: Equation, subs: seq<Substitution>, keys: set<string>, R: set<Pair>)
    requires JoinedUpTo(eq, subs, |subs|, keys, R)
    ensures Contains(R, BasePairs(eq, subs, keys))
  {
    var base := BasePairs(eq, subs, keys);
    forall j | 0 <= j < |base| ensures base[j] in R {
      assert base[j] in base;
      BaseExactly(eq, subs, keys, base[j]);
      var s :| s in subs && base[j] == PairOf(eq, s);
      var i :| 0 <= i < |subs| && subs[i] == s;
      assert Joined(PairOf(eq, subs[i]), keys, R);
    }
  }

  lemma BaseInLeast(sys: System, p: Pair)
    requires WellKeyed(sys) && p in sys.base
    ensures p in Least(sys)
  {
    LeastIsCongruent(sys);
  }

  lemma PairIsRelated(eq: Equation, subs: seq<Substitution>, i: nat, sys: System)
    requires WellKeyed(sys) && sys.base == BasePairs(eq, subs, sys.keys) && i < |subs|
    ensures Joined(PairOf(eq, subs[i]), sys.keys, Least(sys))
  {
    var p := PairOf(eq, subs[i]);
    if p.0 in sys.keys && p.1 in sys.keys {
      assert subs[i] in subs;
      BaseExactly(eq, subs, sys.keys, p);
      BaseInLeast(sys, p);
    }
  }

  ghost predicate ContainsClasses(E: set<Pair>, r: Roots)
  {
    SameClass(r) <= E
  }

  /** Every equivalence that contains the base contains the classes. */
  ghost predicate InsideAll(r: Roots, keys: set<string>, base: seq<Pair>)
  {
    forall E {:trigger ContainsClasses(E, r)} :: Equivalence(keys, E) && Contains(E, base) ==> ContainsClasses(E, r)
  }

  /** The classes are those of the least equivalence that contains the base. */
  ghost predicate Generated(r: Roots, keys: set<string>, base: seq<Pair>)
  {
    r.Keys == keys && Contains(SameClass(r), base) && InsideAll(r, keys, base)
  }

  lemma FreshInsideAll(r: Roots, keys: set<string>, base: seq<Pair>)
    requires Fresh(r) && r.Keys == keys
    ensures InsideAll(r, keys, base)
  {
  }

  lemma MergeInsideAll(r: Roots, keys: set<string>, base: seq<Pair>, p: Pair)
    requires r.Keys == keys && p in base && p.0 in keys && p.1 in keys && InsideAll(r, keys, base)
    ensures InsideAll(Merge(r, p.0, p.1), keys, base)
  {
    var q := Merge(r, p.0, p.1);
    var c := UnionCall(p.0, p.1);
    assert After(r, c) == q;
    forall E {:trigger ContainsClasses(E, q)} | Equivalence(keys, E) && Contains(E, base) ensures ContainsClasses(E, q) {
      assert ContainsClasses(E, r);
      var i :| 0 <= i < |base| && base[i] == p;
      assert (p.0, p.1) in E;
      LastCallStaysInside(r, c, E);
    }
  }

  lemma KnownPairInBase(eq: Equation, subs: seq<Substitution>, i: nat, keys: set<string>)
    requires i < |subs|
    ensures var p := PairOf(eq, subs[i]); p.0 in keys && p.1 in keys ==> p in BasePairs(eq, subs, keys)
  {
    assert subs[i] in subs;
    BaseExactly(eq, subs, keys, PairOf(eq, subs[i]));
  }

  /** The direct equalities: one union per substitution with both sides in the universe. */
  method DirectUnions(uf: UnionFind, eq: Equation, subs: seq<Substitution>, byKey: map<string, Term>, ghost sys: System)
    returns (direct: nat)
    requires uf.Valid() && WellKeyed(sys) && byKey.Keys == sys.keys
    requires sys.base == BasePairs(eq, subs, sys.keys)
    requires Fresh(uf.Classes()) && uf.Classes().Keys == sys.keys
    modifies uf
    ensures uf.Valid() && Justified(uf.Classes(), sys) && Contains(SameClass(uf.Classes()), sys.base)
    ensures Generated(uf.Classes(), sys.keys, sys.base)
    ensures |Reps(uf.Classes())| + direct == |sys.keys| && direct <= |subs|
  {
    direct := 0;
    FreshJustified(uf.Classes(), sys);
    FreshInsideAll(uf.Classes(), sys.keys, sys.base);
    for i := 0 to |subs|
      invariant uf.Valid() && Justified(uf.Classes(), sys) && InsideAll(uf.Classes(), sys.keys, sys.base)
      invariant JoinedUpTo(eq, subs, i, sys.keys, SameClass(uf.Classes()))
      invariant |Reps(uf.Classes())| + direct == |sys.keys| && direct <= i
    {
      ghost var r := uf.Classes();
      assert Justified(r, sys);
      var lhs := Canonical(Subst(eq.lhs, subs[i]));
      var rhs := Canonical(Subst(eq.rhs, subs[i]));
      if lhs in byKey && rhs in byKey {
        PairIsRelated(eq, subs, i, sys);
        KnownPairInBase(eq, subs, i, sys.keys);
        MergeInsideAll(r, sys.keys, sys.base, (lhs, rhs));
        var merged := UnionRelated(uf, lhs, rhs, sys);
        direct := direct + if merged then 1 else 0;
        assert Justified(uf.Classes(), sys);
        assert Joined(PairOf(eq, subs[i]), sys.keys, SameClass(uf.Classes()));
      } else {
        assert uf.Classes() == r;
        assert Joined(PairOf(eq, subs[i]), sys.keys, SameClass(uf.Classes()));
      }
      JoinedStep(eq, subs, i, sys.keys, SameClass(r), SameClass(uf.Classes()));
    }
    JoinedIsContained(eq, subs, sys.keys, SameClass(uf.Classes()));
  }

  lemma {:induction false} EmptyClass(keys: seq<string>, r: Roots, root: string)
    requires forall k :: k in keys ==> k in r && r[k] != root
    ensures Members(keys, r, root) == []
  {
    if keys == [] {
    } else {
      EmptyClass(keys[..|keys| - 1], r, root);
    }
  }

  lemma GroupedStep(classes: map<string, seq<string>>, keys: seq<string>, i: nat, r: Roots)
    requires i < |keys| && forall k :: k in keys ==> k in r
    requires Grouped(classes, keys[..i], r)
    ensures var root := r[keys[i]];
            Grouped(classes[root := (if root in classes then classes[root] else []) + [keys[i]]], keys[..i + 1], r)
  {
    var k, root := keys[i], r[keys[i]];
    var before, after := keys[..i], keys[..i + 1];
    assert after == before + [k] && after[..i] == before;
    if root !in classes {
      EmptyClass(before, r, root);
    }
    var grown := classes[root := (if root in classes then classes[root] else []) + [k]];
    forall other | other in grown ensures grown[other] == Members(after, r, other) {
    }
    forall other ensures other in grown <==> exists x :: x in after && r[x] == other {
      if other in classes {
        var x :| x in before && r[x] == other;
        assert x in after;
      }
    }
  }

  /** The class dictionary, filled by looking every key up. */
  method GroupClasses(uf: UnionFind, keys: seq<string>) returns (classes: map<string, seq<string>>)
    requires uf.Valid() && forall k :: k in keys ==> k in uf.Classes()
    modifies uf
    ensures uf.Valid() && uf.Classes() == old(uf.Classes())
    ensures Grouped(classes, keys, uf.Classes())
  {
    classes := map[];
    ghost var r := uf.Classes();
    for i := 0 to |keys|
      invariant uf.Valid() && uf.Classes() == r
      invariant Grouped(classes, keys[..i], r)
    {
      var root := uf.Find(keys[i]);
      GroupedStep(classes, keys, i, r);
      classes := classes[root := (if root in classes then classes[root] else []) + [keys[i]]];
    }
    assert keys[..|keys|] == keys;
  }

  lemma GroupsAreReps(classes: map<string, seq<string>>, keys: seq<string>, r: Roots)
    requires ValidRoots(r) && forall k :: k in keys <==> k in r
    requires Grouped(classes, keys, r)
    ensures classes.Keys == Reps(r) && |classes| == |Reps(r)|
  {
    forall k | k in r ensures Rooted(r, k) {}
    forall root | root in Reps(r) ensures root in classes { assert r[root] == root; }
    forall root | root in classes ensures root in Reps(r) {
      var k :| k in keys && r[k] == root;
      assert Rooted(r, k);
    }
    assert |classes| == |classes.Keys|;
  }

  /** `list` holds the keys of the universe terms at the positions `pos`, in that order: the positions
      of all terms with this root. */
  ghost predicate Picked(list: seq<string>, terms: seq<Term>, r: Roots, root: string, pos: seq<nat>)
  {
    && |pos| == |list|
    && (forall k :: 0 <= k < |pos| ==> pos[k] < |terms| && list[k] == Canonical(terms[pos[k]]))
    && (forall k, l :: 0 <= k < l < |pos| ==> pos[k] < pos[l])
    && forall i: nat :: i < |terms| ==> (i in pos <==> Canonical(terms[i]) in r && r[Canonical(terms[i])] == root)
  }

  /** A class lists the keys of exactly the universe terms with its root, each once, in universe order. */
  ghost predicate ClassListed(c: Summary, terms: seq<Term>, r: Roots, root: string)
  {
    root in c.classes && exists pos :: Picked(c.classes[root], terms, r, root, pos)
  }

  lemma PickedNext(list: seq<string>, terms: seq<Term>, n: nat, r: Roots, root: string, pos: seq<nat>)
    requires n + 1 == |terms| && Picked(list, terms[..n], r, root, pos)
    ensures var k := Canonical(terms[n]);
            var more := k in r && r[k] == root;
            Picked(list + (if more then [k] else []), terms, r, root, pos + if more then [n] else [])
  {
    var k := Canonical(terms[n]);
    var pos' := pos + if k in r && r[k] == root then [n] else [];
    forall i: nat | i < |terms| ensures i in pos' <==> Canonical(terms[i]) in r && r[Canonical(terms[i])] == root {
      if i < n { assert terms[..n][i] == terms[i]; }
      if i in pos { assert i < n; }
    }
  }

  lemma {:induction false} MembersPicked(keys: seq<string>, terms: seq<Term>, r: Roots, root: string) returns (pos: seq<nat>)
    requires Listing(keys, terms) && forall k :: k in keys ==> k in r
    ensures Picked(Members(keys, r, root), terms, r, root, pos)
  {
    if keys == [] {
      pos := [];
    } else {
      var n := |keys| - 1;
      assert keys[n] in keys;
      pos := MembersPicked(keys[..n], terms[..n], r, root);
      PickedNext(Members(keys[..n], r, root), terms, n, r, root, pos);
      pos := pos + if r[keys[n]] == root then [n] else [];
    }
  }

  /** The size of a class is the number of universe terms with its root. */
  lemma PickedSize(list: seq<string>, terms: seq<Term>, r: Roots, root: string, pos: seq<nat>, members: set<Term>)
    requires NoDuplicates(terms) && Picked(list, terms, r, root, pos)
    requires forall t :: t in members <==> t in terms && Canonical(t) in r && r[Canonical(t)] == root
    ensures |list| == |members|
  {
    var ts := seq(|pos|, k requires 0 <= k < |pos| => terms[pos[k]]);
    forall t | t in members ensures t in ts {
      var i: nat :| i < |terms| && terms[i] == t;
      var k :| 0 <= k < |pos| && pos[k] == i;
      assert ts[k] == t;
    }
    forall t | t in ts ensures t in members {
      var k :| 0 <= k < |ts| && ts[k] == t;
      assert pos[k] in pos;
    }
    DistinctSize(ts, members);
  }

  ghost predicate AllListed(c: Summary, terms: seq<Term>, r: Roots)
  {
    forall root {:trigger ClassListed(c, terms, r, root)} :: root in c.classes ==> ClassListed(c, terms, r, root)
  }

  /** The terms, the classes and the counters of a result. */
  ghost predicate ClosureShape(roles: seq<string>, d: nat, terms: seq<Term>, r: Roots, c: Summary)
  {
    && UniverseList(terms, roles, d)
    && ValidRoots(r) && r.Keys == c.terms.Keys == KeySet(terms)
    && (forall k :: k in c.terms ==> c.terms[k] in terms && Canonical(c.terms[k]) == k)
    && c.classes.Keys == Reps(r)
    && AllListed(c, terms, r)
    && c.classCount == |Reps(r)|
    && c.classCount + c.directEqualities + c.congruenceUnions == |terms|
    && (|roles| == 1 ==> c.directEqualities <= 1)
  }

  /** What holds of every result of the closure. */
  ghost predicate ClosureResult(eq: Equation, roles: seq<string>, d: nat, terms: seq<Term>, r: Roots, c: Summary)
  {
    ClosureShape(roles, d, terms, r, c) && Sound(eq, roles, d, r) && (c.saturated ==> Exact(eq, roles, d, r))
  }

  /** Where a result comes from: the system of the law, with an entry for each operation in the order
      of their size, and the root maps between the rounds. The first ones are those of the direct
      equalities alone, which account for the classes lost by then. */
  ghost predicate ClosureRun(eq: Equation, roles: seq<string>, d: nat, terms: seq<Term>, sys: System, history: seq<Roots>, c: Summary)
  {
    && Represents(sys, terms, eq, roles, d) && BySize(terms) && sys.entries == EntriesOf(terms)
    && Saturation(sys, history, !c.saturated) && |history| == c.rounds + 1
    && Justified(history[0], sys) && Generated(history[0], sys.keys, sys.base)
    && |Reps(history[0])| + c.directEqualities == |sys.keys|
  }

  /** The two union phases: direct equalities, then saturation. */
  method CloseClasses(uf: UnionFind, eq: Equation, subs: seq<Substitution>, terms: seq<Term>, byKey: map<string, Term>,
                      cap: nat, ghost sys: System)
    returns (direct: nat, unions: nat, rounds: nat, changed: bool, ghost history: seq<Roots>)
    requires uf.Valid() && WellKeyed(sys) && byKey.Keys == sys.keys
    requires sys.base == BasePairs(eq, subs, sys.keys) && sys.entries == EntriesOf(terms)
    requires Fresh(uf.Classes()) && uf.Classes().Keys == sys.keys
    modifies uf
    ensures uf.Valid() && Justified(uf.Classes(), sys)
    ensures |Reps(uf.Classes())| + direct + unions == |sys.keys|
    ensures direct <= |subs| && rounds <= cap && (changed ==> rounds == cap && unions >= rounds)
    ensures !changed ==> SameClass(uf.Classes()) == Least(sys)
    ensures Saturation(sys, history, changed) && |history| == rounds + 1 && history[rounds] == uf.Classes()
    ensures Justified(history[0], sys) && Generated(history[0], sys.keys, sys.base)
    ensures |Reps(history[0])| + direct == |sys.keys|
  {
    direct := DirectUnions(uf, eq, subs, byKey, sys);
    var entries := BuildIndex(terms);
    unions, rounds, changed, history := Saturate(uf, entries, cap, sys);
  }

  lemma FreshClasses(uf: UnionFind, keys: seq<string>)
    requires uf.Valid() && (forall k :: k in uf.parent <==> k in keys)
    requires forall k :: k in keys ==> uf.Classes()[k] == k
    ensures Fresh(uf.Classes()) && forall k :: k in uf.Classes() <==> k in keys
  {
  }

  lemma GroupedIsListed(keys: seq<string>, terms: seq<Term>, r: Roots, c: Summary)
    requires Listing(keys, terms) && (forall k :: k in keys ==> k in r) && Grouped(c.classes, keys, r)
    ensures AllListed(c, terms, r)
  {
    forall root {:trigger ClassListed(c, terms, r, root)} | root in c.classes ensures ClassListed(c, terms, r, root) {
      var pos := MembersPicked(keys, terms, r, root);
    }
  }

  lemma AssembleShape(terms: seq<Term>, roles: seq<string>, d: nat, keys: seq<string>, r: Roots, c: Summary)
    requires UniverseList(terms, roles, d) && ValidRoots(r)
    requires r.Keys == KeySet(terms) == c.terms.Keys && Listing(keys, terms)
    requires forall k :: k in keys ==> k in r
    requires forall k :: k in c.terms ==> c.terms[k] in terms && Canonical(c.terms[k]) == k
    requires Grouped(c.classes, keys, r) && c.classCount == |c.classes|
    requires |Reps(r)| + c.directEqualities + c.congruenceUnions == |r.Keys|
    requires |roles| == 1 ==> c.directEqualities <= 1
    ensures ClosureShape(roles, d, terms, r, c)
  {
    ListingKeys(keys, terms);
    GroupsAreReps(c.classes, keys, r);
    KeyCount(terms, roles);
    GroupedIsListed(keys, terms, r, c);
  }

  /** A run that used the whole cap has more terms than the cap. */
  lemma CapBelowTerms(terms: seq<Term>, roles: seq<string>, d: nat, r: Roots, c: Summary, cap: nat)
    requires ClosureShape(roles, d, terms, r, c) && roles != []
    requires c.rounds == cap && c.congruenceUnions >= c.rounds
    ensures cap < |terms|
  {
    assert InUniverse(Var(roles[0]), roles, d);
    assert Var(roles[0]) in terms;
    assert Canonical(Var(roles[0])) in r.Keys;
    KeyCount(terms, roles);
    CapNeverReached(r.Keys, r, c.directEqualities + c.congruenceUnions, c.rounds, cap);
  }

  lemma Finished(sys: System, eq: Equation, terms: seq<Term>, roles: seq<string>, d: nat,
                 keys: seq<string>, r: Roots, c: Summary, cap: nat)
    requires Represents(sys, terms, eq, roles, d) && Justified(r, sys) && sys.keys == KeySet(terms) && roles != []
    requires KeySet(terms) == c.terms.Keys && Listing(keys, terms) && forall k :: k in keys ==> k in r
    requires forall k :: k in c.terms ==> c.terms[k] in terms && Canonical(c.terms[k]) == k
    requires Grouped(c.classes, keys, r) && c.classCount == |c.classes|
    requires |Reps(r)| + c.directEqualities + c.congruenceUnions == |sys.keys|
    requires |roles| == 1 ==> c.directEqualities <= 1
    requires c.saturated ==> SameClass(r) == Least(sys)
    requires !c.saturated ==> c.rounds == cap && c.congruenceUnions >= c.rounds
    ensures ClosureResult(eq, roles, d, terms, r, c)
    ensures !c.saturated ==> cap < |terms|
  {
    AssembleShape(terms, roles, d, keys, r, c);
    JustifiedIsSound(sys, terms, eq, roles, d, r);
    if !c.saturated {
      CapBelowTerms(terms, roles, d, r, c, cap);
    }
  }

  /** The union-find before any union: the universe, its keys, and every key in a class of its own. */
  method StartClosure(roles: seq<string>, maxDepth: nat)
    returns (uf: UnionFind, terms: seq<Term>, keys: seq<string>, byKey: map<string, Term>)
    requires PlainRoles(roles)
    ensures fresh(uf) && uf.Valid() && Fresh(uf.Classes()) && forall k :: k in uf.Classes() <==> k in keys
    ensures UniverseList(terms, roles, maxDepth) && BySize(terms)
    ensures Listing(keys, terms) && byKey.Keys == KeySet(terms) && uf.Classes().Keys == KeySet(terms)
    ensures forall k :: k in byKey ==> byKey[k] in terms && Canonical(byKey[k]) == k
  {
    terms := GenerateTermsForRoles(roles, maxDepth);
    keys, byKey := IndexTerms(terms);
    ListingKeys(keys, terms);
    uf := new UnionFind(keys);
    FreshClasses(uf, keys);
  }

  /** The substitutions of the law; with one role there is one. */
  method LawSubs(eq: Equation, roles: seq<string>) returns (subs: seq<Substitution>)
    requires roles != []
    ensures LawSubstitutions(eq, roles, subs) && (|roles| == 1 ==> |subs| <= 1)
  {
    subs := RoleSubstitutions(EqVars(eq), roles, SUBSTITUTION_CAP);
    if |roles| == 1 {
      AtMostOneListed(EqVars(eq), roles, SUBSTITUTION_CAP, subs);
    }
  }

  /** The unions and the result record. */
  method MergeAndGroup(uf: UnionFind, eq: Equation, terms: seq<Term>, keys: seq<string>, byKey: map<string, Term>,
                       subs: seq<Substitution>, cap: nat, ghost sys: System)
    returns (c: Summary, ghost history: seq<Roots>)
    requires uf.Valid() && WellKeyed(sys) && byKey.Keys == sys.keys
    requires sys.base == BasePairs(eq, subs, sys.keys) && sys.entries == EntriesOf(terms)
    requires Fresh(uf.Classes()) && uf.Classes().Keys == sys.keys && forall k :: k in keys ==> k in uf.Classes()
    modifies uf
    ensures uf.Valid() && Justified(uf.Classes(), sys)
    ensures c.terms == byKey && Grouped(c.classes, keys, uf.Classes()) && c.classCount == |c.classes|
    ensures |Reps(uf.Classes())| + c.directEqualities + c.congruenceUnions == |sys.keys|
    ensures c.directEqualities <= |subs| && c.rounds <= cap
    ensures !c.saturated ==> c.rounds == cap && c.congruenceUnions >= c.rounds
    ensures c.saturated ==> SameClass(uf.Classes()) == Least(sys)
    ensures Saturation(sys, history, !c.saturated) && |history| == c.rounds + 1 && history[c.rounds] == uf.Classes()
    ensures Justified(history[0], sys) && Generated(history[0], sys.keys, sys.base)
    ensures |Reps(history[0])| + c.directEqualities == |sys.keys|
  {
    var direct, unions, rounds, changed;
    direct, unions, rounds, changed, history := CloseClasses(uf, eq, subs, terms, byKey, cap, sys);
    var classes := GroupClasses(uf, keys);
    c := Summary(byKey, classes, |classes|, direct, unions, rounds, !changed);
  }

  /** From the fresh union-find to the result and what it means. */
  method FinishClosure(uf: UnionFind, eq: Equation, roles: seq<string>, d: nat, terms: seq<Term>, keys: seq<string>,
                       byKey: map<string, Term>, subs: seq<Substitution>, cap: nat, ghost sys: System)
    returns (c: Summary, ghost history: seq<Roots>)
    requires uf.Valid() && Fresh(uf.Classes()) && uf.Classes().Keys == sys.keys && roles != []
    requires Represents(sys, terms, eq, roles, d) && WellKeyed(sys) && BySize(terms)
    requires sys == SystemOf(eq, subs, terms) && (|roles| == 1 ==> |subs| <= 1)
    requires byKey.Keys == sys.keys && Listing(keys, terms) && forall k :: k in keys ==> k in uf.Classes()
    requires forall k :: k in byKey ==> byKey[k] in terms && Canonical(byKey[k]) == k
    modifies uf
    ensures uf.Valid()
    ensures ClosureResult(eq, roles, d, terms, uf.Classes(), c)
    ensures ClosureRun(eq, roles, d, terms, sys, history, c) && history[c.rounds] == uf.Classes()
    ensures c.rounds <= cap && (!c.saturated ==> c.rounds == cap < |terms|)
  {
    c, history := MergeAndGroup(uf, eq, terms, keys, byKey, subs, cap, sys);
    Finished(sys, eq, terms, roles, d, keys, uf.Classes(), c, cap);
  }

  /** The closure itself, for any cap on the rounds; the program always passes twelve. */
  method BoundedSourceClosure(eq: Equation, roles: seq<string>, maxDepth: nat, cap: nat)
    returns (uf: UnionFind, terms: seq<Term>, c: Summary, ghost sys: System, ghost history: seq<Roots>)
    requires PlainRoles(roles) && roles != []
    ensures fresh(uf) && uf.Valid()
    ensures ClosureResult(eq, roles, maxDepth, terms, uf.Classes(), c)
    ensures ClosureRun(eq, roles, maxDepth, terms, sys, history, c) && history[c.rounds] == uf.Classes()
    ensures c.rounds <= cap && (!c.saturated ==> c.rounds == cap < |terms|)
  {
    var keys, byKey;
    uf, terms, keys, byKey := StartClosure(roles, maxDepth);
    var subs := LawSubs(eq, roles);
    sys := SystemOf(eq, subs, terms);
    SystemRepresents(eq, subs, terms, roles, maxDepth);
    c, history := FinishClosure(uf, eq, roles, maxDepth, terms, keys, byKey, subs, cap, sys);
  }
}
