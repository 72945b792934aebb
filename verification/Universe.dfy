/** The finite term universe: all terms over the roles with at most `maxDepth` operations, listed in the
    order of their size. */
module Universe {
  import opened Orders
  import opened Terms
  import opened Syntax

  ghost predicate PlainRoles(roles: seq<string>)
  {
    forall r :: r in roles ==> PlainName(r)
  }

  lemma {:induction false} OverPlainRoles(t: Term, roles: seq<string>)
    requires PlainRoles(roles) && OverRoles(t, roles)
    ensures Printable(t)
  {
    match t
    case Var(_) =>
    case Op(l, r) => OverPlainRoles(l, roles); OverPlainRoles(r, roles);
  }

  /** The terms the universe is meant to hold. */
  predicate InUniverse(t: Term, roles: seq<string>, maxDepth: nat)
  {
    OverRoles(t, roles) && Ops(t) <= maxDepth
  }

  /** Over plain roles, equal keys are equal terms. */
  lemma KeysIdentify(s: Term, t: Term, roles: seq<string>)
    requires PlainRoles(roles) && OverRoles(s, roles) && OverRoles(t, roles)
    requires Canonical(s) == Canonical(t)
    ensures s == t
  {
    OverPlainRoles(s, roles);
    OverPlainRoles(t, roles);
    CanonicalInjective(s, t);
  }

  /** The universe contains the two sides of each of its operations. */
  lemma UniverseHasSubterms(t: Term, roles: seq<string>, maxDepth: nat)
    requires InUniverse(t, roles, maxDepth) && t.Op?
    ensures InUniverse(t.left, roles, maxDepth) && InUniverse(t.right, roles, maxDepth)
  {
  }

  /** `seen` as an insertion-ordered dictionary: the listed terms, one per key. */
  ghost predicate Seen(seen: set<string>, order: seq<Term>, roles: seq<string>)
  {
    && (forall t :: t in order ==> OverRoles(t, roles) && Canonical(t) in seen)
    && (forall k :: k in seen ==> exists t :: t in order && Canonical(t) == k)
  }

  lemma SeenExactly(seen: set<string>, order: seq<Term>, roles: seq<string>, t: Term)
    requires PlainRoles(roles) && Seen(seen, order, roles) && OverRoles(t, roles)
    ensures Canonical(t) in seen <==> t in order
  {
    if Canonical(t) in seen {
      var s :| s in order && Canonical(s) == Canonical(t);
      KeysIdentify(s, t, roles);
    }
  }

  /** `t` is built from the pairs that come before position (ia, ib) of the two levels. */
  ghost predicate Built(t: Term, d: nat, dl: nat, left: seq<Term>, ia: nat, right: seq<Term>, ib: nat)
    requires ia <= |left| && ib <= |right|
  {
    t.Op? && Ops(t) == d &&
    (Ops(t.left) < dl
     || (Ops(t.left) == dl && t.left in left[..ia])
     || (ia < |left| && t.left == left[ia] && t.right in right[..ib]))
  }

  /** The terms built on level `d` so far, with all smaller left sides done. */
  ghost predicate LevelDone(level: seq<Term>, roles: seq<string>, d: nat, dl: nat)
  {
    forall t :: t in level <==> OverRoles(t, roles) && t.Op? && Ops(t) == d && Ops(t.left) < dl
  }

  ghost predicate LevelExact(level: seq<Term>, roles: seq<string>, m: nat)
  {
    forall t :: t in level <==> OverRoles(t, roles) && Ops(t) == m
  }

  ghost predicate LevelsExact(byDepth: seq<seq<Term>>, roles: seq<string>)
  {
    forall m :: 0 <= m < |byDepth| ==> LevelExact(byDepth[m], roles, m)
  }

  /** `level` holds the pairs before position (ia, ib), and all pairs with a smaller left side. */
  ghost predicate RowDone(level: seq<Term>, roles: seq<string>, d: nat, dl: nat, left: seq<Term>, ia: nat, right: seq<Term>, ib: nat)
    requires ia <= |left| && ib <= |right|
  {
    forall t :: t in level <==> OverRoles(t, roles) && Built(t, d, dl, left, ia, right, ib)
  }

  lemma RowStarts(level: seq<Term>, roles: seq<string>, d: nat, dl: nat, left: seq<Term>, right: seq<Term>)
    requires LevelDone(level, roles, d, dl)
    ensures RowDone(level, roles, d, dl, left, 0, right, 0)
  {
    assert left[..0] == [] && right[..0] == [];
  }

  lemma RowAdvances(level: seq<Term>, roles: seq<string>, d: nat, dl: nat, left: seq<Term>, ia: nat, right: seq<Term>)
    requires dl < d && ia < |left| && RowDone(level, roles, d, dl, left, ia, right, |right|)
    requires LevelExact(left, roles, dl) && LevelExact(right, roles, d - 1 - dl)
    ensures RowDone(level, roles, d, dl, left, ia + 1, right, 0)
  {
    assert right[..0] == [] && right[..|right|] == right;
    assert left[..ia + 1] == left[..ia] + [left[ia]];
    assert left[ia] in left;
    forall t ensures t in level <==> OverRoles(t, roles) && Built(t, d, dl, left, ia + 1, right, 0) {
      if t.Op? && t.left == left[ia] {
        assert Ops(t) == d && OverRoles(t, roles) ==> t.right in right;
      }
    }
  }

  lemma RowEnds(level: seq<Term>, roles: seq<string>, d: nat, dl: nat, left: seq<Term>, right: seq<Term>)
    requires dl < d && RowDone(level, roles, d, dl, left, |left|, right, 0)
    requires LevelExact(left, roles, dl)
    ensures LevelDone(level, roles, d, dl + 1)
  {
    assert left[..|left|] == left;
    forall t ensures t in level <==> OverRoles(t, roles) && t.Op? && Ops(t) == d && Ops(t.left) < dl + 1 {
    }
  }

  /** Adding the pair at (ia, ib), or finding it already there, moves the position on by one. */
  lemma PairAdvances(level: seq<Term>, level': seq<Term>, roles: seq<string>, d: nat, dl: nat, left: seq<Term>, ia: nat, right: seq<Term>, ib: nat)
    requires dl < d && ia < |left| && ib < |right| && RowDone(level, roles, d, dl, left, ia, right, ib)
    requires LevelExact(left, roles, dl) && LevelExact(right, roles, d - 1 - dl)
    requires forall t :: t in level' <==> t in level || t == Op(left[ia], right[ib])
    ensures RowDone(level', roles, d, dl, left, ia, right, ib + 1)
  {
    assert right[..ib + 1] == right[..ib] + [right[ib]];
    assert left[ia] in left && right[ib] in right;
  }

  ghost predicate SizesAt(ts: seq<Term>, i: nat, j: nat)
    requires i < |ts| && j < |ts|
  {
    Ops(ts[i]) <= Ops(ts[j])
  }

  /** Terms in the order of their size. */
  ghost predicate BySize(ts: seq<Term>)
  {
    forall i, j {:trigger SizesAt(ts, i, j)} :: 0 <= i < j < |ts| ==> SizesAt(ts, i, j)
  }

  lemma BySizeSnoc(ts: seq<Term>, t: Term)
    requires BySize(ts) && forall u :: u in ts ==> Ops(u) <= Ops(t)
    ensures BySize(ts + [t])
  {
    forall i, j {:trigger SizesAt(ts + [t], i, j)} | 0 <= i < j < |ts| + 1 ensures SizesAt(ts + [t], i, j) {
      if j < |ts| {
        assert SizesAt(ts, i, j);
      }
    }
  }

  lemma BySizeInit(ts: seq<Term>)
    requires BySize(ts) && ts != []
    ensures BySize(ts[..|ts| - 1]) && forall u :: u in ts ==> Ops(u) <= Ops(ts[|ts| - 1])
  {
    var n := |ts| - 1;
    forall i, j {:trigger SizesAt(ts[..n], i, j)} | 0 <= i < j < n ensures SizesAt(ts[..n], i, j) {
      assert SizesAt(ts, i, j);
    }
    forall u | u in ts ensures Ops(u) <= Ops(ts[n]) {
      var i :| 0 <= i < |ts| && ts[i] == u;
      assert i < n ==> SizesAt(ts, i, n);
    }
  }

  /** The dictionary, its listing, and what was added on this level. */
  ghost predicate Listed(seen: set<string>, order: seq<Term>, order0: seq<Term>, level: seq<Term>, roles: seq<string>)
  {
    && Seen(seen, order, roles) && NoDuplicates(order) && BySize(order)
    && forall t :: t in order <==> t in order0 || t in level
  }

  lemma SeenGrows(seen: set<string>, order: seq<Term>, roles: seq<string>, t: Term)
    requires Seen(seen, order, roles) && OverRoles(t, roles)
    ensures Seen(seen + {Canonical(t)}, order + [t], roles)
  {
    forall k | k in seen + {Canonical(t)}
      ensures exists s :: s in order + [t] && Canonical(s) == k
    {
      if k in seen {
        var s :| s in order && Canonical(s) == k;
        assert s in order + [t];
      } else {
        assert t in order + [t];
      }
    }
  }

  method AddTerm(t: Term, roles: seq<string>, level0: seq<Term>, seen0: set<string>, ghost order0: seq<Term>, order1: seq<Term>)
    returns (level: seq<Term>, seen: set<string>, order: seq<Term>)
    requires PlainRoles(roles) && OverRoles(t, roles) && t !in order0
    requires Listed(seen0, order1, order0, level0, roles)
    requires forall u :: u in order0 || u in level0 ==> Ops(u) <= Ops(t)
    ensures forall u :: u in level <==> u in level0 || u == t
    ensures Listed(seen, order, order0, level, roles)
  {
    level, seen, order := level0, seen0, order1;
    var key := Canonical(t);
    SeenExactly(seen, order, roles, t);
    if key !in seen {
      SeenGrows(seen, order, roles, t);
      NoDuplicatesSnoc(order, t);
      BySizeSnoc(order, t);
      seen := seen + {key};
      order := order + [t];
      level := level + [t];
    }
  }

  method PairLevels(left: seq<Term>, right: seq<Term>, roles: seq<string>, d: nat, dl: nat,
                    level0: seq<Term>, seen0: set<string>, ghost order0: seq<Term>, order1: seq<Term>)
    returns (level: seq<Term>, seen: set<string>, order: seq<Term>)
    requires PlainRoles(roles) && dl < d
    requires LevelExact(left, roles, dl) && LevelExact(right, roles, d - 1 - dl)
    requires LevelDone(level0, roles, d, dl) && Listed(seen0, order1, order0, level0, roles)
    requires forall t :: t in order0 ==> Ops(t) < d
    ensures LevelDone(level, roles, d, dl + 1) && Listed(seen, order, order0, level, roles)
  {
    level, seen, order := level0, seen0, order1;
    RowStarts(level, roles, d, dl, left, right);
    for ia := 0 to |left|
      invariant RowDone(level, roles, d, dl, left, ia, right, 0)
      invariant Listed(seen, order, order0, level, roles)
    {
      for ib := 0 to |right|
        invariant RowDone(level, roles, d, dl, left, ia, right, ib)
        invariant Listed(seen, order, order0, level, roles)
      {
        ghost var before := level;
        assert left[ia] in left && right[ib] in right;
        level, seen, order := AddTerm(Op(left[ia], right[ib]), roles, level, seen, order0, order);
        PairAdvances(before, level, roles, d, dl, left, ia, right, ib);
      }
      RowAdvances(level, roles, d, dl, left, ia, right);
    }
    RowEnds(level, roles, d, dl, left, right);
  }

  /** One level: all products of a smaller left level with the matching right level. */
  method ExtendLevel(byDepth: seq<seq<Term>>, roles: seq<string>, d: nat, seen0: set<string>, order0: seq<Term>)
    returns (level: seq<Term>, seen: set<string>, order: seq<Term>)
    requires PlainRoles(roles) && d == |byDepth| && d > 0
    requires LevelsExact(byDepth, roles)
    requires Seen(seen0, order0, roles) && NoDuplicates(order0) && BySize(order0)
    requires forall t :: t in order0 <==> InUniverse(t, roles, d - 1)
    ensures LevelExact(level, roles, d)
    ensures Seen(seen, order, roles) && NoDuplicates(order) && BySize(order)
    ensures forall t :: t in order <==> InUniverse(t, roles, d)
  {
    level, seen, order := [], seen0, order0;
    for dl := 0 to d
      invariant LevelDone(level, roles, d, dl)
      invariant Listed(seen, order, order0, level, roles)
    {
      level, seen, order := PairLevels(byDepth[dl], byDepth[d - 1 - dl], roles, d, dl, level, seen, order0, order);
    }
  }

  /** `generate_terms_for_roles`: exactly the terms of the universe, each once, the smaller ones first. */
  method GenerateTermsForRoles(roles: seq<string>, maxDepth: nat) returns (order: seq<Term>)
    requires PlainRoles(roles)
    ensures NoDuplicates(order) && BySize(order)
    ensures forall t :: t in order <==> InUniverse(t, roles, maxDepth)
  {
    var vars := seq(|roles|, i requires 0 <= i < |roles| => Var(roles[i]));
    assert LevelExact(vars, roles, 0) by {
      forall t | OverRoles(t, roles) && Ops(t) == 0 ensures t in vars {
        var i :| 0 <= i < |roles| && roles[i] == t.name;
        assert vars[i] == t;
      }
    }
    var byDepth := [vars];
    var seen: set<string> := {};
    order := [];
    for i := 0 to |vars|
      invariant Seen(seen, order, roles) && NoDuplicates(order) && BySize(order)
      invariant forall t :: t in order <==> t in vars[..i]
    {
      var key := Canonical(vars[i]);
      assert vars[i] in vars;
      SeenExactly(seen, order, roles, vars[i]);
      if key !in seen {
        SeenGrows(seen, order, roles, vars[i]);
        NoDuplicatesSnoc(order, vars[i]);
        BySizeSnoc(order, vars[i]);
        seen := seen + {key};
        order := order + [vars[i]];
      }
    }
    assert vars[..|vars|] == vars;
    for d := 1 to maxDepth + 1
      invariant |byDepth| == d && LevelsExact(byDepth, roles)
      invariant Seen(seen, order, roles) && NoDuplicates(order) && BySize(order)
      invariant forall t :: t in order <==> InUniverse(t, roles, d - 1)
    {
      var level;
      level, seen, order := ExtendLevel(byDepth, roles, d, seen, order);
      byDepth := byDepth + [level];
    }
  }
}
