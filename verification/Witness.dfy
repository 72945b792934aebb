/** Witness shapes lose nothing: a listed partition finds a relabelled copy of any countermodel. */
module Witness {
  import opened Results
  import opened Orders
  import opened Terms
  import opened Products
  import opened Magma
  import opened Encoding
  import opened Partitions

  /** A bijection of the carrier, with its inverse. */
  datatype Renaming = Renaming(to: seq<int>, from: seq<int>)

  ghost predicate Inverts(p: Renaming, n: nat, x: int)
    requires |p.to| == n && |p.from| == n && 0 <= x < n
  {
    && 0 <= p.to[x] < n && p.from[p.to[x]] == x
    && 0 <= p.from[x] < n && p.to[p.from[x]] == x
  }

  ghost predicate Bijective(p: Renaming, n: nat)
  {
    && |p.to| == n && |p.from| == n
    && (forall x :: 0 <= x < n ==> Inverts(p, n, x))
  }

  function Identity(n: nat): Renaming
  {
    Renaming(Range(n), Range(n))
  }

  /** Exchanges the images so that `a` goes to `b`. */
  function Redirect(p: Renaming, n: nat, a: int, b: int): Renaming
    requires |p.to| == n && |p.from| == n && 0 <= a < n && 0 <= b < n
    requires 0 <= p.to[a] < n && 0 <= p.from[b] < n
  {
    var c, d := p.to[a], p.from[b];
    Renaming(p.to[d := c][a := b], p.from[c := d][b := a])
  }

  lemma RedirectBijective(p: Renaming, n: nat, a: int, b: int)
    requires Bijective(p, n) && 0 <= a < n && 0 <= b < n
    ensures Inverts(p, n, a) && Inverts(p, n, b)
    ensures Bijective(Redirect(p, n, a, b), n)
  {
    assert Inverts(p, n, a) && Inverts(p, n, b);
    var q := Redirect(p, n, a, b);
    forall x | 0 <= x < n ensures Inverts(q, n, x) {
      assert Inverts(p, n, x);
      assert Inverts(p, n, p.to[x]) && Inverts(p, n, p.from[x]);
    }
  }

  ghost predicate DistinctInRange(s: seq<int>, n: nat)
  {
    NoDuplicates(s) && forall i :: 0 <= i < |s| ==> 0 <= s[i] < n
  }

  /** Any matching of distinct elements extends to a bijection of the carrier. */
  lemma {:induction false} ExtendMatching(s: seq<int>, t: seq<int>, n: nat) returns (p: Renaming)
    requires |s| == |t| && DistinctInRange(s, n) && DistinctInRange(t, n)
    ensures Bijective(p, n)
    ensures forall i :: 0 <= i < |s| ==> p.to[s[i]] == t[i]
  {
    if s == [] {
      p := Identity(n);
      forall x | 0 <= x < n ensures Inverts(p, n, x) {}
    } else {
      var m := |s| - 1;
      var q := ExtendMatching(s[..m], t[..m], n);
      assert forall i :: 0 <= i < m ==> s[..m][i] == s[i] && t[..m][i] == t[i];
      RedirectBijective(q, n, s[m], t[m]);
      p := Redirect(q, n, s[m], t[m]);
      forall i | 0 <= i < |s| ensures p.to[s[i]] == t[i] {
        if i < m {
          assert Inverts(q, n, s[i]);
          assert q.to[s[..m][i]] == t[..m][i];
          assert s[i] != s[m] && t[i] != t[m];
        }
      }
    }
  }

  // ------------------------------------------------------------- relabelling

  function Renamed(table: Table, p: Renaming): (r: Table)
    requires WellFormed(table)
    requires |p.to| == |table| && |p.from| == |table| && forall x :: 0 <= x < |table| ==> 0 <= p.from[x] < |table|
    ensures |r| == |table| && FullRows(r)
    ensures forall i, j :: 0 <= i < |r| && 0 <= j < |r| ==> r[i][j] == p.to[table[p.from[i]][p.from[j]]]
  {
    var n := |table|;
    seq(n, i requires 0 <= i < n =>
      seq(n, j requires 0 <= j < n => p.to[table[p.from[i]][p.from[j]]]))
  }

  ghost predicate Fits(table: Table, p: Renaming)
  {
    && WellFormed(table) && Bijective(p, |table|)
    && forall x :: 0 <= x < |table| ==> 0 <= p.from[x] < |table|
  }

  lemma BijectiveFits(table: Table, p: Renaming)
    requires WellFormed(table) && Bijective(p, |table|)
    ensures Fits(table, p)
  {
    forall x | 0 <= x < |table| ensures 0 <= p.from[x] < |table| {
      assert Inverts(p, |table|, x);
    }
  }

  lemma RenamedWellFormed(table: Table, p: Renaming)
    requires Fits(table, p)
    ensures WellFormed(Renamed(table, p))
  {
    var r := Renamed(table, p);
    forall i, j | 0 <= i < |r| && 0 <= j < |r| ensures 0 <= r[i][j] < |r| {
      assert Inverts(p, |table|, table[p.from[i]][p.from[j]]);
    }
  }

  /** `env'` is `env` with every value renamed. */
  ghost predicate RenamedEnv(t: Term, table: Table, p: Renaming, env: Env, env': Env)
    requires |p.to| == |table|
  {
    forall v :: v in VarsIn(t) ==>
      v in env && 0 <= env[v] < |table| && v in env' && env'[v] == p.to[env[v]]
  }

  lemma CellRenamed(table: Table, p: Renaming, a: int, b: int)
    requires Fits(table, p) && 0 <= a < |table| && 0 <= b < |table|
    ensures 0 <= p.to[a] < |table| && 0 <= p.to[b] < |table|
    ensures 0 <= table[a][b] < |table|
    ensures Renamed(table, p)[p.to[a]][p.to[b]] == p.to[table[a][b]]
  {
    assert Inverts(p, |table|, a) && Inverts(p, |table|, b);
  }

  /** `t` has a value, and in the renamed table its value is the renamed one. */
  ghost predicate ValueRenamed(t: Term, table: Table, p: Renaming, env: Env, env': Env)
    requires Fits(table, p)
  {
    var v := Eval(t, table, env);
    v.Some? && 0 <= v.value < |table| && Eval(t, Renamed(table, p), env') == Some(p.to[v.value])
  }

  lemma EvalOp(l: Term, r: Term, table: Table, env: Env, a: int, b: int)
    requires FullRows(table) && 0 <= a < |table| && 0 <= b < |table|
    requires Eval(l, table, env) == Some(a) && Eval(r, table, env) == Some(b)
    ensures Eval(Op(l, r), table, env) == Some(table[a][b])
  {
  }

  lemma OpRenamed(l: Term, r: Term, table: Table, p: Renaming, env: Env, env': Env)
    requires Fits(table, p) && ValueRenamed(l, table, p, env, env') && ValueRenamed(r, table, p, env, env')
    ensures ValueRenamed(Op(l, r), table, p, env, env')
  {
    var a, b := Eval(l, table, env).value, Eval(r, table, env).value;
    CellRenamed(table, p, a, b);
    EvalOp(l, r, table, env, a, b);
    EvalOp(l, r, Renamed(table, p), env', p.to[a], p.to[b]);
  }

  /** Evaluation commutes with renaming. */
  lemma {:induction false} EvalRenamed(t: Term, table: Table, p: Renaming, env: Env, env': Env)
    requires Fits(table, p) && RenamedEnv(t, table, p, env, env')
    ensures ValueRenamed(t, table, p, env, env')
  {
    match t
    case Var(name) => assert name in VarsIn(t);
    case Op(l, r) =>
      EvalRenamed(l, table, p, env, env');
      EvalRenamed(r, table, p, env, env');
      OpRenamed(l, r, table, p, env, env');
  }

  lemma RenamedAgrees(eq: Equation, table: Table, p: Renaming, env: Env, env': Env)
    requires Fits(table, p)
    requires RenamedEnv(eq.lhs, table, p, env, env') && RenamedEnv(eq.rhs, table, p, env, env')
    ensures Agrees(eq, Renamed(table, p), env') <==> Agrees(eq, table, env)
  {
    EvalRenamed(eq.lhs, table, p, env, env');
    EvalRenamed(eq.rhs, table, p, env, env');
    assert Inverts(p, |table|, Eval(eq.lhs, table, env).value);
    assert Inverts(p, |table|, Eval(eq.rhs, table, env).value);
  }

  lemma RenamedSatisfies(eq: Equation, table: Table, p: Renaming)
    requires Fits(table, p) && Satisfies(eq, table)
    ensures Satisfies(eq, Renamed(table, p))
  {
    var r := Renamed(table, p);
    forall env' | Assignment(eq, r, env') ensures Agrees(eq, r, env') {
      var env: Env := map v | v in env' :: if 0 <= env'[v] < |table| then p.from[env'[v]] else 0;
      forall v | v in env' ensures 0 <= env[v] < |table| && env'[v] == p.to[env[v]] {
        assert Inverts(p, |table|, env'[v]);
      }
      assert Assignment(eq, table, env);
      assert Agrees(eq, table, env);
      RenamedAgrees(eq, table, p, env, env');
    }
  }

  // ------------------------------------------------------------- the theorem

  /** The values of the target's variables at a violation, in variable order. */
  function ValuesOf(eq: Equation, env: Env): seq<int>
    requires forall v :: v in EqVars(eq) ==> v in env
  {
    EnvVector(EqVars(eq), env)
  }

  ghost predicate Represented(f: seq<int>, at: seq<nat>, x: int)
  {
    exists k :: 0 <= k < |at| && at[k] < |f| && f[at[k]] == x
  }

  ghost predicate DistinctPositions(f: seq<int>, at: seq<nat>)
  {
    && (forall k :: 0 <= k < |at| ==> at[k] < |f|)
    && forall k, l :: 0 <= k < l < |at| ==> f[at[k]] != f[at[l]]
  }

  lemma StillRepresented(f: seq<int>, init: seq<nat>, at: seq<nat>, x: int)
    requires f != [] && Represented(f[..|f| - 1], init, x) && init <= at
    ensures Represented(f, at, x)
  {
    var g := f[..|f| - 1];
    var k :| 0 <= k < |init| && init[k] < |g| && g[init[k]] == x;
    assert at[k] == init[k];
  }

  /** The different values of a labelling, each with one position where it occurs. */
  lemma {:induction false} FirstPositions(f: seq<int>) returns (at: seq<nat>)
    ensures DistinctPositions(f, at)
    ensures forall i :: 0 <= i < |f| ==> Represented(f, at, f[i])
  {
    if f == [] {
      at := [];
    } else {
      var n := |f| - 1;
      var init := FirstPositions(f[..n]);
      assert forall k :: 0 <= k < |init| ==> f[..n][init[k]] == f[init[k]];
      at := if Represented(f, init, f[n]) then init else init + [n];
      forall i | 0 <= i < |f| ensures Represented(f, at, f[i]) {
        if i < n {
          assert f[..n][i] == f[i];
          StillRepresented(f, init, at, f[i]);
        } else if |at| == |init| + 1 {
          assert at[|init|] == n;
        }
      }
    }
  }

  /** Labellings with the same kernel and values in the carrier differ by a renaming. */
  lemma RenameLabels(f: seq<int>, g: seq<int>, n: nat) returns (p: Renaming)
    requires SameKernel(f, g)
    requires forall i :: 0 <= i < |f| ==> 0 <= f[i] < n && 0 <= g[i] < n
    ensures Bijective(p, n)
    ensures forall i :: 0 <= i < |f| ==> p.to[f[i]] == g[i]
  {
    var at := FirstPositions(f);
    var s := seq(|at|, k requires 0 <= k < |at| => f[at[k]]);
    var t := seq(|at|, k requires 0 <= k < |at| => g[at[k]]);
    p := ExtendMatching(s, t, n);
    forall i | 0 <= i < |f| ensures p.to[f[i]] == g[i] {
      assert Represented(f, at, f[i]);
      var k :| 0 <= k < |at| && at[k] < |f| && f[at[k]] == f[i];
      assert p.to[s[k]] == t[k];
    }
  }

  /** The blocks of a labelling of at most `n` values fit into the carrier. */
  lemma BlocksFit(r: seq<int>, f: seq<int>, n: nat)
    requires SameKernel(r, f) && forall i :: 0 <= i < |f| ==> 0 <= f[i] < n
    ensures |SortedSet(r, IntLess)| <= n
  {
    var blocks := SortedSet(r, IntLess);
    var images := seq(|blocks|, k requires 0 <= k < |blocks| =>
      (assert blocks[k] in blocks; f[IndexOf(r, blocks[k])]));
    forall k, l | 0 <= k < l < |blocks| ensures images[k] != images[l] {
      assert blocks[k] in blocks && blocks[l] in blocks;
      assert r[IndexOf(r, blocks[k])] == blocks[k] && r[IndexOf(r, blocks[l])] == blocks[l];
    }
    DistinctBelow(images, n);
  }

  /** A labelling of the target's variables. */
  ghost predicate Labels(eq: Equation, part: Partition)
  {
    part.items == EqVars(eq) && |part.blocks| == |part.items|
  }

  /** A partition's witness is an assignment of the target's variables inside the carrier. */
  lemma PartitionWitnessFits(eq: Equation, part: Partition, n: nat, offset: nat)
    requires Labels(eq, part) && WitnessValues(part, n, offset).Some?
    ensures var w := WitnessValues(part, n, offset).value; WitnessEnv(eq, w) == w && InCarrier(eq, w, n)
  {
    var w := WitnessValues(part, n, offset).value;
    forall v | v in EqVars(eq) ensures v in w && 0 <= w[v] < n {
      var i :| 0 <= i < |part.items| && part.items[i] == v;
      WitnessSeparatesBlocks(part, n, offset, i, i);
    }
  }

  /** The witness a listed partition stands for, on the carrier 0..n. */
  ghost predicate ListedWitness(eq: Equation, cap: int, n: nat, offset: nat, r: seq<int>, w: Env)
  {
    && r in Found(|EqVars(eq)|, cap)
    && |r| == |EqVars(eq)|
    && WitnessValues(Partition(EqVars(eq), r), n, offset) == Some(w)
  }

  /** A listed witness is an assignment of the target's variables inside the carrier, so the
      two encodings agree about it. */
  lemma ListedWitnessInCarrier(eq: Equation, cap: int, n: nat, offset: nat, r: seq<int>, w: Env)
    requires ListedWitness(eq, cap, n, offset, r, w)
    ensures WitnessEnv(eq, w) == w && InCarrier(eq, w, n)
  {
    PartitionWitnessFits(eq, Partition(EqVars(eq), r), n, offset);
  }

  /** The listed partition with the kernel of a violation, and its witness. */
  lemma KernelIsListed(eq: Equation, env: Env, n: nat, cap: int, offset: nat) returns (r: seq<int>, w: Env)
    requires forall v :: v in EqVars(eq) ==> v in env && 0 <= env[v] < n
    requires |AllRestricted(|EqVars(eq)|)| <= cap
    ensures ListedWitness(eq, cap, n, offset, r, w)
    ensures SameKernel(ValuesOf(eq, env), ValuesOf(eq, w))
  {
    var vs := EqVars(eq);
    var f := ValuesOf(eq, env);
    EnumerationExact(|vs|, f);
    BelowCapComplete(|vs|, cap);
    r := Canon(f);
    BlocksFit(r, f, n);
    var p := Partition(vs, r);
    w := WitnessValues(p, n, offset).value;
    var g := EnvVector(vs, w);
    forall i, j | 0 <= i < |vs| && 0 <= j < |vs| ensures f[i] == f[j] <==> g[i] == g[j] {
      WitnessSeparatesBlocks(p, n, offset, i, j);
    }
  }

  lemma RenameWitness(eq: Equation, env: Env, w: Env, n: nat) returns (p: Renaming)
    requires forall v :: v in EqVars(eq) ==> v in env && 0 <= env[v] < n && v in w && 0 <= w[v] < n
    requires SameKernel(ValuesOf(eq, env), ValuesOf(eq, w))
    ensures Bijective(p, n)
    ensures forall v :: v in EqVars(eq) ==> w[v] == p.to[env[v]]
  {
    var vs := EqVars(eq);
    var f, g := ValuesOf(eq, env), ValuesOf(eq, w);
    assert forall i :: 0 <= i < |vs| ==> vs[i] in vs;
    p := RenameLabels(f, g, n);
    forall v | v in vs ensures w[v] == p.to[env[v]] {
      var i :| 0 <= i < |vs| && vs[i] == v;
      assert p.to[f[i]] == g[i];
    }
  }

  /** If some table on n elements satisfies the source and violates the target, then with a cap
      of at least the number of set partitions, at every offset, some listed witness is violated
      by a table on n elements that satisfies the source: a renamed copy of the first. */
  lemma WitnessShapesLoseNothing(eq1: Equation, eq2: Equation, table: Table, cap: int, offset: nat)
    returns (r: seq<int>, w: Env, p: Renaming, copy: Table)
    requires WellFormed(table) && Countermodel(eq1, eq2, table)
    requires |AllRestricted(|EqVars(eq2)|)| <= cap
    ensures ListedWitness(eq2, cap, |table|, offset, r, w)
    ensures Bijective(p, |table|) && Fits(table, p) && copy == Renamed(table, p)
    ensures |copy| == |table| && WellFormed(copy) && Satisfies(eq1, copy)
    ensures Assignment(eq2, copy, w) && Separates(eq2, copy, w)
  {
    var n := |table|;
    var env :| Assignment(eq2, table, env) && Separates(eq2, table, env);
    r, w := KernelIsListed(eq2, env, n, cap, offset);
    ListedWitnessInCarrier(eq2, cap, n, offset, r, w);
    p := RenameWitness(eq2, env, w, n);
    BijectiveFits(table, p);
    copy := Renamed(table, p);
    RenamedWellFormed(table, p);
    RenamedSatisfies(eq1, table, p);
    RenamedAgrees(eq2, table, p, env, w);
    assert Assignment(eq2, copy, w);
    DisagreementSeparates(eq2, copy, w);
  }

  /** In solver terms: the source clauses and the target-witness clause of either encoding hold
      of the renamed copy. The symmetry and bias clauses are the solver's own extra demands. */
  lemma ShapesReachSolver(style: Style, eq1: Equation, eq2: Equation, table: Table, cap: int, offset: nat)
    returns (w: Env, p: Renaming, copy: Table, m: Interp)
    requires WellFormed(table) && Countermodel(eq1, eq2, table)
    requires |AllRestricted(|EqVars(eq2)|)| <= cap
    ensures Bijective(p, |table|) && Fits(table, p) && copy == Renamed(table, p)
    ensures |copy| == |table| > 0 && FullRows(copy) && ModelOf(m, copy)
    ensures exists r :: ListedWitness(eq2, cap, |table|, offset, r, w)
    ensures WitnessEnv(eq2, w) == w && AllInCarrier(eq1, EnvList(eq1, |copy|), |copy|)
    ensures AllHold(Ranges(style, |copy|, |copy|), m)
    ensures AllHold(Source(style, eq1, |copy|, EnvList(eq1, |copy|)), m)
    ensures AllHold(LawClauses(style, eq2, |copy|, w, false), m)
  {
    var r;
    r, w, p, copy := WitnessShapesLoseNothing(eq1, eq2, table, cap, offset);
    ListedWitnessInCarrier(eq2, cap, |table|, offset, r, w);
    assert EqVars(eq2)[0] in w;
    TableHasModel(copy);
    m :| ModelOf(m, copy);
    RangesMeaning(style, m, copy, |copy|);
    SourceIsSatisfies(style, m, copy, eq1);
    LawMeaning(style, m, copy, eq2, w, false);
  }
}
