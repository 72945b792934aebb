/** Finite magmas as operation tables, and the concrete checker. */
module Magma {
  import opened Results
  import opened Terms
  import opened Products

  type Table = seq<seq<int>>
  type Env = map<string, int>

  /** No row is too short to be indexed. */
  predicate FullRows(table: Table)
  {
    forall i :: 0 <= i < |table| ==> |table[i]| >= |table|
  }

  /** Every cell is an element of the carrier. */
  predicate WellFormed(table: Table)
  {
    && FullRows(table)
    && forall i, j :: 0 <= i < |table| && 0 <= j < |table| ==> 0 <= table[i][j] < |table|
  }

  function Eval(t: Term, table: Table, env: Env): Option<int>
    requires FullRows(table)
  {
    match t
    case Var(name) => if name in env then Some(env[name]) else None
    case Op(l, r) =>
      var a := Eval(l, table, env);
      var b := Eval(r, table, env);
      if a.None? || b.None? then None
      else if a.value < 0 || b.value < 0 || a.value >= |table| || b.value >= |table| then None
      else Some(table[a.value][b.value])
  }

  /** `env` gives each variable of `eq`, and nothing else, an element of the carrier. */
  ghost predicate Assignment(eq: Equation, table: Table, env: Env)
  {
    && (forall v :: v in env <==> v in EqVars(eq))
    && forall v :: v in env ==> 0 <= env[v] < |table|
  }

  /** The two sides have the same value, or neither has one. */
  predicate Agrees(eq: Equation, table: Table, env: Env)
    requires FullRows(table)
  {
    Eval(eq.lhs, table, env) == Eval(eq.rhs, table, env)
  }

  ghost predicate Satisfies(eq: Equation, table: Table)
    requires FullRows(table)
  {
    forall env :: Assignment(eq, table, env) ==> Agrees(eq, table, env)
  }

  ghost predicate Separates(eq: Equation, table: Table, env: Env)
    requires FullRows(table)
  {
    var l, r := Eval(eq.lhs, table, env), Eval(eq.rhs, table, env);
    l.Some? && r.Some? && l != r
  }

  ghost predicate Violates(eq: Equation, table: Table)
    requires FullRows(table)
  {
    exists env :: Assignment(eq, table, env) && Separates(eq, table, env)
  }

  /** What a FALSE pair needs: a table satisfying the source and violating the target. */
  ghost predicate Countermodel(eq1: Equation, eq2: Equation, table: Table)
    requires FullRows(table)
  {
    Satisfies(eq1, table) && Violates(eq2, table)
  }

  /** The assignments the checkers loop over, in the order of `itertools.product`. */
  function EnvList(eq: Equation, n: nat): (envs: seq<Env>)
  {
    var vs := EqVars(eq);
    var vals := Product(Range(n), |vs|);
    seq(|vals|, k requires 0 <= k < |vals| =>
      assert vals[k] in vals; ProductMembers(Range(n), |vs|, vals[k]); Zip(vs, vals[k]))
  }

  lemma EnvListSound(eq: Equation, table: Table, k: nat)
    requires k < |EnvList(eq, |table|)|
    ensures Assignment(eq, table, EnvList(eq, |table|)[k])
  {
    var vs, n := EqVars(eq), |table|;
    var vals := Product(Range(n), |vs|)[k];
    assert vals in Product(Range(n), |vs|);
    ProductMembers(Range(n), |vs|, vals);
    var env := Zip(vs, vals);
    forall v | v in env ensures 0 <= env[v] < n {
      var i :| 0 <= i < |vs| && vs[i] == v;
      ZipAt(vs, vals, i);
      assert vals[i] in Range(n);
    }
  }

  lemma EnvListComplete(eq: Equation, table: Table, env: Env)
    requires Assignment(eq, table, env)
    ensures env in EnvList(eq, |table|)
  {
    var k := EnvIsZip(EqVars(eq), Range(|table|), env);
    assert EnvList(eq, |table|)[k] == env;
  }

  /** Checking the listed assignments is checking all of them. */
  lemma SatisfiesByList(eq: Equation, table: Table)
    requires FullRows(table)
    requires forall k :: 0 <= k < |EnvList(eq, |table|)| ==> Agrees(eq, table, EnvList(eq, |table|)[k])
    ensures Satisfies(eq, table)
  {
    forall env | Assignment(eq, table, env) ensures Agrees(eq, table, env) {
      EnvListComplete(eq, table, env);
    }
  }

  lemma FoundDisagreement(eq: Equation, table: Table, k: nat)
    requires FullRows(table) && k < |EnvList(eq, |table|)| && !Agrees(eq, table, EnvList(eq, |table|)[k])
    ensures !Satisfies(eq, table)
  {
    EnvListSound(eq, table, k);
  }

  lemma FoundViolation(eq: Equation, table: Table, k: nat)
    requires FullRows(table) && k < |EnvList(eq, |table|)| && Separates(eq, table, EnvList(eq, |table|)[k])
    ensures Violates(eq, table) && Assignment(eq, table, EnvList(eq, |table|)[k])
  {
    EnvListSound(eq, table, k);
  }

  lemma NoViolationByList(eq: Equation, table: Table)
    requires FullRows(table)
    requires forall k :: 0 <= k < |EnvList(eq, |table|)| ==> !Separates(eq, table, EnvList(eq, |table|)[k])
    ensures !Violates(eq, table)
  {
    forall env | Assignment(eq, table, env) ensures !Separates(eq, table, env) {
      EnvListComplete(eq, table, env);
    }
  }

  /** Scans assignments in order and stops at the first on which the sides differ. */
  method FirstDisagreement(eq: Equation, table: Table, envs: seq<Env>) returns (k: nat)
    requires FullRows(table)
    ensures k <= |envs| && forall j :: 0 <= j < k ==> Agrees(eq, table, envs[j])
    ensures k < |envs| ==> !Agrees(eq, table, envs[k])
  {
    k := 0;
    while k < |envs|
      invariant k <= |envs| && forall j :: 0 <= j < k ==> Agrees(eq, table, envs[j])
    {
      if !Agrees(eq, table, envs[k]) { return; }
      k := k + 1;
    }
  }

  /** Scans assignments in order and stops at the first on which both sides have values that differ. */
  method FirstSeparation(eq: Equation, table: Table, envs: seq<Env>) returns (k: nat)
    requires FullRows(table)
    ensures k <= |envs| && forall j :: 0 <= j < k ==> !Separates(eq, table, envs[j])
    ensures k < |envs| ==> Separates(eq, table, envs[k])
  {
    k := 0;
    while k < |envs|
      invariant k <= |envs| && forall j :: 0 <= j < k ==> !Separates(eq, table, envs[j])
    {
      var lv, rv := Eval(eq.lhs, table, envs[k]), Eval(eq.rhs, table, envs[k]);
      if lv.Some? && rv.Some? && lv.value != rv.value { return; }
      k := k + 1;
    }
  }

  method MagmaSatisfiesEquation(eq: Equation, table: Table) returns (ok: bool)
    requires FullRows(table)
    ensures ok <==> Satisfies(eq, table)
  {
    var envs := EnvList(eq, |table|);
    var k := FirstDisagreement(eq, table, envs);
    ok := k == |envs|;
    if ok {
      SatisfiesByList(eq, table);
    } else {
      FoundDisagreement(eq, table, k);
    }
  }

  method MagmaViolationWitness(eq: Equation, table: Table) returns (r: Option<(Env, int, int)>)
    requires FullRows(table)
    ensures r.Some? <==> Violates(eq, table)
    ensures r.Some? ==> var (env, lv, rv) := r.value;
                        && Assignment(eq, table, env) && Separates(eq, table, env)
                        && Eval(eq.lhs, table, env) == Some(lv) && Eval(eq.rhs, table, env) == Some(rv)
  {
    var envs := EnvList(eq, |table|);
    var k := FirstSeparation(eq, table, envs);
    if k == |envs| {
      NoViolationByList(eq, table);
      return None;
    }
    FoundViolation(eq, table, k);
    r := Some((envs[k], Eval(eq.lhs, table, envs[k]).value, Eval(eq.rhs, table, envs[k]).value));
  }

  method ValidateCountermodel(eq1: Equation, eq2: Equation, table: Table)
    returns (ok: bool, cert: Option<(Env, int, int)>)
    requires FullRows(table)
    ensures ok <==> Countermodel(eq1, eq2, table)
    ensures ok ==> cert.Some? && Assignment(eq2, table, cert.value.0) && Separates(eq2, table, cert.value.0)
  {
    var sat := MagmaSatisfiesEquation(eq1, table);
    cert := MagmaViolationWitness(eq2, table);
    ok := sat && cert.Some?;
  }

  method TruthOf(eq: Equation, table: Table) returns (ok: bool, sawViol: bool)
    requires FullRows(table)
    ensures ok <==> Satisfies(eq, table)
    ensures sawViol <==> !Satisfies(eq, table)
  {
    ok := MagmaSatisfiesEquation(eq, table);
    sawViol := !ok;
  }

  /** Satisfied and violated, for all equations at once; here a side without a value
      that differs from the other side already counts as a violation. */
  method TableTruthVectors(eqs: seq<Equation>, table: Table) returns (sat: seq<bool>, viol: seq<bool>)
    requires FullRows(table)
    ensures |sat| == |eqs| && |viol| == |eqs|
    ensures forall i :: 0 <= i < |eqs| ==> (sat[i] <==> Satisfies(eqs[i], table)) && (viol[i] <==> !Satisfies(eqs[i], table))
  {
    sat, viol := [], [];
    for i := 0 to |eqs|
      invariant |sat| == i && |viol| == i
      invariant forall j :: 0 <= j < i ==>
                  (sat[j] <==> Satisfies(eqs[j], table)) && (viol[j] <==> !Satisfies(eqs[j], table))
    {
      var ok, sawViol := TruthOf(eqs[i], table);
      sat, viol := sat + [ok], viol + [sawViol];
    }
  }

  // ------------------------------------------------------- facts of evaluation

  lemma {:induction false} EvalInRange(t: Term, table: Table, env: Env)
    requires WellFormed(table)
    requires forall v :: v in VarsIn(t) ==> v in env && 0 <= env[v] < |table|
    ensures Eval(t, table, env).Some? && 0 <= Eval(t, table, env).value < |table|
  {
    match t
    case Var(name) => assert name in VarsIn(t);
    case Op(l, r) => EvalInRange(l, table, env); EvalInRange(r, table, env);
  }

  /** Substituting names and then evaluating is evaluating under the composed assignment. */
  lemma {:induction false} EvalSubst(t: Term, s: map<string, string>, table: Table, rho: Env, env: Env)
    requires FullRows(table)
    requires forall v :: v in VarsIn(t) ==> v in s && s[v] in rho && v in env && env[v] == rho[s[v]]
    ensures Eval(Subst(t, s), table, rho) == Eval(t, table, env)
  {
    match t
    case Var(name) => assert name in VarsIn(t);
    case Op(l, r) => EvalSubst(l, s, table, rho, env); EvalSubst(r, s, table, rho, env);
  }

  /** On tables whose cells stay in the carrier the two checkers agree: not satisfied is violated. */
  lemma CheckersAgree(eq: Equation, table: Table)
    requires WellFormed(table)
    ensures Violates(eq, table) <==> !Satisfies(eq, table)
  {
    forall env | Assignment(eq, table, env)
      ensures Separates(eq, table, env) <==> Eval(eq.lhs, table, env) != Eval(eq.rhs, table, env)
    {
      EvalInRange(eq.lhs, table, env);
      EvalInRange(eq.rhs, table, env);
    }
  }

  /** Outside those tables they need not agree: a cell outside the carrier gives a side no value. */
  lemma CheckersDisagree()
    ensures exists eq: Equation, table: Table ::
              FullRows(table) && !Satisfies(eq, table) && !Violates(eq, table)
  {
    var x := Var("x");
    var eq := Equation(x, Op(Op(x, x), x));
    var table: Table := [[1]];
    var env: Env := map["x" := 0];
    assert forall v :: v in EqVars(eq) <==> v == "x" by {
      assert VarsIn(x) == ["x"];
    }
    assert Assignment(eq, table, env);
    assert Eval(Op(x, x), table, env) == Some(1);
    assert Eval(eq.rhs, table, env) == None && Eval(eq.lhs, table, env) == Some(0);
    forall e: Env | Assignment(eq, table, e)
      ensures Eval(eq.rhs, table, e) == None
    {
      assert e["x"] == 0;
      assert Eval(Op(x, x), table, e) == Some(1);
    }
    assert FullRows(table) && !Satisfies(eq, table) && !Violates(eq, table);
  }
}
