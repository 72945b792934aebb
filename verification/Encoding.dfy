/** The two solver encodings of "satisfies one law and violates another at this witness". */
module Encoding {
  import opened Results
  import opened Terms
  import opened Magma

  datatype Expr =
    | Lit(v: int)
    | Cell(i: int, j: int)
    | App(f: Expr, g: Expr)
    | Ite(c: Form, t: Expr, e: Expr)

  datatype Form =
    | Eq(a: Expr, b: Expr)
    | Ne(a: Expr, b: Expr)
    | Le(a: Expr, b: Expr)
    | Lt(a: Expr, b: Expr)
    | Ge(a: Expr, b: Expr)
    | And(p: Form, q: Form)
    | Or(ps: seq<Form>)
    | Distinct(es: seq<Expr>)

  /** A candidate model: values for the cell variables, and a total binary function. */
  datatype Interp = Interp(cell: (int, int) -> int, op: (int, int) -> int)

  function Value(e: Expr, m: Interp): int
  {
    match e
    case Lit(v) => v
    case Cell(i, j) => m.cell(i, j)
    case App(f, g) => m.op(Value(f, m), Value(g, m))
    case Ite(c, t, e) => if Holds(c, m) then Value(t, m) else Value(e, m)
  }

  predicate Holds(f: Form, m: Interp)
  {
    match f
    case Eq(a, b) => Value(a, m) == Value(b, m)
    case Ne(a, b) => Value(a, m) != Value(b, m)
    case Le(a, b) => Value(a, m) <= Value(b, m)
    case Lt(a, b) => Value(a, m) < Value(b, m)
    case Ge(a, b) => Value(a, m) >= Value(b, m)
    case And(p, q) => Holds(p, m) && Holds(q, m)
    case Or(ps) => exists k :: 0 <= k < |ps| && Holds(ps[k], m)
    case Distinct(es) => forall k, l :: 0 <= k < l < |es| ==> Value(es[k], m) != Value(es[l], m)
  }

  ghost predicate AllHold(fs: seq<Form>, m: Interp)
  {
    forall k :: 0 <= k < |fs| ==> Holds(fs[k], m)
  }

  lemma AllHoldSplit(fs: seq<Form>, gs: seq<Form>, m: Interp)
    ensures AllHold(fs + gs, m) <==> AllHold(fs, m) && AllHold(gs, m)
  {
    if AllHold(fs + gs, m) {
      assert forall k :: 0 <= k < |fs| ==> (fs + gs)[k] == fs[k];
      assert forall k :: 0 <= k < |gs| ==> (fs + gs)[|fs| + k] == gs[k];
    }
  }

  // -------------------------------------------------------- nested-If encoding

  function Test(a: Expr, b: Expr, i: nat, j: nat, rest: Expr): Expr
  {
    Ite(And(Eq(a, Lit(i)), Eq(b, Lit(j))), Cell(i, j), rest)
  }

  function RowFrom(n: nat, a: Expr, b: Expr, i: nat, j: nat, rest: Expr): Expr
    requires j <= n
    decreases n - j
  {
    if j == n then rest else Test(a, b, i, j, RowFrom(n, a, b, i, j + 1, rest))
  }

  function RowsFrom(n: nat, a: Expr, b: Expr, i: nat): Expr
    requires i <= n && n > 0
    decreases n - i
  {
    if i == n then Cell(n - 1, n - 1) else RowFrom(n, a, b, i, 0, RowsFrom(n, a, b, i + 1))
  }

  /** The If chain over all cells, first match first, with the last cell as the fallback. */
  method Z3Cell(n: nat, a: Expr, b: Expr) returns (expr: Expr)
    requires n > 0
    ensures expr == RowsFrom(n, a, b, 0)
  {
    expr := Cell(n - 1, n - 1);
    var i := n;
    while i > 0
      invariant i <= n
      invariant expr == RowsFrom(n, a, b, i)
    {
      i := i - 1;
      var j := n;
      while j > 0
        invariant j <= n
        invariant expr == RowFrom(n, a, b, i, j, RowsFrom(n, a, b, i + 1))
      {
        j := j - 1;
        expr := Test(a, b, i, j, expr);
      }
    }
  }

  lemma {:induction false} RowValue(n: nat, a: Expr, b: Expr, i: nat, j: nat, rest: Expr, m: Interp)
    requires j <= n
    ensures Value(RowFrom(n, a, b, i, j, rest), m) ==
            if Value(a, m) == i && j <= Value(b, m) < n then m.cell(i, Value(b, m)) else Value(rest, m)
    decreases n - j
  {
    if j == n {
    } else {
      RowValue(n, a, b, i, j + 1, rest, m);
      assert Holds(Eq(a, Lit(i)), m) <==> Value(a, m) == i;
      assert Holds(Eq(b, Lit(j)), m) <==> Value(b, m) == j;
    }
  }

  lemma {:induction false} RowsValue(n: nat, a: Expr, b: Expr, i: nat, m: Interp)
    requires i <= n && n > 0
    ensures Value(RowsFrom(n, a, b, i), m) ==
            if i <= Value(a, m) < n && 0 <= Value(b, m) < n then m.cell(Value(a, m), Value(b, m)) else m.cell(n - 1, n - 1)
    decreases n - i
  {
    if i == n {
    } else {
      RowsValue(n, a, b, i + 1, m);
      RowValue(n, a, b, i, 0, RowsFrom(n, a, b, i + 1), m);
    }
  }

  // ---------------------------------------------------- the two encodings

  /** How a solver reads the table: cell variables looked up by an If chain, or an
      uninterpreted function whose inner values get range clauses of their own. */
  datatype Style = Nested | Uninterpreted

  function At(style: Style, i: int, j: int): Expr
  {
    if style.Nested? then Cell(i, j) else App(Lit(i), Lit(j))
  }

  function Mul(style: Style, n: nat, a: Expr, b: Expr): Expr
    requires n > 0
  {
    if style.Nested? then RowsFrom(n, a, b, 0) else App(a, b)
  }

  function InRange(e: Expr, n: nat): seq<Form>
  {
    [Ge(e, Lit(0)), Lt(e, Lit(n))]
  }

  /** The side clauses for a computed value: none for an If chain. */
  function Side(style: Style, n: nat, e: Expr): seq<Form>
  {
    if style.Nested? then [] else InRange(e, n)
  }

  type ExprEnv = map<string, Expr>

  /** The encoded term, and the side clauses of its inner values. */
  function Encode(style: Style, t: Term, n: nat, env: ExprEnv): (Expr, seq<Form>)
    requires n > 0 && forall v :: v in VarsIn(t) ==> v in env
  {
    match t
    case Var(name) => assert name in VarsIn(t); (env[name], [])
    case Op(l, r) =>
      var (a, ca) := Encode(style, l, n, env);
      var (b, cb) := Encode(style, r, n, env);
      var v := Mul(style, n, a, b);
      (v, ca + cb + Side(style, n, v))
  }

  function Lits(env: Env): ExprEnv
  {
    map v | v in env :: Lit(env[v])
  }

  /** The witness assignment of a target; a variable without a value gets 0. */
  function WitnessEnv(eq: Equation, w: Env): (env: Env)
    ensures forall v :: v in env <==> v in EqVars(eq)
    ensures forall v :: v in env ==> (v in w ==> env[v] == w[v]) && (v !in w ==> env[v] == 0)
  {
    map v | v in EqVars(eq) :: if v in w then w[v] else 0
  }

  // ------------------------------------------------------------------- clauses

  function RangeRow(style: Style, n: nat, i: nat, j: nat): seq<Form>
  {
    if j == 0 then [] else RangeRow(style, n, i, j - 1) + InRange(At(style, i, j - 1), n)
  }

  /** Range clauses of the first `i` rows. */
  function Ranges(style: Style, n: nat, i: nat): seq<Form>
  {
    if i == 0 then [] else Ranges(style, n, i - 1) + RangeRow(style, n, i - 1, n)
  }

  function Symmetry(style: Style, n: nat): seq<Form>
  {
    [Le(At(style, 0, 0), At(style, n - 1, n - 1))]
    + if n >= 3 then [Le(At(style, 0, 0), At(style, 1, 1)), Le(At(style, 0, 0), At(style, 2, 2))] else []
  }

  /** The three plain bias families: inequalities and fixed values of single cells. */
  function CellBias(style: Style, n: nat, bias: string): seq<Form>
  {
    var c := (i, j) => At(style, i, j);
    if bias == "diag_split" then
      if n >= 3 then [Ne(c(0, 0), c(1, 1)), Ne(c(1, 1), c(2, 2))]
      else if n >= 2 then [Ne(c(0, 0), c(1, 1))]
      else []
    else if bias == "noncomm" && n >= 2 then [Ne(c(0, 1), c(1, 0))]
    else if bias == "left_bias" && n >= 3 then [Eq(c(0, 1), Lit(0)), Eq(c(1, 2), Lit(1))]
    else if bias == "right_bias" && n >= 3 then [Eq(c(0, 1), Lit(1)), Eq(c(1, 2), Lit(2))]
    else if bias == "row_distinct" && n >= 3 then [Distinct([c(0, 0), c(0, 1), c(0, 2)])]
    else if bias == "col_distinct" && n >= 3 then [Distinct([c(0, 0), c(1, 0), c(2, 0)])]
    else if bias == "anti_projection" && n >= 3 then
      [Ne(c(0, 1), Lit(0)), Ne(c(0, 1), Lit(1)), Ne(c(1, 2), Lit(1)), Ne(c(1, 2), Lit(2))]
    else if bias == "diagonal_power" && n >= 4 then
      [Ne(c(0, 0), Lit(0)), Ne(c(1, 1), Lit(1)), Ne(c(2, 2), Lit(2))]
    else if bias == "role_escape" && n >= 3 then
      [Or([Ne(c(0, 1), c(1, 0)), Ne(c(0, 0), c(0, 1)), Ne(c(1, 1), c(1, 0))])]
    else []
  }

  /** The bias families that multiply computed powers of 0. */
  function PowerBias(style: Style, n: nat, bias: string): seq<Form>
    requires n > 0
  {
    var p2 := At(style, 0, 0);
    var p3r := Mul(style, n, Lit(0), p2);
    var p4r := Mul(style, n, Lit(0), p3r);
    var p3l := Mul(style, n, p2, Lit(0));
    var p4l := Mul(style, n, p3l, Lit(0));
    if n < 3 then []
    else if bias == "power_split_r" then Side(style, n, p3r) + Side(style, n, p4r) + [Or([Ne(p2, p3r), Ne(p3r, p4r)])]
    else if bias == "power_split_l" then Side(style, n, p3l) + Side(style, n, p4l) + [Or([Ne(p2, p3l), Ne(p3l, p4l)])]
    else if bias == "assoc_diag_split" then Side(style, n, p3r) + Side(style, n, p3l) + [Ne(p3r, p3l)]
    else []
  }

  /** `env` gives every variable of the law an element of the carrier. */
  ghost predicate InCarrier(eq: Equation, env: Env, n: nat)
  {
    forall v :: v in EqVars(eq) ==> v in env && 0 <= env[v] < n
  }

  /** `env` gives every variable of the law a value, and every variable that an operation is
      applied to an element of the carrier. A side that is a variable by itself may have any value. */
  ghost predicate OperandsInCarrier(eq: Equation, env: Env, n: nat)
  {
    && (forall v :: v in EqVars(eq) ==> v in env)
    && (eq.lhs.Op? ==> forall v :: v in VarsIn(eq.lhs) ==> 0 <= env[v] < n)
    && (eq.rhs.Op? ==> forall v :: v in VarsIn(eq.rhs) ==> 0 <= env[v] < n)
  }

  /** The clauses of one assignment of a law: side clauses, then the two sides compared. */
  function LawClauses(style: Style, eq: Equation, n: nat, env: Env, equal: bool): seq<Form>
    requires n > 0 && forall v :: v in EqVars(eq) ==> v in env
  {
    var (l, cl) := Encode(style, eq.lhs, n, Lits(env));
    var (r, cr) := Encode(style, eq.rhs, n, Lits(env));
    cl + cr + [if equal then Eq(l, r) else Ne(l, r)]
  }

  ghost predicate AllInCarrier(eq: Equation, envs: seq<Env>, n: nat)
  {
    forall i :: 0 <= i < |envs| ==> InCarrier(eq, envs[i], n)
  }

  /** The source clauses of a list of assignments. */
  ghost function Source(style: Style, eq: Equation, n: nat, envs: seq<Env>): seq<Form>
    requires n > 0 && AllInCarrier(eq, envs, n)
  {
    if envs == [] then []
    else
      var k := |envs| - 1;
      assert InCarrier(eq, envs[k], n);
      Source(style, eq, n, envs[..k]) + LawClauses(style, eq, n, envs[k], true)
  }

  lemma EnvsInCarrier(eq: Equation, n: nat)
    ensures AllInCarrier(eq, EnvList(eq, n), n)
  {
    var table: Table := seq(n, _ => []);
    forall i | 0 <= i < |EnvList(eq, n)| ensures InCarrier(eq, EnvList(eq, n)[i], n) {
      EnvListSound(eq, table, i);
    }
  }

  /** Everything a solver call asserts. */
  ghost function Solver(style: Style, eq1: Equation, eq2: Equation, n: nat, w: Env, bias: string): seq<Form>
    requires n > 0
  {
    EnvsInCarrier(eq1, n);
    Ranges(style, n, n) + Symmetry(style, n) + CellBias(style, n, bias) + PowerBias(style, n, bias)
    + Source(style, eq1, n, EnvList(eq1, n)) + LawClauses(style, eq2, n, WitnessEnv(eq2, w), false)
  }

  // ------------------------------------------------------------------- meaning

  predicate ModelAt(m: Interp, table: Table, i: int, j: int)
    requires FullRows(table) && 0 <= i < |table| && 0 <= j < |table|
  {
    m.cell(i, j) == table[i][j] && m.op(i, j) == table[i][j]
  }

  /** A table read as values of the cells, next to a function that agrees with it on the carrier. */
  ghost predicate ModelOf(m: Interp, table: Table)
    requires FullRows(table)
  {
    forall i, j :: 0 <= i < |table| && 0 <= j < |table| ==> ModelAt(m, table, i, j)
  }

  lemma AtValue(style: Style, m: Interp, table: Table, i: int, j: int)
    requires FullRows(table) && ModelOf(m, table) && 0 <= i < |table| && 0 <= j < |table|
    ensures Value(At(style, i, j), m) == table[i][j]
  {
    assert ModelAt(m, table, i, j);
    if style.Uninterpreted? {
      assert Value(Lit(i), m) == i && Value(Lit(j), m) == j;
    }
  }

  lemma InRangeHolds(e: Expr, n: nat, m: Interp)
    ensures AllHold(InRange(e, n), m) <==> 0 <= Value(e, m) < n
  {
    var fs := InRange(e, n);
    assert Value(Lit(0), m) == 0 && Value(Lit(n), m) == n;
    assert Holds(fs[0], m) <==> Value(e, m) >= 0;
    assert Holds(fs[1], m) <==> Value(e, m) < n;
  }

  /** For arguments inside the carrier both forms of a product denote the table cell. */
  lemma MulValue(style: Style, m: Interp, table: Table, a: Expr, b: Expr)
    requires WellFormed(table) && ModelOf(m, table) && table != []
    requires 0 <= Value(a, m) < |table| && 0 <= Value(b, m) < |table|
    ensures Value(Mul(style, |table|, a, b), m) == table[Value(a, m)][Value(b, m)]
    ensures AllHold(Side(style, |table|, Mul(style, |table|, a, b)), m)
  {
    assert ModelAt(m, table, Value(a, m), Value(b, m));
    RowsValue(|table|, a, b, 0, m);
    InRangeHolds(Mul(style, |table|, a, b), |table|, m);
  }

  /** The encoded term denotes the concrete value, and its side clauses hold by themselves. */
  lemma {:induction false} EncodeValue(style: Style, m: Interp, table: Table, t: Term, env: Env)
    requires WellFormed(table) && ModelOf(m, table) && table != []
    requires forall v :: v in VarsIn(t) ==> v in env && 0 <= env[v] < |table|
    ensures Eval(t, table, env) == Some(Value(Encode(style, t, |table|, Lits(env)).0, m))
    ensures 0 <= Value(Encode(style, t, |table|, Lits(env)).0, m) < |table|
    ensures AllHold(Encode(style, t, |table|, Lits(env)).1, m)
  {
    var n := |table|;
    match t
    case Var(name) => assert name in VarsIn(t);
    case Op(l, r) =>
      EncodeValue(style, m, table, l, env);
      EncodeValue(style, m, table, r, env);
      var (a, ca) := Encode(style, l, n, Lits(env));
      var (b, cb) := Encode(style, r, n, Lits(env));
      MulValue(style, m, table, a, b);
      AllHoldSplit(ca, cb, m);
      AllHoldSplit(ca + cb, Side(style, n, Mul(style, n, a, b)), m);
  }

  /** The same for a whole side, which may be a variable with a value outside the carrier. */
  lemma SideValue(style: Style, m: Interp, table: Table, t: Term, env: Env)
    requires WellFormed(table) && ModelOf(m, table) && table != []
    requires forall v :: v in VarsIn(t) ==> v in env && (t.Op? ==> 0 <= env[v] < |table|)
    ensures Eval(t, table, env) == Some(Value(Encode(style, t, |table|, Lits(env)).0, m))
    ensures AllHold(Encode(style, t, |table|, Lits(env)).1, m)
  {
    match t
    case Var(name) => assert name in VarsIn(t);
    case Op(_, _) => EncodeValue(style, m, table, t, env);
  }

  lemma LawMeaning(style: Style, m: Interp, table: Table, eq: Equation, env: Env, equal: bool)
    requires WellFormed(table) && ModelOf(m, table) && table != []
    requires OperandsInCarrier(eq, env, |table|)
    ensures AllHold(LawClauses(style, eq, |table|, env, equal), m) <==> (equal <==> Agrees(eq, table, env))
  {
    SideValue(style, m, table, eq.lhs, env);
    SideValue(style, m, table, eq.rhs, env);
    var (l, cl) := Encode(style, eq.lhs, |table|, Lits(env));
    var (r, cr) := Encode(style, eq.rhs, |table|, Lits(env));
    var last := [if equal then Eq(l, r) else Ne(l, r)];
    AllHoldSplit(cl, cr, m);
    AllHoldSplit(cl + cr, last, m);
    assert Holds(last[0], m) <==> (equal <==> Value(l, m) == Value(r, m));
  }

  lemma {:induction false} RowMeaning(style: Style, m: Interp, table: Table, i: nat, j: nat)
    requires FullRows(table) && ModelOf(m, table) && i < |table| && j <= |table|
    ensures AllHold(RangeRow(style, |table|, i, j), m) <==> forall k :: 0 <= k < j ==> 0 <= table[i][k] < |table|
  {
    if j == 0 {
    } else {
      RowMeaning(style, m, table, i, j - 1);
      AtValue(style, m, table, i, j - 1);
      InRangeHolds(At(style, i, j - 1), |table|, m);
      AllHoldSplit(RangeRow(style, |table|, i, j - 1), InRange(At(style, i, j - 1), |table|), m);
    }
  }

  lemma {:induction false} RangesMeaning(style: Style, m: Interp, table: Table, i: nat)
    requires FullRows(table) && ModelOf(m, table) && i <= |table|
    ensures AllHold(Ranges(style, |table|, i), m) <==>
            forall r, k :: 0 <= r < i && 0 <= k < |table| ==> 0 <= table[r][k] < |table|
  {
    if i == 0 {
    } else {
      RangesMeaning(style, m, table, i - 1);
      RowMeaning(style, m, table, i - 1, |table|);
      AllHoldSplit(Ranges(style, |table|, i - 1), RangeRow(style, |table|, i - 1, |table|), m);
    }
  }

  ghost predicate AllAgree(eq: Equation, table: Table, envs: seq<Env>)
    requires FullRows(table)
  {
    forall i :: 0 <= i < |envs| ==> Agrees(eq, table, envs[i])
  }

  lemma SourceLast(style: Style, m: Interp, table: Table, eq: Equation, envs: seq<Env>)
    requires WellFormed(table) && ModelOf(m, table) && table != [] && AllInCarrier(eq, envs, |table|) && envs != []
    ensures AllInCarrier(eq, envs[..|envs| - 1], |table|)
    ensures AllHold(Source(style, eq, |table|, envs), m) <==>
            AllHold(Source(style, eq, |table|, envs[..|envs| - 1]), m) && Agrees(eq, table, envs[|envs| - 1])
  {
    var n, k := |table|, |envs| - 1;
    assert InCarrier(eq, envs[k], n);
    assert AllInCarrier(eq, envs[..k], n);
    LawMeaning(style, m, table, eq, envs[k], true);
    AllHoldSplit(Source(style, eq, n, envs[..k]), LawClauses(style, eq, n, envs[k], true), m);
  }

  lemma {:induction false} SourceMeaning(style: Style, m: Interp, table: Table, eq: Equation, envs: seq<Env>)
    requires WellFormed(table) && ModelOf(m, table) && table != [] && AllInCarrier(eq, envs, |table|)
    ensures AllHold(Source(style, eq, |table|, envs), m) <==> AllAgree(eq, table, envs)
  {
    if envs == [] {
    } else {
      var k := |envs| - 1;
      SourceLast(style, m, table, eq, envs);
      SourceMeaning(style, m, table, eq, envs[..k]);
      assert AllAgree(eq, table, envs) <==> AllAgree(eq, table, envs[..k]) && Agrees(eq, table, envs[k]);
    }
  }

  lemma SourceIsSatisfies(style: Style, m: Interp, table: Table, eq: Equation)
    requires WellFormed(table) && ModelOf(m, table) && table != []
    ensures AllInCarrier(eq, EnvList(eq, |table|), |table|)
    ensures AllHold(Source(style, eq, |table|, EnvList(eq, |table|)), m) <==> Satisfies(eq, table)
  {
    var envs := EnvList(eq, |table|);
    EnvsInCarrier(eq, |table|);
    SourceMeaning(style, m, table, eq, envs);
    if Satisfies(eq, table) {
      forall i | 0 <= i < |envs| ensures Agrees(eq, table, envs[i]) {
        EnvListSound(eq, table, i);
      }
    }
    if AllAgree(eq, table, envs) {
      SatisfiesByList(eq, table);
    }
  }

  /** The symmetry-breaking order on the diagonal. */
  predicate SymmetryBroken(table: Table)
    requires FullRows(table) && table != []
  {
    var n := |table|;
    && table[0][0] <= table[n - 1][n - 1]
    && (n >= 3 ==> table[0][0] <= table[1][1] && table[0][0] <= table[2][2])
  }

  const POWER_BIASES := ["power_split_r", "power_split_l", "assoc_diag_split"]

  /** What each bias asks of a table. */
  predicate Biased(table: Table, bias: string)
    requires WellFormed(table) && table != []
  {
    var n := |table|;
    var p2 := table[0][0];
    match bias
    case "diag_split" => (n >= 2 ==> table[0][0] != table[1][1]) && (n >= 3 ==> table[1][1] != table[2][2])
    case "noncomm" => n >= 2 ==> table[0][1] != table[1][0]
    case "left_bias" => n >= 3 ==> table[0][1] == 0 && table[1][2] == 1
    case "right_bias" => n >= 3 ==> table[0][1] == 1 && table[1][2] == 2
    case "row_distinct" => n >= 3 ==> p2 != table[0][1] && p2 != table[0][2] && table[0][1] != table[0][2]
    case "col_distinct" => n >= 3 ==> p2 != table[1][0] && p2 != table[2][0] && table[1][0] != table[2][0]
    case "anti_projection" => n >= 3 ==> table[0][1] !in [0, 1] && table[1][2] !in [1, 2]
    case "diagonal_power" => n >= 4 ==> p2 != 0 && table[1][1] != 1 && table[2][2] != 2
    case "power_split_r" => n >= 3 ==> p2 != table[0][p2] || table[0][p2] != table[0][table[0][p2]]
    case "power_split_l" => n >= 3 ==> p2 != table[p2][0] || table[p2][0] != table[table[p2][0]][0]
    case "assoc_diag_split" => n >= 3 ==> table[0][p2] != table[p2][0]
    case "role_escape" => n >= 3 ==> table[0][1] != table[1][0] || p2 != table[0][1] || table[1][1] != table[1][0]
    case _ => true
  }

  lemma HoldsOne(fs: seq<Form>, m: Interp)
    requires |fs| <= 4
    ensures AllHold(fs, m) <==>
            && (|fs| > 0 ==> Holds(fs[0], m)) && (|fs| > 1 ==> Holds(fs[1], m))
            && (|fs| > 2 ==> Holds(fs[2], m)) && (|fs| > 3 ==> Holds(fs[3], m))
  {
  }

  lemma OrHolds(ps: seq<Form>, m: Interp)
    requires 2 <= |ps| <= 3
    ensures Holds(Or(ps), m) <==> Holds(ps[0], m) || Holds(ps[1], m) || (|ps| == 3 && Holds(ps[2], m))
  {
  }

  lemma DistinctHolds(es: seq<Expr>, m: Interp)
    requires |es| == 3
    ensures Holds(Distinct(es), m) <==>
            Value(es[0], m) != Value(es[1], m) && Value(es[0], m) != Value(es[2], m) && Value(es[1], m) != Value(es[2], m)
  {
  }

  lemma LowCells(style: Style, m: Interp, table: Table)
    requires FullRows(table) && ModelOf(m, table) && |table| >= 2
    ensures Value(At(style, 0, 0), m) == table[0][0] && Value(At(style, 1, 1), m) == table[1][1]
    ensures Value(At(style, 0, 1), m) == table[0][1] && Value(At(style, 1, 0), m) == table[1][0]
    ensures |table| >= 3 ==>
              && Value(At(style, 0, 2), m) == table[0][2] && Value(At(style, 1, 2), m) == table[1][2]
              && Value(At(style, 2, 0), m) == table[2][0] && Value(At(style, 2, 2), m) == table[2][2]
  {
    AtValue(style, m, table, 0, 0);
    AtValue(style, m, table, 1, 1);
    AtValue(style, m, table, 0, 1);
    AtValue(style, m, table, 1, 0);
    if |table| >= 3 {
      AtValue(style, m, table, 0, 2);
      AtValue(style, m, table, 1, 2);
      AtValue(style, m, table, 2, 0);
      AtValue(style, m, table, 2, 2);
    }
  }

  lemma PairBiasMeaning(style: Style, m: Interp, table: Table, bias: string)
    requires WellFormed(table) && ModelOf(m, table) && table != []
    requires bias in ["diag_split", "noncomm"]
    ensures AllHold(CellBias(style, |table|, bias), m) <==> Biased(table, bias)
  {
    if |table| >= 2 {
      LowCells(style, m, table);
    }
    HoldsOne(CellBias(style, |table|, bias), m);
  }

  lemma FixedBiasMeaning(style: Style, m: Interp, table: Table, bias: string)
    requires WellFormed(table) && ModelOf(m, table) && table != []
    requires bias in ["left_bias", "right_bias", "anti_projection", "diagonal_power"]
    ensures AllHold(CellBias(style, |table|, bias), m) <==> Biased(table, bias)
  {
    if |table| >= 2 {
      LowCells(style, m, table);
    }
    HoldsOne(CellBias(style, |table|, bias), m);
  }

  lemma SpreadBiasMeaning(style: Style, m: Interp, table: Table, bias: string)
    requires WellFormed(table) && ModelOf(m, table) && table != []
    requires bias in ["row_distinct", "col_distinct", "role_escape"]
    ensures AllHold(CellBias(style, |table|, bias), m) <==> Biased(table, bias)
  {
    HoldsOne(CellBias(style, |table|, bias), m);
    if |table| >= 3 {
      LowCells(style, m, table);
      if bias == "row_distinct" {
        DistinctHolds([At(style, 0, 0), At(style, 0, 1), At(style, 0, 2)], m);
      } else if bias == "col_distinct" {
        DistinctHolds([At(style, 0, 0), At(style, 1, 0), At(style, 2, 0)], m);
      } else {
        OrHolds([Ne(At(style, 0, 1), At(style, 1, 0)), Ne(At(style, 0, 0), At(style, 0, 1)), Ne(At(style, 1, 1), At(style, 1, 0))], m);
      }
    }
  }

  lemma CellBiasMeaning(style: Style, m: Interp, table: Table, bias: string)
    requires WellFormed(table) && ModelOf(m, table) && table != []
    ensures bias in POWER_BIASES ==> CellBias(style, |table|, bias) == []
    ensures bias !in POWER_BIASES ==> (AllHold(CellBias(style, |table|, bias), m) <==> Biased(table, bias))
  {
    if bias in ["diag_split", "noncomm"] {
      PairBiasMeaning(style, m, table, bias);
    } else if bias in ["left_bias", "right_bias", "anti_projection", "diagonal_power"] {
      FixedBiasMeaning(style, m, table, bias);
    } else if bias in ["row_distinct", "col_distinct", "role_escape"] {
      SpreadBiasMeaning(style, m, table, bias);
    }
  }

  /** The computed powers of 0 have their values in the table, and their side clauses hold. */
  lemma PowerValues(style: Style, m: Interp, table: Table)
    requires WellFormed(table) && ModelOf(m, table) && table != []
    ensures var n, p2 := |table|, table[0][0];
            var e2 := At(style, 0, 0);
            var r3, l3 := Mul(style, n, Lit(0), e2), Mul(style, n, e2, Lit(0));
            var r4, l4 := Mul(style, n, Lit(0), r3), Mul(style, n, l3, Lit(0));
            && Value(e2, m) == p2
            && Value(r3, m) == table[0][p2] && Value(r4, m) == table[0][table[0][p2]]
            && Value(l3, m) == table[p2][0] && Value(l4, m) == table[table[p2][0]][0]
            && AllHold(Side(style, n, r3), m) && AllHold(Side(style, n, r4), m)
            && AllHold(Side(style, n, l3), m) && AllHold(Side(style, n, l4), m)
  {
    var n := |table|;
    AtValue(style, m, table, 0, 0);
    var e2 := At(style, 0, 0);
    assert Value(Lit(0), m) == 0;
    MulValue(style, m, table, Lit(0), e2);
    MulValue(style, m, table, e2, Lit(0));
    MulValue(style, m, table, Lit(0), Mul(style, n, Lit(0), e2));
    MulValue(style, m, table, Mul(style, n, e2, Lit(0)), Lit(0));
  }

  lemma TwoSides(a: seq<Form>, b: seq<Form>, f: Form, m: Interp)
    requires AllHold(a, m) && AllHold(b, m)
    ensures AllHold(a + b + [f], m) <==> Holds(f, m)
  {
    AllHoldSplit(a, b, m);
    AllHoldSplit(a + b, [f], m);
    HoldsOne([f], m);
  }

  lemma SplitClause(a: seq<Form>, b: seq<Form>, p2: Expr, p3: Expr, p4: Expr, m: Interp)
    requires AllHold(a, m) && AllHold(b, m)
    ensures AllHold(a + b + [Or([Ne(p2, p3), Ne(p3, p4)])], m) <==>
            Value(p2, m) != Value(p3, m) || Value(p3, m) != Value(p4, m)
  {
    OrHolds([Ne(p2, p3), Ne(p3, p4)], m);
    TwoSides(a, b, Or([Ne(p2, p3), Ne(p3, p4)]), m);
  }

  lemma DifferClause(a: seq<Form>, b: seq<Form>, p: Expr, q: Expr, m: Interp)
    requires AllHold(a, m) && AllHold(b, m)
    ensures AllHold(a + b + [Ne(p, q)], m) <==> Value(p, m) != Value(q, m)
  {
    TwoSides(a, b, Ne(p, q), m);
  }

  lemma SplitRightMeaning(style: Style, m: Interp, table: Table)
    requires WellFormed(table) && ModelOf(m, table) && |table| >= 3
    ensures AllHold(PowerBias(style, |table|, "power_split_r"), m) <==> Biased(table, "power_split_r")
  {
    PowerValues(style, m, table);
    var n, p2 := |table|, At(style, 0, 0);
    var p3 := Mul(style, n, Lit(0), p2);
    var p4 := Mul(style, n, Lit(0), p3);
    SplitClause(Side(style, n, p3), Side(style, n, p4), p2, p3, p4, m);
  }

  lemma SplitLeftMeaning(style: Style, m: Interp, table: Table)
    requires WellFormed(table) && ModelOf(m, table) && |table| >= 3
    ensures AllHold(PowerBias(style, |table|, "power_split_l"), m) <==> Biased(table, "power_split_l")
  {
    PowerValues(style, m, table);
    var n, p2 := |table|, At(style, 0, 0);
    var p3 := Mul(style, n, p2, Lit(0));
    var p4 := Mul(style, n, p3, Lit(0));
    SplitClause(Side(style, n, p3), Side(style, n, p4), p2, p3, p4, m);
  }

  lemma AssocSplitMeaning(style: Style, m: Interp, table: Table)
    requires WellFormed(table) && ModelOf(m, table) && |table| >= 3
    ensures AllHold(PowerBias(style, |table|, "assoc_diag_split"), m) <==> Biased(table, "assoc_diag_split")
  {
    PowerValues(style, m, table);
    var n, p2 := |table|, At(style, 0, 0);
    var r, l := Mul(style, n, Lit(0), p2), Mul(style, n, p2, Lit(0));
    DifferClause(Side(style, n, r), Side(style, n, l), r, l, m);
  }

  lemma PowerBiasMeaning(style: Style, m: Interp, table: Table, bias: string)
    requires WellFormed(table) && ModelOf(m, table) && table != []
    ensures bias !in POWER_BIASES ==> PowerBias(style, |table|, bias) == []
    ensures bias in POWER_BIASES ==> (AllHold(PowerBias(style, |table|, bias), m) <==> Biased(table, bias))
  {
    if |table| < 3 || bias !in POWER_BIASES {
    } else if bias == "power_split_r" {
      SplitRightMeaning(style, m, table);
    } else if bias == "power_split_l" {
      SplitLeftMeaning(style, m, table);
    } else {
      AssocSplitMeaning(style, m, table);
    }
  }

  lemma SymmetryMeaning(style: Style, m: Interp, table: Table)
    requires FullRows(table) && ModelOf(m, table) && table != []
    ensures AllHold(Symmetry(style, |table|), m) <==> SymmetryBroken(table)
  {
    var n := |table|;
    AtValue(style, m, table, 0, 0);
    AtValue(style, m, table, n - 1, n - 1);
    if n >= 3 {
      AtValue(style, m, table, 1, 1);
      AtValue(style, m, table, 2, 2);
    }
    HoldsOne(Symmetry(style, n), m);
  }

  /** All clauses but the target's hold. */
  ghost predicate TableClausesHold(style: Style, eq1: Equation, n: nat, bias: string, m: Interp)
    requires n > 0 && AllInCarrier(eq1, EnvList(eq1, n), n)
  {
    && AllHold(Ranges(style, n, n), m) && AllHold(Symmetry(style, n), m)
    && AllHold(CellBias(style, n, bias), m) && AllHold(PowerBias(style, n, bias), m)
    && AllHold(Source(style, eq1, n, EnvList(eq1, n)), m)
  }

  /** The clauses of a solver call: those about the table, and the target's. */
  lemma SolverSplits(style: Style, m: Interp, eq1: Equation, eq2: Equation, n: nat, w: Env, bias: string)
    requires n > 0
    ensures AllInCarrier(eq1, EnvList(eq1, n), n)
    ensures AllHold(Solver(style, eq1, eq2, n, w, bias), m) <==>
            && TableClausesHold(style, eq1, n, bias, m)
            && AllHold(LawClauses(style, eq2, n, WitnessEnv(eq2, w), false), m)
  {
    EnvsInCarrier(eq1, n);
    var c1, c2, c3, c4 := Ranges(style, n, n), Symmetry(style, n), CellBias(style, n, bias), PowerBias(style, n, bias);
    var c5, c6 := Source(style, eq1, n, EnvList(eq1, n)), LawClauses(style, eq2, n, WitnessEnv(eq2, w), false);
    AllHoldSplit(c1, c2, m);
    AllHoldSplit(c1 + c2, c3, m);
    AllHoldSplit(c1 + c2 + c3, c4, m);
    AllHoldSplit(c1 + c2 + c3 + c4, c5, m);
    AllHoldSplit(c1 + c2 + c3 + c4 + c5, c6, m);
  }

  /** What a solver call decides about a table, in terms of the table alone. */
  ghost predicate Decided(table: Table, eq1: Equation, eq2: Equation, w: Env, bias: string)
    requires FullRows(table) && table != []
  {
    && WellFormed(table)
    && SymmetryBroken(table)
    && Biased(table, bias)
    && Satisfies(eq1, table)
    && !Agrees(eq2, table, WitnessEnv(eq2, w))
  }

  lemma TableClausesMeaning(style: Style, m: Interp, table: Table, eq1: Equation, bias: string)
    requires FullRows(table) && ModelOf(m, table) && table != []
    ensures AllInCarrier(eq1, EnvList(eq1, |table|), |table|)
    ensures TableClausesHold(style, eq1, |table|, bias, m) <==>
            WellFormed(table) && SymmetryBroken(table) && Biased(table, bias) && Satisfies(eq1, table)
  {
    EnvsInCarrier(eq1, |table|);
    RangesMeaning(style, m, table, |table|);
    SymmetryMeaning(style, m, table);
    if WellFormed(table) {
      CellBiasMeaning(style, m, table, bias);
      PowerBiasMeaning(style, m, table, bias);
      SourceIsSatisfies(style, m, table, eq1);
    }
  }

  /** In both encodings the asserted clauses hold of a table exactly when it is such a table. */
  lemma SolverMeaning(style: Style, m: Interp, table: Table, eq1: Equation, eq2: Equation, w: Env, bias: string)
    requires FullRows(table) && ModelOf(m, table) && table != []
    requires OperandsInCarrier(eq2, WitnessEnv(eq2, w), |table|)
    ensures AllHold(Solver(style, eq1, eq2, |table|, w, bias), m) <==> Decided(table, eq1, eq2, w, bias)
  {
    SolverSplits(style, m, eq1, eq2, |table|, w, bias);
    TableClausesMeaning(style, m, table, eq1, bias);
    if WellFormed(table) {
      LawMeaning(style, m, table, eq2, WitnessEnv(eq2, w), false);
    }
  }

  ghost predicate Accepts(style: Style, table: Table, eq1: Equation, eq2: Equation, w: Env, bias: string)
    requires FullRows(table) && table != []
  {
    exists m :: ModelOf(m, table) && AllHold(Solver(style, eq1, eq2, |table|, w, bias), m)
  }

  lemma TableHasModel(table: Table)
    requires FullRows(table)
    ensures exists m :: ModelOf(m, table)
  {
    var read := (i: int, j: int) => if 0 <= i < |table| && 0 <= j < |table| then table[i][j] else 0;
    var m := Interp(read, read);
    forall i, j | 0 <= i < |table| && 0 <= j < |table| ensures ModelAt(m, table, i, j) {
    }
    assert ModelOf(m, table);
  }

  /** The two solvers accept the same tables, for every carrier, bias and witness that keeps the
      operands of the target inside the carrier. */
  lemma SolversAcceptSameTables(table: Table, eq1: Equation, eq2: Equation, w: Env, bias: string)
    requires FullRows(table) && table != []
    requires OperandsInCarrier(eq2, WitnessEnv(eq2, w), |table|)
    ensures Accepts(Nested, table, eq1, eq2, w, bias) <==> Accepts(Uninterpreted, table, eq1, eq2, w, bias)
    ensures Accepts(Nested, table, eq1, eq2, w, bias) <==> Decided(table, eq1, eq2, w, bias)
  {
    forall style: Style, m | ModelOf(m, table)
      ensures AllHold(Solver(style, eq1, eq2, |table|, w, bias), m) <==> Decided(table, eq1, eq2, w, bias)
    {
      SolverMeaning(style, m, table, eq1, eq2, w, bias);
    }
    TableHasModel(table);
  }

  lemma DisagreementSeparates(eq: Equation, table: Table, env: Env)
    requires WellFormed(table) && InCarrier(eq, env, |table|) && !Agrees(eq, table, env)
    ensures Separates(eq, table, env)
  {
    EvalInRange(eq.lhs, table, env);
    EvalInRange(eq.rhs, table, env);
  }

  /** Every accepted table passes the concrete checker: "failed concrete validation" is never printed. */
  lemma AcceptedPassesValidation(style: Style, table: Table, eq1: Equation, eq2: Equation, w: Env, bias: string)
    requires FullRows(table) && table != []
    requires InCarrier(eq2, WitnessEnv(eq2, w), |table|)
    requires Accepts(style, table, eq1, eq2, w, bias)
    ensures WellFormed(table) && Countermodel(eq1, eq2, table)
    ensures Assignment(eq2, table, WitnessEnv(eq2, w)) && Separates(eq2, table, WitnessEnv(eq2, w))
  {
    var m :| ModelOf(m, table) && AllHold(Solver(style, eq1, eq2, |table|, w, bias), m);
    SolverMeaning(style, m, table, eq1, eq2, w, bias);
    assert Assignment(eq2, table, WitnessEnv(eq2, w));
    DisagreementSeparates(eq2, table, WitnessEnv(eq2, w));
  }

  /** The table a model of the uninterpreted function is read back as. */
  function Extract(n: nat, op: (int, int) -> int): (table: Table)
    ensures |table| == n && FullRows(table)
    ensures forall i, j :: 0 <= i < n && 0 <= j < n ==> table[i][j] == op(i, j)
  {
    seq(n, i => seq(n, j => op(i, j)))
  }

  lemma ExtractedIsModel(n: nat, op: (int, int) -> int)
    ensures ModelOf(Interp(op, op), Extract(n, op))
  {
    forall i, j | 0 <= i < n && 0 <= j < n ensures ModelAt(Interp(op, op), Extract(n, op), i, j) {}
  }

  /** So a model of either encoding, read back, is a countermodel, whatever the solver chose
      for arguments outside the carrier. */
  lemma ExtractedIsCountermodel(style: Style, n: nat, op: (int, int) -> int, eq1: Equation, eq2: Equation, w: Env, bias: string)
    requires n > 0 && InCarrier(eq2, WitnessEnv(eq2, w), n)
    requires AllHold(Solver(style, eq1, eq2, n, w, bias), Interp(op, op))
    ensures Countermodel(eq1, eq2, Extract(n, op))
  {
    ExtractedIsModel(n, op);
    AcceptedPassesValidation(style, Extract(n, op), eq1, eq2, w, bias);
  }

  lemma SquareEncoded(style: Style, n: nat, name: string, env: Env)
    requires n > 0 && name in env && forall v :: v in VarsIn(Op(Var(name), Var(name))) ==> v in env
    ensures var sq := Mul(style, n, Lit(env[name]), Lit(env[name]));
            Encode(style, Op(Var(name), Var(name)), n, Lits(env)) == (sq, Side(style, n, sq))
  {
    var x := Var(name);
    assert Encode(style, x, n, Lits(env)) == (Lit(env[name]), []);
    var sq := Mul(style, n, Lit(env[name]), Lit(env[name]));
    assert [] + [] + Side(style, n, sq) == Side(style, n, sq);
  }

  /** The squares of two variables are different: a target that both encodings can be asked about. */
  function SquaresDiffer(): Equation
  {
    Equation(Op(Var("x"), Var("x")), Op(Var("y"), Var("y")))
  }

  lemma SquaresVars(env: Env)
    requires env == map["x" := 5, "y" := 6]
    ensures forall v :: v in EqVars(SquaresDiffer()) <==> v in env
    ensures forall v :: v in VarsIn(SquaresDiffer().lhs) ==> v == "x"
    ensures forall v :: v in VarsIn(SquaresDiffer().rhs) ==> v == "y"
  {
    assert VarsIn(Var("x")) == ["x"] && VarsIn(Var("y")) == ["y"];
    assert VarsIn(SquaresDiffer().lhs) == ["x", "x"] && VarsIn(SquaresDiffer().rhs) == ["y", "y"];
    assert "x" in VarsIn(SquaresDiffer().lhs) && "y" in VarsIn(SquaresDiffer().rhs);
  }

  lemma NestedTargetFails(m: Interp, env: Env)
    requires env == map["x" := 5, "y" := 6]
    ensures forall v :: v in EqVars(SquaresDiffer()) ==> v in env
    ensures !AllHold(LawClauses(Nested, SquaresDiffer(), 2, env, false), m)
  {
    SquaresVars(env);
    SquareEncoded(Nested, 2, "x", env);
    SquareEncoded(Nested, 2, "y", env);
    var l, r := Mul(Nested, 2, Lit(5), Lit(5)), Mul(Nested, 2, Lit(6), Lit(6));
    RowsValue(2, Lit(5), Lit(5), 0, m);
    RowsValue(2, Lit(6), Lit(6), 0, m);
    DifferClause([], [], l, r, m);
  }

  lemma FreeTargetHolds(m: Interp, env: Env)
    requires env == map["x" := 5, "y" := 6] && m.op(5, 5) == 0 && m.op(6, 6) == 1
    ensures forall v :: v in EqVars(SquaresDiffer()) ==> v in env
    ensures AllHold(LawClauses(Uninterpreted, SquaresDiffer(), 2, env, false), m)
  {
    SquaresVars(env);
    SquareEncoded(Uninterpreted, 2, "x", env);
    SquareEncoded(Uninterpreted, 2, "y", env);
    var l, r := App(Lit(5), Lit(5)), App(Lit(6), Lit(6));
    assert Value(Lit(5), m) == 5 && Value(Lit(6), m) == 6;
    InRangeHolds(l, 2, m);
    InRangeHolds(r, 2, m);
    DifferClause(InRange(l, 2), InRange(r, 2), l, r, m);
  }

  /** On a table that meets all other demands only the target's clauses are left. */
  lemma RestHolds(style: Style, m: Interp, table: Table, eq1: Equation, eq2: Equation, w: Env, bias: string)
    requires WellFormed(table) && ModelOf(m, table) && table != []
    requires SymmetryBroken(table) && Biased(table, bias) && Satisfies(eq1, table)
    ensures AllHold(Solver(style, eq1, eq2, |table|, w, bias), m) <==>
            AllHold(LawClauses(style, eq2, |table|, WitnessEnv(eq2, w), false), m)
  {
    SolverSplits(style, m, eq1, eq2, |table|, w, bias);
    TableClausesMeaning(style, m, table, eq1, bias);
  }

  const ZEROS: Table := [[0, 0], [0, 0]]
  const OUTSIDE: Env := map["x" := 5, "y" := 6]

  function Trivial(): Equation
  {
    Equation(Var("x"), Var("x"))
  }

  lemma ZerosFit()
    ensures WellFormed(ZEROS) && SymmetryBroken(ZEROS) && Biased(ZEROS, "none") && Satisfies(Trivial(), ZEROS)
    ensures WitnessEnv(SquaresDiffer(), OUTSIDE) == OUTSIDE
  {
    SquaresVars(OUTSIDE);
  }

  lemma NestedRejects()
    ensures WellFormed(ZEROS) && !Accepts(Nested, ZEROS, Trivial(), SquaresDiffer(), OUTSIDE, "none")
  {
    ZerosFit();
    forall m | ModelOf(m, ZEROS)
      ensures !AllHold(Solver(Nested, Trivial(), SquaresDiffer(), |ZEROS|, OUTSIDE, "none"), m)
    {
      RestHolds(Nested, m, ZEROS, Trivial(), SquaresDiffer(), OUTSIDE, "none");
      NestedTargetFails(m, OUTSIDE);
    }
  }

  lemma FreeModel() returns (m: Interp)
    ensures ModelOf(m, ZEROS) && m.op(5, 5) == 0 && m.op(6, 6) == 1
  {
    m := Interp((i, j) => 0, (i, j) => if i == 6 then 1 else 0);
    forall i, j | 0 <= i < |ZEROS| && 0 <= j < |ZEROS| ensures ModelAt(m, ZEROS, i, j) {}
  }

  lemma UninterpretedAccepts()
    ensures WellFormed(ZEROS) && Accepts(Uninterpreted, ZEROS, Trivial(), SquaresDiffer(), OUTSIDE, "none")
  {
    ZerosFit();
    var m := FreeModel();
    RestHolds(Uninterpreted, m, ZEROS, Trivial(), SquaresDiffer(), OUTSIDE, "none");
    FreeTargetHolds(m, OUTSIDE);
  }

  /** The operands must lie in the carrier: outside it an If chain falls back to the last cell,
      while the function stays free, and the two encodings part ways. The program itself never
      asks about such a witness. */
  lemma OutsideWitnessesDisagree()
    ensures FullRows(ZEROS)
    ensures Accepts(Uninterpreted, ZEROS, Trivial(), SquaresDiffer(), OUTSIDE, "none")
    ensures !Accepts(Nested, ZEROS, Trivial(), SquaresDiffer(), OUTSIDE, "none")
  {
    UninterpretedAccepts();
    NestedRejects();
  }
}
