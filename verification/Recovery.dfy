/** What a recovery matrix means: row p of column c says that table c refutes implication p. */
module Recovery {
  import opened Greedy
  import opened Magma
  import opened Terms

  /** `pair_recovery_matrix`: a constructor recovers the pairs whose first law it satisfies and
      whose second it does not. */
  function PairRecovery(pairs: seq<(nat, nat)>, sat: seq<seq<bool>>, eqs: nat): (m: Matrix)
    requires forall p :: 0 <= p < |pairs| ==> pairs[p].0 < eqs && pairs[p].1 < eqs
    requires forall c :: 0 <= c < |sat| ==> |sat[c]| == eqs
  {
    Matrix(|pairs|, seq(|sat|, c requires 0 <= c < |sat| =>
      set p: nat | p < |pairs| && sat[c][pairs[p].0] && !sat[c][pairs[p].1]))
  }

  /** The satisfaction cache of a list of tables. */
  ghost predicate CacheOf(eqs: seq<Equation>, tables: seq<Table>, sat: seq<seq<bool>>)
  {
    && |sat| == |tables|
    && (forall c :: 0 <= c < |tables| ==> WellFormed(tables[c]) && |sat[c]| == |eqs|)
    && forall c, i :: 0 <= c < |tables| && 0 <= i < |eqs| ==> (sat[c][i] <==> Satisfies(eqs[i], tables[c]))
  }

  ghost predicate PairsInside(eqs: seq<Equation>, pairs: seq<(nat, nat)>)
  {
    forall p :: 0 <= p < |pairs| ==> pairs[p].0 < |eqs| && pairs[p].1 < |eqs|
  }

  /** The table refutes the implication in row `p`. */
  ghost predicate Refutes(eqs: seq<Equation>, pairs: seq<(nat, nat)>, p: nat, table: Table)
    requires PairsInside(eqs, pairs) && WellFormed(table) && p < |pairs|
  {
    Countermodel(eqs[pairs[p].0], eqs[pairs[p].1], table)
  }

  /** A column holds exactly the implications its table refutes. */
  lemma ColumnIsRefuted(eqs: seq<Equation>, pairs: seq<(nat, nat)>, tables: seq<Table>, sat: seq<seq<bool>>, c: nat, p: nat)
    requires PairsInside(eqs, pairs) && CacheOf(eqs, tables, sat) && c < |tables|
    ensures var m := PairRecovery(pairs, sat, |eqs|);
            Shaped(m) && |m.cols| == |tables| &&
            (p in m.cols[c] <==> p < |pairs| && Refutes(eqs, pairs, p, tables[c]))
  {
    if p < |pairs| {
      CheckersAgree(eqs[pairs[p].1], tables[c]);
    }
  }

  /** The rows a route covers are exactly the implications refuted by one of its tables. */
  lemma RouteRefutes(eqs: seq<Equation>, pairs: seq<(nat, nat)>, tables: seq<Table>, sat: seq<seq<bool>>, route: seq<nat>, p: nat)
    requires PairsInside(eqs, pairs) && CacheOf(eqs, tables, sat) && forall i :: 0 <= i < |route| ==> route[i] < |tables|
    ensures p in Cover(PairRecovery(pairs, sat, |eqs|).cols, route) <==>
            p < |pairs| && exists i :: 0 <= i < |route| && Refutes(eqs, pairs, p, tables[route[i]])
  {
    var cols := PairRecovery(pairs, sat, |eqs|).cols;
    CoverMember(cols, route, p);
    if p in Cover(cols, route) {
      var i :| 0 <= i < |route| && p in cols[route[i]];
      ColumnIsRefuted(eqs, pairs, tables, sat, route[i], p);
    }
    if p < |pairs| && exists i :: 0 <= i < |route| && Refutes(eqs, pairs, p, tables[route[i]]) {
      var i :| 0 <= i < |route| && Refutes(eqs, pairs, p, tables[route[i]]);
      ColumnIsRefuted(eqs, pairs, tables, sat, route[i], p);
    }
  }

  /** Pairs that really are implications are never recovered, by any route: with correct labels
      the contamination count is 0. */
  lemma TruePairsStayClean(eqs: seq<Equation>, pairs: seq<(nat, nat)>, tables: seq<Table>, sat: seq<seq<bool>>, route: seq<nat>)
    requires PairsInside(eqs, pairs) && CacheOf(eqs, tables, sat) && forall i :: 0 <= i < |route| ==> route[i] < |tables|
    requires forall p, table :: 0 <= p < |pairs| && WellFormed(table) ==> !Refutes(eqs, pairs, p, table)
    ensures Cover(PairRecovery(pairs, sat, |eqs|).cols, route) == {}
  {
    var cols := PairRecovery(pairs, sat, |eqs|).cols;
    forall p | p in Cover(cols, route) ensures false {
      RouteRefutes(eqs, pairs, tables, sat, route, p);
    }
  }

  /** The first column from `c` on that recovers row `p`, or -1. */
  function FirstHit(cols: seq<Mask>, p: nat, c: nat): (best: int)
    requires c <= |cols|
    ensures best == -1 ==> forall d :: c <= d < |cols| ==> p !in cols[d]
    ensures best != -1 ==> c <= best < |cols| && p in cols[best] && forall d :: c <= d < best ==> p !in cols[d]
    decreases |cols| - c
  {
    if c == |cols| then -1 else if p in cols[c] then c else FirstHit(cols, p, c + 1)
  }

  /** Row `p` is marked as recovered exactly when the oracle has it, with its first column. */
  ghost predicate RowExact(m: Matrix, p: nat, row: (bool, int))
  {
    && (row.0 <==> p in Oracle(m.cols))
    && (row.0 ==> 0 <= row.1 < |m.cols| && p in m.cols[row.1] && forall c :: 0 <= c < row.1 ==> p !in m.cols[c])
    && (!row.0 ==> row.1 == -1)
  }

  /** `evaluate_false_pairs`: for every pair whether some column recovers it, and the first that does. */
  method EvaluateFalsePairs(m: Matrix) returns (rows: seq<(bool, int)>)
    ensures |rows| == m.rows && forall p :: 0 <= p < m.rows ==> RowExact(m, p, rows[p])
  {
    rows := [];
    for p := 0 to m.rows
      invariant |rows| == p && forall q :: 0 <= q < p ==> RowExact(m, q, rows[q])
    {
      var best := FirstHit(m.cols, p, 0);
      rows := rows + [(best >= 0, best)];
    }
  }
}
