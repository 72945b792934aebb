/** Global replay: one satisfying table updates the coverage of all FALSE pairs at once. */
module Replay {
  import opened Orders
  import opened Terms
  import opened Magma

  type IdPair = (nat, nat)

  /** The equations, the FALSE-labelled pairs, and the table id. */
  datatype Problem = Problem(eqs: seq<Equation>, falsePairs: set<IdPair>, hash: Table -> string)

  ghost predicate WellPosed(pb: Problem)
  {
    forall p :: p in pb.falsePairs ==> p.0 < |pb.eqs| && p.1 < |pb.eqs|
  }

  ghost predicate InjectiveId(pb: Problem)
  {
    forall t, u :: pb.hash(t) == pb.hash(u) ==> t == u
  }

  /** A table refutes the implication of a pair. */
  ghost predicate Certifies(pb: Problem, table: Table, p: IdPair)
    requires FullRows(table) && p.0 < |pb.eqs| && p.1 < |pb.eqs|
  {
    Satisfies(pb.eqs[p.0], table) && !Satisfies(pb.eqs[p.1], table)
  }

  /** All FALSE pairs a table refutes. */
  ghost function Certified(pb: Problem, table: Table): set<IdPair>
    requires WellPosed(pb) && FullRows(table)
  {
    set p | p in pb.falsePairs && Certifies(pb, table, p)
  }

  // ------------------------------------------------------------ row-major lists

  function RowHits(s: set<IdPair>, i: nat, j: nat): (r: seq<IdPair>)
    ensures NoDuplicates(r)
    ensures forall p :: p in r <==> p in s && p.0 == i && p.1 < j
  {
    if j == 0 then []
    else
      var r := RowHits(s, i, j - 1);
      if (i, j - 1) in s then
        NoDuplicatesSnoc(r, (i, j - 1));
        r + [(i, j - 1)]
      else r
  }

  /** The positions of a mask, row by row, as `np.where` lists them. */
  function Where(s: set<IdPair>, i: nat, n: nat): (r: seq<IdPair>)
    ensures NoDuplicates(r)
    ensures forall p :: p in r <==> p in s && p.0 < i && p.1 < n
  {
    if i == 0 then []
    else
      var above, row := Where(s, i - 1, n), RowHits(s, i - 1, n);
      AppendDistinct(above, row);
      above + row
  }

  /** Rows in order, and columns in order within a row. */
  ghost predicate RowMajor(r: seq<IdPair>)
  {
    forall a, b :: 0 <= a < b < |r| ==> r[a].0 < r[b].0 || (r[a].0 == r[b].0 && r[a].1 < r[b].1)
  }

  lemma {:induction false} RowHitsAscend(s: set<IdPair>, i: nat, j: nat)
    ensures RowMajor(RowHits(s, i, j))
  {
    if j == 0 {
    } else {
      RowHitsAscend(s, i, j - 1);
      var r := RowHits(s, i, j - 1);
      assert forall a :: 0 <= a < |r| ==> r[a] in r;
    }
  }

  /** A row goes below the rows before it. */
  lemma RowBelow(above: seq<IdPair>, row: seq<IdPair>, i: nat)
    requires RowMajor(above) && RowMajor(row)
    requires (forall p :: p in above ==> p.0 < i) && forall p :: p in row ==> p.0 == i
    ensures RowMajor(above + row)
  {
    assert forall a :: 0 <= a < |above| ==> above[a] in above;
    assert forall a :: 0 <= a < |row| ==> row[a] in row;
  }

  lemma {:induction false} WhereAscends(s: set<IdPair>, i: nat, n: nat)
    ensures RowMajor(Where(s, i, n))
  {
    if i == 0 {
    } else {
      WhereAscends(s, i - 1, n);
      RowHitsAscend(s, i - 1, n);
      RowBelow(Where(s, i - 1, n), RowHits(s, i - 1, n), i - 1);
    }
  }

  // ------------------------------------------------------------------- the state

  datatype State = State(
    covered: set<IdPair>,
    seen: set<string>,
    tablesFound: nat,
    newTotal: nat,
    recoveries: seq<IdPair>)

  /** Nothing covered, nothing seen. */
  const EMPTY := State({}, {}, 0, 0, [])

  /** The pairs a table adds. */
  ghost function Gained(pb: Problem, s: State, table: Table): set<IdPair>
    requires WellPosed(pb) && FullRows(table)
  {
    if pb.hash(table) in s.seen then {} else Certified(pb, table) - s.covered
  }

  /** The newly refuted pairs of a table, listed row by row. */
  ghost function NewPairs(pb: Problem, covered: set<IdPair>, table: Table): seq<IdPair>
    requires WellPosed(pb) && FullRows(table)
  {
    Where(Certified(pb, table) - covered, |pb.eqs|, |pb.eqs|)
  }

  function Elements(hits: seq<IdPair>): set<IdPair>
  {
    set p | p in hits
  }

  ghost predicate AllFalse(pb: Problem, hits: seq<IdPair>)
  {
    forall k :: 0 <= k < |hits| ==> hits[k] in pb.falsePairs
  }

  /** The pairs the recoveries loop keeps: those the pairwise checker accepts, in order. */
  ghost function Recorded(pb: Problem, table: Table, hits: seq<IdPair>): seq<IdPair>
    requires WellPosed(pb) && FullRows(table) && AllFalse(pb, hits)
  {
    if hits == [] then []
    else
      var n := |hits| - 1;
      var p := hits[n];
      Recorded(pb, table, hits[..n]) +
      if p in pb.falsePairs && Countermodel(pb.eqs[p.0], pb.eqs[p.1], table) then [p] else []
  }

  /** A first-seen table with the pairs it adds and the pairs it records. */
  function Advance(s: State, id: string, hits: seq<IdPair>, kept: seq<IdPair>): State
  {
    State(s.covered + Elements(hits), s.seen + {id}, s.tablesFound + 1, s.newTotal + |hits|, s.recoveries + kept)
  }

  lemma NewPairsAreFalse(pb: Problem, table: Table, covered: set<IdPair>)
    requires WellPosed(pb) && FullRows(table)
    ensures AllFalse(pb, NewPairs(pb, covered, table))
  {
    var hits := NewPairs(pb, covered, table);
    forall k | 0 <= k < |hits| ensures hits[k] in pb.falsePairs {
      assert hits[k] in hits;
    }
  }

  ghost function Step(pb: Problem, s: State, table: Table): State
    requires WellPosed(pb) && FullRows(table)
  {
    if pb.hash(table) in s.seen then s
    else
      var hits := NewPairs(pb, s.covered, table);
      NewPairsAreFalse(pb, table, s.covered);
      Advance(s, pb.hash(table), hits, Recorded(pb, table, hits))
  }

  /** The list of newly refuted pairs stands for the set of them. */
  lemma NewPairsAreGain(pb: Problem, table: Table, covered: set<IdPair>)
    requires WellPosed(pb) && FullRows(table)
    ensures var hits, g := NewPairs(pb, covered, table), Certified(pb, table) - covered;
            NoDuplicates(hits) && |hits| == |g| && Elements(hits) == g
  {
    var g := Certified(pb, table) - covered;
    DistinctSize(Where(g, |pb.eqs|, |pb.eqs|), g);
  }

  lemma AdvanceByNothing(s: State, id: string)
    ensures Advance(s, id, [], []) == State(s.covered, s.seen + {id}, s.tablesFound + 1, s.newTotal, s.recoveries)
  {
    assert s.covered + Elements([]) == s.covered;
    assert s.recoveries + [] == s.recoveries;
  }

  /** The outer product of the two truth vectors, on the uncovered FALSE pairs. */
  function CertMask(falsePairs: set<IdPair>, sat: seq<bool>, viol: seq<bool>, covered: set<IdPair>): set<IdPair>
  {
    set p | p in falsePairs && p.0 < |sat| && p.1 < |viol| && sat[p.0] && viol[p.1] && p !in covered
  }

  lemma CertMaskIsGain(pb: Problem, table: Table, sat: seq<bool>, viol: seq<bool>, covered: set<IdPair>)
    requires WellPosed(pb) && FullRows(table) && |sat| == |viol| == |pb.eqs|
    requires forall i :: 0 <= i < |pb.eqs| ==>
               (sat[i] <==> Satisfies(pb.eqs[i], table)) && (viol[i] <==> !Satisfies(pb.eqs[i], table))
    ensures CertMask(pb.falsePairs, sat, viol, covered) == Certified(pb, table) - covered
  {
  }

  /** `kept` are the countermodels among `hits`, each once. */
  ghost predicate KeepsCountermodels(pb: Problem, table: Table, hits: seq<IdPair>, kept: seq<IdPair>)
    requires WellPosed(pb) && FullRows(table) && AllFalse(pb, hits)
  {
    && NoDuplicates(kept)
    && (forall p :: p in kept ==> p in hits)
    && (forall p :: p in hits ==> (p in kept <==> Countermodel(pb.eqs[p.0], pb.eqs[p.1], table)))
  }

  lemma KeepsOneMore(pb: Problem, table: Table, hits: seq<IdPair>, kept: seq<IdPair>, p: IdPair)
    requires WellPosed(pb) && FullRows(table) && AllFalse(pb, hits) && KeepsCountermodels(pb, table, hits, kept)
    requires p in pb.falsePairs && p !in hits
    ensures AllFalse(pb, hits + [p])
    ensures KeepsCountermodels(pb, table, hits + [p],
                               kept + if Countermodel(pb.eqs[p.0], pb.eqs[p.1], table) then [p] else [])
  {
    assert p !in kept;
    NoDuplicatesSnoc(kept, p);
  }

  lemma {:induction false} RecordedExactly(pb: Problem, table: Table, hits: seq<IdPair>)
    requires WellPosed(pb) && FullRows(table) && AllFalse(pb, hits) && NoDuplicates(hits)
    ensures KeepsCountermodels(pb, table, hits, Recorded(pb, table, hits))
  {
    if hits == [] {
    } else {
      var n := |hits| - 1;
      RecordedExactly(pb, table, hits[..n]);
      assert hits == hits[..n] + [hits[n]] && hits[n] !in hits[..n];
      KeepsOneMore(pb, table, hits[..n], Recorded(pb, table, hits[..n]), hits[n]);
    }
  }

  class Replayer {
    const pb: Problem
    var covered: set<IdPair>
    var seen: set<string>
    var tablesFound: nat
    var newTotal: nat
    var recoveries: seq<IdPair>

    ghost function Now(): State
      reads this
    {
      State(covered, seen, tablesFound, newTotal, recoveries)
    }

    constructor (pb: Problem, start: set<IdPair>)
      ensures this.pb == pb && Now() == State(start, {}, 0, 0, [])
    {
      this.pb := pb;
      covered, seen, tablesFound, newTotal, recoveries := start, {}, 0, 0, [];
    }

    /** The newly refuted FALSE pairs, in row-major order. */
    method NewHits(table: Table) returns (hits: seq<IdPair>)
      requires WellPosed(pb) && FullRows(table)
      ensures hits == NewPairs(pb, covered, table) && RowMajor(hits)
    {
      var sat, viol := TableTruthVectors(pb.eqs, table);
      var cert := CertMask(pb.falsePairs, sat, viol, covered);
      CertMaskIsGain(pb, table, sat, viol, covered);
      hits := Where(cert, |pb.eqs|, |pb.eqs|);
      WhereAscends(cert, |pb.eqs|, |pb.eqs|);
    }

    /** The recoveries loop: a pair that fails the pairwise checker is skipped. */
    method RecordRecoveries(hits: seq<IdPair>, table: Table)
      requires WellPosed(pb) && FullRows(table) && AllFalse(pb, hits)
      modifies this`recoveries
      ensures recoveries == old(recoveries) + Recorded(pb, table, hits)
    {
      for k := 0 to |hits|
        invariant recoveries == old(recoveries) + Recorded(pb, table, hits[..k])
      {
        assert hits[..k + 1][..k] == hits[..k];
        var p := hits[k];
        var ok, _ := ValidateCountermodel(pb.eqs[p.0], pb.eqs[p.1], table);
        if !ok { continue; }
        recoveries := recoveries + [p];
      }
      assert hits[..|hits|] == hits;
    }

    /** The part of a replay that runs once per table id. */
    method ReplayFirst(table: Table, h: string) returns (newCount: nat)
      requires WellPosed(pb) && FullRows(table)
      modifies this
      ensures var hits := NewPairs(pb, old(covered), table);
              AllFalse(pb, hits) && Now() == Advance(old(Now()), h, hits, Recorded(pb, table, hits))
      ensures newCount == |NewPairs(pb, old(covered), table)|
    {
      seen := seen + {h};
      tablesFound := tablesFound + 1;
      var hits := NewHits(table);
      newCount := |hits|;
      NewPairsAreFalse(pb, table, covered);
      if newCount > 0 {
        covered := covered + Elements(hits);
        newTotal := newTotal + newCount;
        RecordRecoveries(hits, table);
      } else {
        assert hits == [];
        AdvanceByNothing(old(Now()), h);
      }
    }

    /** `replay_sat_table`, on any table whose rows can be indexed. */
    method ReplaySatTable(table: Table) returns (newCount: nat)
      requires WellPosed(pb) && FullRows(table)
      modifies this
      ensures Now() == Step(pb, old(Now()), table)
      ensures newCount == |Gained(pb, old(Now()), table)|
    {
      var h := pb.hash(table);
      if h in seen { return 0; }
      NewPairsAreGain(pb, table, covered);
      NewPairsAreFalse(pb, table, covered);
      newCount := ReplayFirst(table, h);
    }
  }

  // --------------------------------------------------------------------- runs

  ghost function Run(pb: Problem, start: set<IdPair>, tables: seq<Table>): State
    requires WellPosed(pb) && forall i :: 0 <= i < |tables| ==> FullRows(tables[i])
  {
    if tables == [] then State(start, {}, 0, 0, [])
    else Step(pb, Run(pb, start, tables[..|tables| - 1]), tables[|tables| - 1])
  }

  /** Every table whose id has been seen has had all its pairs covered. */
  ghost predicate SeenIsCovered(pb: Problem, s: State)
    requires WellPosed(pb)
  {
    forall t :: FullRows(t) && pb.hash(t) in s.seen ==> Certified(pb, t) <= s.covered
  }

  lemma StepAdds(pb: Problem, s: State, table: Table)
    requires WellPosed(pb) && FullRows(table)
    ensures Step(pb, s, table).covered == s.covered + Gained(pb, s, table)
    ensures Step(pb, s, table).seen == s.seen + {pb.hash(table)}
  {
    var after := Step(pb, s, table);
    if pb.hash(table) in s.seen {
      assert after == s;
    } else {
      NewPairsAreGain(pb, table, s.covered);
      assert after.covered == s.covered + Elements(NewPairs(pb, s.covered, table));
    }
  }

  lemma SeenCoveredAfter(pb: Problem, s: State, s': State, table: Table)
    requires WellPosed(pb) && InjectiveId(pb) && FullRows(table) && SeenIsCovered(pb, s)
    requires s'.covered == s.covered + Gained(pb, s, table) && s'.seen == s.seen + {pb.hash(table)}
    ensures SeenIsCovered(pb, s') && s'.covered == s.covered + Certified(pb, table)
  {
    forall t | FullRows(t) && pb.hash(t) in s'.seen ensures Certified(pb, t) <= s'.covered {
      if pb.hash(t) !in s.seen {
        assert t == table;
      }
    }
  }

  lemma StepKeepsSeenCovered(pb: Problem, s: State, table: Table)
    requires WellPosed(pb) && InjectiveId(pb) && FullRows(table) && SeenIsCovered(pb, s)
    ensures SeenIsCovered(pb, Step(pb, s, table))
    ensures Step(pb, s, table).covered == s.covered + Certified(pb, table)
    ensures pb.hash(table) in Step(pb, s, table).seen
  {
    StepAdds(pb, s, table);
    SeenCoveredAfter(pb, s, Step(pb, s, table), table);
  }

  /** All FALSE pairs some table of the run refutes. */
  ghost function CertifiedByAny(pb: Problem, tables: seq<Table>): set<IdPair>
    requires WellPosed(pb) && forall i :: 0 <= i < |tables| ==> FullRows(tables[i])
  {
    set p | p in pb.falsePairs && exists i :: 0 <= i < |tables| && Certifies(pb, tables[i], p)
  }

  lemma CertifiedByOneMore(pb: Problem, tables: seq<Table>)
    requires WellPosed(pb) && tables != [] && forall i :: 0 <= i < |tables| ==> FullRows(tables[i])
    ensures CertifiedByAny(pb, tables) ==
            CertifiedByAny(pb, tables[..|tables| - 1]) + Certified(pb, tables[|tables| - 1])
  {
    var n := |tables| - 1;
    forall p | p in CertifiedByAny(pb, tables)
      ensures p in CertifiedByAny(pb, tables[..n]) + Certified(pb, tables[n])
    {
      var i :| 0 <= i < |tables| && Certifies(pb, tables[i], p);
      if i < n { assert tables[..n][i] == tables[i]; }
    }
    forall p | p in CertifiedByAny(pb, tables[..n]) ensures p in CertifiedByAny(pb, tables) {
      var i :| 0 <= i < n && Certifies(pb, tables[..n][i], p);
      assert Certifies(pb, tables[i], p);
    }
    forall p | p in Certified(pb, tables[n]) ensures p in CertifiedByAny(pb, tables) {
      assert Certifies(pb, tables[n], p);
    }
  }

  /** The counter is the growth of the mask, and only new pairs are recorded, each once. */
  ghost predicate GrowthExact(start: set<IdPair>, s: State)
  {
    && start <= s.covered
    && s.newTotal == |s.covered - start|
    && NoDuplicates(s.recoveries)
    && forall p :: p in s.recoveries ==> p in s.covered - start
  }

  /** The counter, the recovery list and the growth of the mask are one and the same. */
  ghost predicate CountsExact(start: set<IdPair>, s: State)
  {
    && GrowthExact(start, s)
    && s.newTotal == |s.recoveries|
    && forall p :: p in s.covered - start ==> p in s.recoveries
  }

  lemma AdvanceKeepsGrowth(start: set<IdPair>, s: State, id: string, hits: seq<IdPair>, kept: seq<IdPair>)
    requires GrowthExact(start, s) && NoDuplicates(hits) && NoDuplicates(kept)
    requires (forall p :: p in hits ==> p !in s.covered) && forall p :: p in kept ==> p in hits
    ensures GrowthExact(start, Advance(s, id, hits, kept))
  {
    var g := Elements(hits);
    DistinctSize(hits, g);
    AppendDistinct(s.recoveries, kept);
    assert s.covered + g - start == (s.covered - start) + g;
  }

  lemma AdvanceKeepsCounts(start: set<IdPair>, s: State, id: string, hits: seq<IdPair>, kept: seq<IdPair>)
    requires CountsExact(start, s) && NoDuplicates(hits) && NoDuplicates(kept)
    requires (forall p :: p in hits ==> p !in s.covered) && forall p :: p in kept ==> p in hits
    ensures CountsExact(start, Advance(s, id, hits, kept)) <==> forall p :: p in hits ==> p in kept
  {
    AdvanceKeepsGrowth(start, s, id, hits, kept);
    var after := Advance(s, id, hits, kept);
    if forall p :: p in hits ==> p in kept {
      DistinctSize(kept, Elements(hits));
      DistinctSize(hits, Elements(hits));
    } else {
      var p :| p in hits && p !in kept;
      assert p in after.covered - start && p !in after.recoveries;
    }
  }

  lemma StepKeepsGrowth(pb: Problem, start: set<IdPair>, s: State, table: Table)
    requires WellPosed(pb) && FullRows(table) && GrowthExact(start, s)
    ensures GrowthExact(start, Step(pb, s, table))
  {
    if pb.hash(table) !in s.seen {
      var hits := NewPairs(pb, s.covered, table);
      NewPairsAreGain(pb, table, s.covered);
      NewPairsAreFalse(pb, table, s.covered);
      RecordedExactly(pb, table, hits);
      AdvanceKeepsGrowth(start, s, pb.hash(table), hits, Recorded(pb, table, hits));
    }
  }

  /** One replay keeps the counts equal exactly when the pairwise checker accepts every pair the
      truth vectors add. */
  lemma StepKeepsCounts(pb: Problem, start: set<IdPair>, s: State, table: Table)
    requires WellPosed(pb) && FullRows(table) && CountsExact(start, s)
    ensures CountsExact(start, Step(pb, s, table)) <==>
            forall p :: p in Gained(pb, s, table) ==> Countermodel(pb.eqs[p.0], pb.eqs[p.1], table)
  {
    if pb.hash(table) !in s.seen {
      var hits := NewPairs(pb, s.covered, table);
      NewPairsAreGain(pb, table, s.covered);
      NewPairsAreFalse(pb, table, s.covered);
      assert forall p :: p in hits <==> p in Elements(hits);
      RecordedExactly(pb, table, hits);
      AdvanceKeepsCounts(start, s, pb.hash(table), hits, Recorded(pb, table, hits));
    }
  }

  /** It does on every table whose cells lie in the carrier. */
  lemma WellFormedKeepsCounts(pb: Problem, start: set<IdPair>, s: State, table: Table)
    requires WellPosed(pb) && WellFormed(table) && CountsExact(start, s)
    ensures CountsExact(start, Step(pb, s, table))
  {
    StepKeepsCounts(pb, start, s, table);
    forall p | p in Gained(pb, s, table) ensures Countermodel(pb.eqs[p.0], pb.eqs[p.1], table) {
      CheckersAgree(pb.eqs[p.1], table);
    }
  }

  lemma LostPair(pb: Problem, table: Table)
    requires WellPosed(pb) && FullRows(table) && (0, 1) in pb.falsePairs
    requires Satisfies(pb.eqs[0], table) && !Satisfies(pb.eqs[1], table) && !Violates(pb.eqs[1], table)
    ensures !CountsExact({}, Step(pb, EMPTY, table))
  {
    assert (0, 1) in Gained(pb, EMPTY, table) && !Countermodel(pb.eqs[0], pb.eqs[1], table);
    StepKeepsCounts(pb, {}, EMPTY, table);
  }

  /** Elsewhere the recoveries can lag behind the counter: on a table with a cell outside the
      carrier a pair is counted as new, and no run recovers it. */
  lemma RecoveriesCanLag() returns (pb: Problem, table: Table)
    ensures WellPosed(pb) && FullRows(table) && CountsExact({}, EMPTY)
    ensures !CountsExact({}, Step(pb, EMPTY, table))
  {
    CheckersDisagree();
    var eq;
    eq, table :| FullRows(table) && !Satisfies(eq, table) && !Violates(eq, table);
    var x := Equation(Var("x"), Var("x"));
    pb := Problem([x, eq], {(0, 1)}, t => "");
    assert Satisfies(x, table);
    LostPair(pb, table);
  }

  ghost predicate HasId(pb: Problem, tables: seq<Table>, id: string)
  {
    exists i :: 0 <= i < |tables| && pb.hash(tables[i]) == id
  }

  /** The ids seen are those of the tables, and each id counts once. */
  ghost predicate SeenExact(pb: Problem, tables: seq<Table>, s: State)
  {
    && s.tablesFound == |s.seen|
    && (forall i :: 0 <= i < |tables| ==> pb.hash(tables[i]) in s.seen)
    && forall id :: id in s.seen ==> HasId(pb, tables, id)
  }

  /** Over every run: the mask is the starting mask joined with all FALSE pairs refuted by any
      table replayed, and the counter is its growth; on tables whose cells lie in the carrier the
      recoveries are the new pairs too. */
  ghost predicate RunOk(pb: Problem, start: set<IdPair>, tables: seq<Table>, s: State)
    requires WellPosed(pb) && forall i :: 0 <= i < |tables| ==> FullRows(tables[i])
  {
    && s.covered == start + CertifiedByAny(pb, tables)
    && GrowthExact(start, s) && SeenIsCovered(pb, s) && SeenExact(pb, tables, s)
    && ((forall i :: 0 <= i < |tables| ==> WellFormed(tables[i])) ==> CountsExact(start, s))
  }

  lemma SeenStep(pb: Problem, tables: seq<Table>, n: nat, s: State)
    requires WellPosed(pb) && |tables| == n + 1 && FullRows(tables[n]) && SeenExact(pb, tables[..n], s)
    ensures SeenExact(pb, tables, Step(pb, s, tables[n]))
  {
    StepAdds(pb, s, tables[n]);
    var next := Step(pb, s, tables[n]);
    forall i | 0 <= i < |tables| ensures pb.hash(tables[i]) in next.seen {
      if i < n { assert tables[..n][i] == tables[i]; }
    }
    forall id | id in next.seen ensures HasId(pb, tables, id) {
      if id in s.seen {
        assert HasId(pb, tables[..n], id);
        var i :| 0 <= i < n && pb.hash(tables[..n][i]) == id;
        assert tables[i] == tables[..n][i];
      } else {
        assert pb.hash(tables[n]) == id;
      }
    }
  }

  lemma RunOkAfter(pb: Problem, start: set<IdPair>, tables: seq<Table>, s: State, s': State)
    requires WellPosed(pb) && tables != [] && forall i :: 0 <= i < |tables| ==> FullRows(tables[i])
    requires RunOk(pb, start, tables[..|tables| - 1], s)
    requires s'.covered == s.covered + Certified(pb, tables[|tables| - 1])
    requires GrowthExact(start, s') && SeenIsCovered(pb, s') && SeenExact(pb, tables, s')
    requires WellFormed(tables[|tables| - 1]) && CountsExact(start, s) ==> CountsExact(start, s')
    ensures RunOk(pb, start, tables, s')
  {
    CertifiedByOneMore(pb, tables);
    assert forall i :: 0 <= i < |tables| - 1 ==> tables[..|tables| - 1][i] == tables[i];
  }

  lemma RunOkStep(pb: Problem, start: set<IdPair>, tables: seq<Table>, n: nat, s: State)
    requires WellPosed(pb) && InjectiveId(pb) && |tables| == n + 1 && forall i :: 0 <= i < |tables| ==> FullRows(tables[i])
    requires RunOk(pb, start, tables[..n], s)
    ensures RunOk(pb, start, tables, Step(pb, s, tables[n]))
  {
    StepKeepsSeenCovered(pb, s, tables[n]);
    StepKeepsGrowth(pb, start, s, tables[n]);
    if WellFormed(tables[n]) && CountsExact(start, s) {
      WellFormedKeepsCounts(pb, start, s, tables[n]);
    }
    SeenStep(pb, tables, n, s);
    RunOkAfter(pb, start, tables, s, Step(pb, s, tables[n]));
  }

  lemma {:induction false} RunExact(pb: Problem, start: set<IdPair>, tables: seq<Table>)
    requires WellPosed(pb) && InjectiveId(pb) && forall i :: 0 <= i < |tables| ==> FullRows(tables[i])
    ensures RunOk(pb, start, tables, Run(pb, start, tables))
  {
    if tables == [] {
    } else {
      var n := |tables| - 1;
      RunExact(pb, start, tables[..n]);
      RunOkStep(pb, start, tables, n, Run(pb, start, tables[..n]));
    }
  }

  lemma ViolatedIsNotSatisfied(eq: Equation, table: Table)
    requires FullRows(table) && Violates(eq, table)
    ensures !Satisfies(eq, table)
  {
    var env :| Assignment(eq, table, env) && Separates(eq, table, env);
    assert !Agrees(eq, table, env);
  }

  /** When every seen table has been exhausted, a countermodel of an uncovered FALSE pair is new. */
  lemma UncoveredIsGained(pb: Problem, s: State, table: Table, p: IdPair)
    requires WellPosed(pb) && SeenIsCovered(pb, s) && FullRows(table)
    requires p in pb.falsePairs && p !in s.covered && Countermodel(pb.eqs[p.0], pb.eqs[p.1], table)
    ensures p in Gained(pb, s, table) && |Gained(pb, s, table)| > 0 && p in Step(pb, s, table).covered
  {
    ViolatedIsNotSatisfied(pb.eqs[p.1], table);
    assert p in Certified(pb, table);
    assert p in Gained(pb, s, table);
    NewPairsAreGain(pb, table, s.covered);
  }

  /** A countermodel of an uncovered FALSE pair always covers it, so "pair-valid global-new=0"
      is never the outcome of a replay. */
  lemma ValidTableAlwaysCovers(pb: Problem, start: set<IdPair>, tables: seq<Table>, table: Table, p: IdPair)
    requires WellPosed(pb) && InjectiveId(pb) && forall i :: 0 <= i < |tables| ==> FullRows(tables[i])
    requires FullRows(table) && p in pb.falsePairs && p !in Run(pb, start, tables).covered
    requires Countermodel(pb.eqs[p.0], pb.eqs[p.1], table)
    ensures var s := Run(pb, start, tables);
            p in Gained(pb, s, table) && |Gained(pb, s, table)| > 0 && p in Step(pb, s, table).covered
  {
    RunExact(pb, start, tables);
    UncoveredIsGained(pb, Run(pb, start, tables), table, p);
  }
}
