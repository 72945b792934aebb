/** Greedy route selection: a column is the set of rows it recovers, a mask the rows recovered so far. */
module Greedy {
  import opened Orders
  import opened Products

  type Mask = set<nat>

  datatype Matrix = Matrix(rows: nat, cols: seq<Mask>)

  ghost predicate Shaped(m: Matrix)
  {
    forall c, r :: 0 <= c < |m.cols| && r in m.cols[c] ==> r < m.rows
  }

  /** The rows some selected column recovers. */
  function Cover(cols: seq<Mask>, sel: seq<nat>): Mask
    requires forall i :: 0 <= i < |sel| ==> sel[i] < |cols|
  {
    if sel == [] then {} else Cover(cols, sel[..|sel| - 1]) + cols[sel[|sel| - 1]]
  }

  function Gain(cols: seq<Mask>, c: nat, recovered: Mask): nat
    requires c < |cols|
  {
    |cols[c] - recovered|
  }

  ghost predicate Inside(cols: seq<Mask>, sel: seq<nat>)
  {
    forall i :: 0 <= i < |sel| ==> sel[i] < |cols|
  }

  predicate Beats(cols: seq<Mask>, recovered: Mask, c: nat, j: nat)
    requires c < |cols| && j < |cols|
  {
    Gain(cols, j, recovered) < Gain(cols, c, recovered) || (Gain(cols, j, recovered) == Gain(cols, c, recovered) && c <= j)
  }

  /** `c` is the free column with the largest gain, the first of them on a tie. */
  ghost predicate Best(cols: seq<Mask>, taken: seq<nat>, recovered: Mask, c: nat)
  {
    && c < |cols| && c !in taken
    && forall j: nat :: j < |cols| && j !in taken ==> Beats(cols, recovered, c, j)
  }

  /** The mask before step `t`. */
  ghost function MaskAt(cols: seq<Mask>, start: Mask, sel: seq<nat>, t: nat): Mask
    requires Inside(cols, sel) && t <= |sel|
  {
    start + Cover(cols, sel[..t])
  }

  /** Every step of the selection takes the best free column. */
  ghost predicate GreedyRun(cols: seq<Mask>, start: Mask, sel: seq<nat>)
  {
    Inside(cols, sel) &&
    forall t :: 0 <= t < |sel| ==> Best(cols, sel[..t], MaskAt(cols, start, sel, t), sel[t])
  }

  datatype RouteRow = RouteRow(step: nat, column: nat, gain: int, recoveredAfter: nat, residualsAfter: int)

  /** The row logged at step `t`. */
  ghost function RowAt(m: Matrix, start: Mask, sel: seq<nat>, t: nat): RouteRow
    requires Inside(m.cols, sel) && t < |sel|
  {
    var after := MaskAt(m.cols, start, sel, t + 1);
    RouteRow(t, sel[t], Gain(m.cols, sel[t], MaskAt(m.cols, start, sel, t)), |after|, m.rows - |after|)
  }

  function Steps(budget: int, columns: nat): nat
  {
    if budget <= 0 then 0 else if budget < columns then budget else columns
  }

  lemma CoverSnoc(cols: seq<Mask>, sel: seq<nat>, c: nat)
    requires Inside(cols, sel) && c < |cols|
    ensures Inside(cols, sel + [c]) && Cover(cols, sel + [c]) == Cover(cols, sel) + cols[c]
  {
    assert (sel + [c])[..|sel|] == sel;
  }

  ghost predicate SameColumns(unavailable: set<nat>, taken: seq<nat>)
  {
    forall c :: c in unavailable <==> c in taken
  }

  lemma OneMoreColumn(unavailable: set<nat>, taken: seq<nat>, c: nat)
    requires SameColumns(unavailable, taken)
    ensures SameColumns(unavailable + {c}, taken + [c])
  {
  }

  /** The inner loop: the key (gain, -index) is maximised over the free columns. */
  method PickBest(cols: seq<Mask>, unavailable: set<nat>, recovered: Mask, ghost taken: seq<nat>)
    returns (bestIdx: int, bestGain: int)
    requires SameColumns(unavailable, taken)
    ensures bestIdx < 0 <==> forall j: nat :: j < |cols| ==> j in taken
    ensures bestIdx >= 0 ==> Best(cols, taken, recovered, bestIdx) && bestGain == Gain(cols, bestIdx, recovered)
  {
    bestIdx, bestGain := -1, -1;
    for idx := 0 to |cols|
      invariant bestIdx < |cols|
      invariant bestIdx < 0 ==> bestIdx == -1 && bestGain == -1 && forall j: nat :: j < idx ==> j in taken
      invariant bestIdx >= 0 ==> bestIdx < idx && bestIdx !in unavailable && bestGain == Gain(cols, bestIdx, recovered)
      invariant bestIdx >= 0 ==> forall j: nat :: j < idx && j !in taken ==> Beats(cols, recovered, bestIdx, j)
    {
      if idx in unavailable { continue; }
      var gain := Gain(cols, idx, recovered);
      var bestKey := if bestIdx >= 0 then -bestIdx else 0;
      if gain > bestGain || (gain == bestGain && -idx > bestKey) {
        bestIdx, bestGain := idx, gain;
      }
    }
  }

  /** A route as logged: greedy steps, the mask they reach from `start`, and one row per step. */
  ghost predicate RouteState(m: Matrix, start: Mask, sel: seq<nat>, recovered: Mask, rows: seq<RouteRow>)
  {
    && GreedyRun(m.cols, start, sel)
    && recovered == start + Cover(m.cols, sel)
    && |rows| == |sel| && forall t :: 0 <= t < |rows| ==> rows[t] == RowAt(m, start, sel, t)
  }

  lemma GreedySnoc(m: Matrix, start: Mask, sel: seq<nat>, c: nat)
    requires GreedyRun(m.cols, start, sel) && Best(m.cols, sel, start + Cover(m.cols, sel), c)
    ensures var longer := sel + [c];
            && GreedyRun(m.cols, start, longer)
            && start + Cover(m.cols, longer) == start + Cover(m.cols, sel) + m.cols[c]
            && MaskAt(m.cols, start, longer, |sel|) == start + Cover(m.cols, sel)
            && MaskAt(m.cols, start, longer, |longer|) == start + Cover(m.cols, longer)
            && forall t :: 0 <= t < |sel| ==> RowAt(m, start, longer, t) == RowAt(m, start, sel, t)
  {
    var longer := sel + [c];
    CoverSnoc(m.cols, sel, c);
    assert longer[..|longer|] == longer && longer[..|sel|] == sel;
    forall t | 0 <= t < |longer|
      ensures Best(m.cols, longer[..t], MaskAt(m.cols, start, longer, t), longer[t])
      ensures t < |sel| ==> RowAt(m, start, longer, t) == RowAt(m, start, sel, t)
    {
      if t < |sel| {
        assert longer[..t] == sel[..t] && longer[..t + 1] == sel[..t + 1];
        assert Best(m.cols, sel[..t], MaskAt(m.cols, start, sel, t), sel[t]);
      }
    }
  }

  lemma GreedyDistinct(cols: seq<Mask>, start: Mask, sel: seq<nat>)
    requires GreedyRun(cols, start, sel)
    ensures NoDuplicates(sel)
  {
    forall i, j | 0 <= i < j < |sel| ensures sel[i] != sel[j] {
      assert Best(cols, sel[..j], MaskAt(cols, start, sel, j), sel[j]);
      assert sel[..j][i] == sel[i];
    }
  }

  lemma GreedyFits(cols: seq<Mask>, start: Mask, sel: seq<nat>)
    requires GreedyRun(cols, start, sel)
    ensures |sel| <= |cols|
  {
    GreedyDistinct(cols, start, sel);
    DistinctBelow(sel, |cols|);
  }

  lemma RouteAdvances(m: Matrix, start: Mask, sel: seq<nat>, recovered: Mask, rows: seq<RouteRow>, c: nat)
    requires RouteState(m, start, sel, recovered, rows) && Best(m.cols, sel, recovered, c)
    ensures |sel| < |m.cols|
    ensures var after := recovered + m.cols[c];
            RouteState(m, start, sel + [c], after,
                       rows + [RouteRow(|sel|, c, Gain(m.cols, c, recovered), |after|, m.rows - |after|)])
  {
    GreedySnoc(m, start, sel, c);
    GreedyFits(m.cols, start, sel + [c]);
  }

  /** The bookkeeping of one step: select the column, widen the mask, log the row. */
  method TakeColumn(m: Matrix, ghost start: Mask, sel: seq<nat>, mask: Mask, log: seq<RouteRow>, c: nat, gain: int)
    returns (selected: seq<nat>, recovered: Mask, rows: seq<RouteRow>)
    requires RouteState(m, start, sel, mask, log) && Best(m.cols, sel, mask, c) && gain == Gain(m.cols, c, mask)
    ensures RouteState(m, start, selected, recovered, rows)
    ensures selected == sel + [c] && |selected| <= |m.cols|
  {
    RouteAdvances(m, start, sel, mask, log, c);
    selected := sel + [c];
    recovered := mask + m.cols[c];
    rows := log + [RouteRow(|sel|, c, gain, |recovered|, m.rows - |recovered|)];
  }

  lemma RouteStarts(m: Matrix, start: Mask)
    ensures RouteState(m, start, [], start, [])
  {
    assert start + Cover(m.cols, []) == start;
  }

  function Elements(s: seq<nat>): set<int>
  {
    set x: int | x in s
  }

  lemma {:induction false} ElementsSize(s: seq<nat>)
    ensures |Elements(s)| <= |s|
  {
    if s == [] {
    } else {
      var n := |s| - 1;
      assert s == s[..n] + [s[n]];
      ElementsSize(s[..n]);
      assert Elements(s) == Elements(s[..n]) + {s[n]};
    }
  }

  /** When no free column is left, every column has been taken. */
  lemma AllTaken(cols: seq<Mask>, start: Mask, sel: seq<nat>)
    requires GreedyRun(cols, start, sel) && forall j: nat :: j < |cols| ==> j in sel
    ensures |sel| == |cols|
  {
    GreedyFits(cols, start, sel);
    var all := Range(|cols|);
    forall i | 0 <= i < |all| ensures all[i] in Elements(sel) {
      var j: nat := all[i];
    }
    DistinctInSet(all, Elements(sel));
    ElementsSize(sel);
  }

  lemma RouteIsFull(m: Matrix, start: Mask, sel: seq<nat>, recovered: Mask, rows: seq<RouteRow>)
    requires RouteState(m, start, sel, recovered, rows) && forall j: nat :: j < |m.cols| ==> j in sel
    ensures |sel| == |m.cols|
  {
    AllTaken(m.cols, start, sel);
  }

  /** `_select_route`, from an empty mask (`greedy_route`) or a given one (`residual_marginal_repair`). */
  method SelectRoute(m: Matrix, budget: int, start: Mask)
    returns (selected: seq<nat>, recovered: Mask, rows: seq<RouteRow>)
    ensures RouteState(m, start, selected, recovered, rows)
    ensures |selected| == Steps(budget, |m.cols|)
  {
    selected, recovered, rows := [], start, [];
    var unavailable: set<nat> := {};
    var limit := if budget < 0 then 0 else budget;
    RouteStarts(m, start);
    var step := 0;
    while step < limit
      invariant 0 <= step <= limit && |selected| == step <= |m.cols|
      invariant SameColumns(unavailable, selected)
      invariant RouteState(m, start, selected, recovered, rows)
    {
      var bestIdx, bestGain := PickBest(m.cols, unavailable, recovered, selected);
      if bestIdx < 0 {
        RouteIsFull(m, start, selected, recovered, rows);
        break;
      }
      OneMoreColumn(unavailable, selected, bestIdx);
      unavailable := unavailable + {bestIdx};
      selected, recovered, rows := TakeColumn(m, start, selected, recovered, rows, bestIdx, bestGain);
      step := step + 1;
      if bestGain <= 0 && |selected| >= limit { break; }
    }
  }

  // ------------------------------------------------------ what greedy guarantees

  lemma BestIsUnique(cols: seq<Mask>, taken: seq<nat>, mask: Mask, c: nat, d: nat)
    requires Best(cols, taken, mask, c) && Best(cols, taken, mask, d)
    ensures c == d
  {
    assert Beats(cols, mask, c, d) && Beats(cols, mask, d, c);
  }

  lemma GreedyPrefix(cols: seq<Mask>, start: Mask, sel: seq<nat>, n: nat)
    requires GreedyRun(cols, start, sel) && n <= |sel|
    ensures GreedyRun(cols, start, sel[..n])
  {
    forall t | 0 <= t < n
      ensures Best(cols, sel[..n][..t], MaskAt(cols, start, sel[..n], t), sel[..n][t])
    {
      assert sel[..n][..t] == sel[..t];
      assert Best(cols, sel[..t], MaskAt(cols, start, sel, t), sel[t]);
    }
  }

  /** A selection is determined by the matrix and the starting mask, so the route for a smaller
      budget is a prefix of the route for a larger one. */
  lemma {:induction false} GreedyUnique(cols: seq<Mask>, start: Mask, sel: seq<nat>, other: seq<nat>)
    requires GreedyRun(cols, start, sel) && GreedyRun(cols, start, other) && |sel| <= |other|
    ensures sel == other[..|sel|]
  {
    if sel == [] {
    } else {
      var n := |sel| - 1;
      GreedyPrefix(cols, start, sel, n);
      GreedyUnique(cols, start, sel[..n], other);
      assert Best(cols, sel[..n], MaskAt(cols, start, sel, n), sel[n]);
      assert Best(cols, other[..n], MaskAt(cols, start, other, n), other[n]);
      BestIsUnique(cols, sel[..n], MaskAt(cols, start, sel, n), sel[n], other[n]);
      assert sel == sel[..n] + [sel[n]];
    }
  }

  /** The gain of step `t`. */
  ghost function StepGain(cols: seq<Mask>, start: Mask, sel: seq<nat>, t: nat): nat
    requires Inside(cols, sel) && t < |sel|
  {
    Gain(cols, sel[t], MaskAt(cols, start, sel, t))
  }

  lemma MaskStep(cols: seq<Mask>, start: Mask, sel: seq<nat>, t: nat)
    requires Inside(cols, sel) && t < |sel|
    ensures MaskAt(cols, start, sel, t + 1) == MaskAt(cols, start, sel, t) + cols[sel[t]]
    ensures |MaskAt(cols, start, sel, t + 1)| == |MaskAt(cols, start, sel, t)| + StepGain(cols, start, sel, t)
  {
    assert sel[..t + 1] == sel[..t] + [sel[t]];
    CoverSnoc(cols, sel[..t], sel[t]);
    var before, c := MaskAt(cols, start, sel, t), cols[sel[t]];
    assert before + c == before + (c - before);
  }

  lemma SubsetSize<T>(a: set<T>, b: set<T>)
    requires a <= b
    ensures |a| <= |b|
  {
    assert b == a + (b - a);
  }

  lemma SmallerGain(cols: seq<Mask>, c: nat, mask: Mask, more: Mask)
    requires c < |cols| && mask <= more
    ensures Gain(cols, c, more) <= Gain(cols, c, mask)
  {
    SubsetSize(cols[c] - more, cols[c] - mask);
  }

  /** Marginal gains never increase. */
  lemma GainsNeverIncrease(cols: seq<Mask>, start: Mask, sel: seq<nat>, t: nat)
    requires GreedyRun(cols, start, sel) && t + 1 < |sel|
    ensures StepGain(cols, start, sel, t + 1) <= StepGain(cols, start, sel, t)
  {
    MaskStep(cols, start, sel, t);
    var mask, c, d := MaskAt(cols, start, sel, t), sel[t], sel[t + 1];
    assert Best(cols, sel[..t], mask, c);
    assert Best(cols, sel[..t + 1], MaskAt(cols, start, sel, t + 1), d);
    assert sel[..t + 1] == sel[..t] + [c];
    assert d !in sel[..t];
    assert Beats(cols, mask, c, d);
    SmallerGain(cols, d, mask, MaskAt(cols, start, sel, t + 1));
  }

  ghost function GainSum(cols: seq<Mask>, start: Mask, sel: seq<nat>, t: nat): nat
    requires Inside(cols, sel) && t <= |sel|
  {
    if t == 0 then 0 else GainSum(cols, start, sel, t - 1) + StepGain(cols, start, sel, t - 1)
  }

  /** The gains add up to the growth of the mask. */
  lemma {:induction false} GainsSumToGrowth(cols: seq<Mask>, start: Mask, sel: seq<nat>, t: nat)
    requires Inside(cols, sel) && t <= |sel|
    ensures |MaskAt(cols, start, sel, t)| == |start| + GainSum(cols, start, sel, t)
  {
    if t > 0 {
      GainsSumToGrowth(cols, start, sel, t - 1);
      MaskStep(cols, start, sel, t - 1);
    } else {
      assert MaskAt(cols, start, sel, 0) == start;
    }
  }

  lemma {:induction false} CoverHas(cols: seq<Mask>, sel: seq<nat>, i: nat)
    requires Inside(cols, sel) && i < |sel|
    ensures cols[sel[i]] <= Cover(cols, sel)
  {
    var n := |sel| - 1;
    if i == n {
    } else {
      CoverHas(cols, sel[..n], i);
      assert sel[..n][i] == sel[i];
    }
  }

  lemma {:induction false} CoverMember(cols: seq<Mask>, sel: seq<nat>, r: nat)
    requires Inside(cols, sel)
    ensures r in Cover(cols, sel) <==> exists i :: 0 <= i < |sel| && r in cols[sel[i]]
  {
    if sel == [] {
    } else {
      var n := |sel| - 1;
      CoverMember(cols, sel[..n], r);
      if r in Cover(cols, sel[..n]) {
        var i :| 0 <= i < n && r in cols[sel[..n][i]];
        assert r in cols[sel[i]];
      }
      if exists i :: 0 <= i < |sel| && r in cols[sel[i]] {
        var i :| 0 <= i < |sel| && r in cols[sel[i]];
        if i < n { assert r in cols[sel[..n][i]]; }
      }
    }
  }

  /** No column gains more than the step that was chosen, taken columns included. */
  lemma NoColumnGainsMore(cols: seq<Mask>, start: Mask, sel: seq<nat>, t: nat, c: nat)
    requires GreedyRun(cols, start, sel) && t < |sel| && c < |cols|
    ensures Gain(cols, c, MaskAt(cols, start, sel, t)) <= StepGain(cols, start, sel, t)
  {
    var mask := MaskAt(cols, start, sel, t);
    assert Best(cols, sel[..t], mask, sel[t]);
    if c in sel[..t] {
      var i :| 0 <= i < t && sel[..t][i] == c;
      CoverHas(cols, sel[..t], i);
      assert cols[c] - mask == {};
    } else {
      assert Beats(cols, mask, sel[t], c);
    }
  }

  lemma NothingLeft<T>(a: set<T>, b: set<T>)
    requires |a - b| == 0
    ensures a <= b
  {
    assert a - b == {};
    assert a == a * b + (a - b);
  }

  /** A zero gain means that no column can add a row any more. */
  lemma ZeroGainMeansDone(cols: seq<Mask>, start: Mask, sel: seq<nat>, t: nat, c: nat)
    requires GreedyRun(cols, start, sel) && t < |sel| && c < |cols|
    requires StepGain(cols, start, sel, t) == 0
    ensures cols[c] <= MaskAt(cols, start, sel, t)
  {
    NoColumnGainsMore(cols, start, sel, t, c);
    NothingLeft(cols[c], MaskAt(cols, start, sel, t));
  }

  /** The rows any column recovers. */
  ghost function Oracle(cols: seq<Mask>): Mask
  {
    set c, r | 0 <= c < |cols| && r in cols[c] :: r
  }

  lemma {:induction false} CoverInOracle(cols: seq<Mask>, sel: seq<nat>)
    requires Inside(cols, sel)
    ensures Cover(cols, sel) <= Oracle(cols)
  {
    if sel == [] {
    } else {
      CoverInOracle(cols, sel[..|sel| - 1]);
    }
  }

  lemma EveryColumnTaken(cols: seq<Mask>, start: Mask, sel: seq<nat>, c: nat)
    requires GreedyRun(cols, start, sel) && |sel| == |cols| && c < |cols|
    ensures c in sel
  {
    GreedyDistinct(cols, start, sel);
    DistinctBelow(sel, |cols|);
  }

  /** With a budget of at least the number of columns greedy reaches the maximum. */
  lemma EnoughBudgetReachesOracle(cols: seq<Mask>, start: Mask, sel: seq<nat>)
    requires GreedyRun(cols, start, sel) && |sel| == |cols|
    ensures start + Cover(cols, sel) == start + Oracle(cols)
  {
    CoverInOracle(cols, sel);
    forall r | r in Oracle(cols) ensures r in Cover(cols, sel) {
      var c :| 0 <= c < |cols| && r in cols[c];
      EveryColumnTaken(cols, start, sel, c);
      var i :| 0 <= i < |sel| && sel[i] == c;
      CoverHas(cols, sel, i);
    }
  }

  // ---------------------------------------------------------- the greedy bound

  /** Rows covered beyond the starting mask. */
  ghost function Covered(cols: seq<Mask>, start: Mask, sel: seq<nat>): nat
    requires Inside(cols, sel)
  {
    |Cover(cols, sel) - start|
  }

  lemma UnionSize<T>(a: set<T>, b: set<T>)
    ensures |a + b| <= |a| + |b|
  {
    assert a + b == a + (b - a);
    SubsetSize(b - a, b);
  }

  lemma OneMoreFactor(n: nat, g: nat)
    ensures (n + 1) * g == n * g + g
  {
  }

  /** What a set of columns still adds is at most the sum of its gains. */
  lemma {:induction false} AddsAtMost(cols: seq<Mask>, u: seq<nat>, mask: Mask, g: nat)
    requires Inside(cols, u) && forall i :: 0 <= i < |u| ==> Gain(cols, u[i], mask) <= g
    ensures |Cover(cols, u) - mask| <= |u| * g
  {
    if u != [] {
      var n := |u| - 1;
      AddsAtMost(cols, u[..n], mask, g);
      UnionSize(Cover(cols, u[..n]) - mask, cols[u[n]] - mask);
      assert Cover(cols, u) - mask == (Cover(cols, u[..n]) - mask) + (cols[u[n]] - mask);
      OneMoreFactor(n, g);
    } else {
      assert Cover(cols, u) - mask == {};
    }
  }

  lemma GapBeyond(cover: Mask, mask: Mask, base: Mask)
    ensures |cover - base| - |mask - base| <= |cover - mask|
  {
    var w := cover - base;
    assert w == (w * (mask - base)) + (w - mask);
    SubsetSize(w * (mask - base), mask - base);
    SubsetSize(w - mask, cover - mask);
  }

  lemma MoreFactors(a: nat, b: nat, g: nat)
    requires a <= b
    ensures a * g <= b * g
  {
    assert b * g == a * g + (b - a) * g;
  }

  /** One step closes at least a k-th of the remaining gap, counted beyond any `base` inside the
      starting mask. */
  lemma StepClosesGap(cols: seq<Mask>, start: Mask, sel: seq<nat>, t: nat, u: seq<nat>, k: nat, base: Mask)
    requires GreedyRun(cols, start, sel) && t < |sel| && Inside(cols, u) && |u| <= k && base <= start
    ensures Covered(cols, base, u) - |MaskAt(cols, start, sel, t) - base| <= k * StepGain(cols, start, sel, t)
    ensures |MaskAt(cols, start, sel, t + 1) - base| ==
            |MaskAt(cols, start, sel, t) - base| + StepGain(cols, start, sel, t)
  {
    var mask, g := MaskAt(cols, start, sel, t), StepGain(cols, start, sel, t);
    forall i | 0 <= i < |u| ensures Gain(cols, u[i], mask) <= g {
      NoColumnGainsMore(cols, start, sel, t, u[i]);
    }
    AddsAtMost(cols, u, mask, g);
    MoreFactors(|u|, k, g);
    GapBeyond(Cover(cols, u), mask, base);
    MaskStep(cols, start, sel, t);
    assert mask + cols[sel[t]] - base == (mask - base) + (cols[sel[t]] - mask);
  }

  lemma ScaleLe(c: nat, x: int, y: int)
    requires x <= y
    ensures c * x <= c * y
  {
    assert c * y == c * x + c * (y - x);
  }

  lemma Reassociate(x: int, y: int, z: int)
    ensures (x * y) * z == x * (y * z) == y * (x * z)
  {
  }

  lemma BoundStep(k: nat, t: nat, gap: int, gap': int, g: nat, total: nat)
    requires k >= 1 && gap <= k * g && gap' == gap - g
    requires Pow(k, t) * gap <= Pow(k - 1, t) * total
    ensures Pow(k, t + 1) * gap' <= Pow(k - 1, t + 1) * total
  {
    var a, b := Pow(k, t), Pow(k - 1, t);
    assert k * gap' == k * gap - k * g;
    assert (k - 1) * gap == k * gap - gap;
    assert k * gap' <= (k - 1) * gap;
    ScaleLe(a, k * gap', (k - 1) * gap);
    ScaleLe(k - 1, a * gap, b * total);
    Reassociate(k, a, gap');
    Reassociate(k - 1, a, gap);
    Reassociate(k - 1, b, total);
  }

  /** `got` of a possible `total` is within the greedy factor for `t` steps and budget `k`:
      the gap is at most total * (1 - 1/k)^t, written without division. */
  ghost predicate WithinGreedyFactor(k: nat, t: nat, total: nat, got: nat)
    requires k >= 1
  {
    Pow(k, t) * (total - got) <= Pow(k - 1, t) * total
  }

  lemma FactorStep(k: nat, t: nat, t': nat, total: nat, got: nat, got': nat, g: nat)
    requires k >= 1 && t' == t + 1 && got' == got + g && total - got <= k * g
    requires WithinGreedyFactor(k, t, total, got)
    ensures WithinGreedyFactor(k, t', total, got')
  {
    BoundStep(k, t, total - got, total - got', g, total);
  }

  lemma NothingYet(k: nat, total: nat)
    requires k >= 1
    ensures WithinGreedyFactor(k, 0, total, 0)
  {
    assert Pow(k, 0) == 1 && Pow(k - 1, 0) == 1;
  }

  /** The greedy bound in integers: after `t` steps, against every selection of at most `k`
      columns, from any starting mask. */
  lemma {:induction false} GreedyBound(cols: seq<Mask>, start: Mask, sel: seq<nat>, t: nat, u: seq<nat>, k: nat)
    requires GreedyRun(cols, start, sel) && t <= |sel|
    requires Inside(cols, u) && |u| <= k && k >= 1
    ensures WithinGreedyFactor(k, t, Covered(cols, start, u), |MaskAt(cols, start, sel, t) - start|)
  {
    var total, got := Covered(cols, start, u), |MaskAt(cols, start, sel, t) - start|;
    if t == 0 {
      assert got == 0;
      NothingYet(k, total);
    } else {
      GreedyBound(cols, start, sel, t - 1, u, k);
      StepClosesGap(cols, start, sel, t - 1, u, k, start);
      FactorStep(k, t - 1, t, total, |MaskAt(cols, start, sel, t - 1) - start|, got, StepGain(cols, start, sel, t - 1));
    }
  }

  lemma WholeMask(cols: seq<Mask>, start: Mask, sel: seq<nat>)
    requires Inside(cols, sel)
    ensures MaskAt(cols, start, sel, |sel|) == start + Cover(cols, sel)
  {
    assert sel[..|sel|] == sel;
  }

  lemma FirstPhase(cols: seq<Mask>, first: seq<nat>, start: Mask, u: seq<nat>, k: nat, total: nat, got: nat)
    requires GreedyRun(cols, {}, first) && start == Cover(cols, first)
    requires Inside(cols, u) && |u| <= k && k >= 1
    requires total == |Cover(cols, u)| && got == |start|
    ensures WithinGreedyFactor(k, |first|, total, got)
  {
    GreedyBound(cols, {}, first, |first|, u, k);
    WholeMask(cols, {}, first);
    assert Cover(cols, u) - {} == Cover(cols, u) && MaskAt(cols, {}, first, |first|) - {} == start;
  }

  lemma StepClosesAll(cols: seq<Mask>, start: Mask, sel: seq<nat>, t: nat, u: seq<nat>, k: nat)
    requires GreedyRun(cols, start, sel) && t < |sel| && Inside(cols, u) && |u| <= k
    ensures |Cover(cols, u)| - |MaskAt(cols, start, sel, t)| <= k * StepGain(cols, start, sel, t)
    ensures |MaskAt(cols, start, sel, t + 1)| == |MaskAt(cols, start, sel, t)| + StepGain(cols, start, sel, t)
  {
    StepClosesGap(cols, start, sel, t, u, k, {});
    MaskStep(cols, start, sel, t);
    assert Cover(cols, u) - {} == Cover(cols, u);
    assert MaskAt(cols, start, sel, t) - {} == MaskAt(cols, start, sel, t);
  }

  /** The bound carried on: every step of a second run, warm-started with the mask of the first,
      counts like one more step of the first. */
  lemma {:induction false} BoundContinues(cols: seq<Mask>, first: seq<nat>, start: Mask, second: seq<nat>, t: nat, u: seq<nat>, k: nat, n: nat, total: nat, got: nat)
    requires GreedyRun(cols, {}, first) && start == Cover(cols, first)
    requires GreedyRun(cols, start, second) && t <= |second| && n == |first| + t
    requires Inside(cols, u) && |u| <= k && k >= 1
    requires total == |Cover(cols, u)| && got == |MaskAt(cols, start, second, t)|
    ensures WithinGreedyFactor(k, n, total, got)
  {
    if t == 0 {
      assert MaskAt(cols, start, second, 0) == start;
      FirstPhase(cols, first, start, u, k, total, got);
    } else {
      var before, g := |MaskAt(cols, start, second, t - 1)|, StepGain(cols, start, second, t - 1);
      BoundContinues(cols, first, start, second, t - 1, u, k, n - 1, total, before);
      assert total - before <= k * g && got == before + g by {
        StepClosesAll(cols, start, second, t - 1, u, k);
      }
      FactorStep(k, n - 1, n, total, before, got, g);
    }
  }

  /** Two greedy runs, the second warm-started with the mask of the first, meet the bound for all
      their steps together, although the second may take columns of the first again. */
  lemma TwoPhaseBound(cols: seq<Mask>, first: seq<nat>, start: Mask, second: seq<nat>, end: Mask, u: seq<nat>, k: nat, n: nat)
    requires GreedyRun(cols, {}, first) && start == Cover(cols, first)
    requires GreedyRun(cols, start, second) && end == start + Cover(cols, second)
    requires Inside(cols, u) && |u| <= k && k >= 1 && n == |first| + |second|
    ensures WithinGreedyFactor(k, n, |Cover(cols, u)|, |end|)
  {
    WholeMask(cols, start, second);
    BoundContinues(cols, first, start, second, |second|, u, k, n, |Cover(cols, u)|, |end|);
  }
}
