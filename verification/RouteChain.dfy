/** The native pipeline: generic route, residual repair, lawbook reuse, compact atlas. */
module RouteChain {
  import opened Orders
  import opened Greedy

  /** `_mask`: the rows some listed column recovers. */
  function MaskOf(m: Matrix, indices: seq<nat>): Mask
    requires Inside(m.cols, indices)
  {
    if m.rows == 0 || indices == [] then {} else Cover(m.cols, indices)
  }

  lemma MaskIsCover(m: Matrix, indices: seq<nat>)
    requires Shaped(m) && Inside(m.cols, indices)
    ensures MaskOf(m, indices) == Cover(m.cols, indices)
  {
    if m.rows == 0 {
      CoverInOracle(m.cols, indices);
      assert Oracle(m.cols) == {};
    }
  }

  /** At most the first `k` elements, none when `k` is negative. */
  function Take<T>(s: seq<T>, k: int): (r: seq<T>)
    ensures r <= s && (|r| == |s| || |r| == k || k < 0) && (k >= 0 ==> |r| <= k) && (k < 0 ==> r == [])
  {
    if k <= 0 then [] else if k < |s| then s[..k] else s
  }

  /** A recommendation read from the lawbook: a number, or else a family name. */
  datatype Hint = Index(i: int) | Family(name: string)

  /** Column `x` is named by a hint, by its number or by its family. */
  predicate Hinted(hints: seq<Hint>, families: seq<string>, x: nat)
  {
    x < |families| && (Index(x) in hints || Family(families[x]) in hints)
  }

  /** The numbers among the first `k` hints, those in range, in their order. */
  ghost predicate NumbersRead(hints: seq<Hint>, families: seq<string>, k: nat, nums: seq<nat>, names: set<string>)
    requires k <= |hints|
  {
    && (forall x :: x in nums ==> x < |families| && Index(x) in hints)
    && (forall x: nat :: x < |families| && Index(x) in hints[..k] ==> x in nums)
    && (forall name :: name in names <==> Family(name) in hints[..k])
  }

  predicate Before(a: nat, b: nat)
  {
    a < b
  }

  /** The columns of the named families, in column order. */
  ghost predicate FamiliesRead(families: seq<string>, k: nat, names: set<string>, cols: seq<nat>)
    requires k <= |families|
  {
    && Ascending(cols, Before)
    && forall x: nat :: x in cols <==> x < k && families[x] in names
  }

  /** Numbers come before families, and families in column order. */
  ghost predicate NumbersFirst(hints: seq<Hint>, out: seq<nat>)
  {
    && (forall i, j :: 0 <= i < j < |out| && Index(out[j]) in hints ==> Index(out[i]) in hints)
    && (forall i, j :: 0 <= i < j < |out| && Index(out[i]) !in hints ==> out[i] < out[j])
  }

  lemma {:induction false} JoinInOrder(hints: seq<Hint>, nums: seq<nat>, cols: seq<nat>, k: nat)
    requires k <= |cols| && Ascending(cols, Before)
    requires (forall x :: x in nums ==> Index(x) in hints) && forall x :: x in cols && Index(x) in hints ==> x in nums
    ensures NumbersFirst(hints, FirstOccurrences(nums + cols[..k]))
  {
    if k == 0 {
      assert nums + cols[..0] == nums;
    } else {
      var c := cols[k - 1];
      var xs := nums + cols[..k - 1];
      JoinInOrder(hints, nums, cols, k - 1);
      assert nums + cols[..k] == xs + [c] && (xs + [c])[..|xs|] == xs;
      var r := FirstOccurrences(xs);
      if c !in xs {
        assert FirstOccurrences(xs + [c]) == r + [c];
        assert c in cols && Index(c) !in hints;
        forall i | 0 <= i < |r| && Index(r[i]) !in hints ensures r[i] < c {
          assert r[i] in r && r[i] in xs;
          var j :| 0 <= j < k - 1 && cols[j] == r[i];
          assert Before(cols[j], cols[k - 1]);
        }
      }
    }
  }

  /** All hinted columns, once each, numbers first. */
  ghost predicate AllHinted(hints: seq<Hint>, families: seq<string>, out: seq<nat>)
  {
    NoDuplicates(out) && NumbersFirst(hints, out) && forall x :: x in out <==> Hinted(hints, families, x)
  }

  lemma JoinIsHinted(hints: seq<Hint>, families: seq<string>, nums: seq<nat>, names: set<string>, cols: seq<nat>)
    requires NumbersRead(hints, families, |hints|, nums, names) && FamiliesRead(families, |families|, names, cols)
    ensures AllHinted(hints, families, FirstOccurrences(nums + cols))
  {
    assert hints[..|hints|] == hints && cols[..|cols|] == cols;
    JoinInOrder(hints, nums, cols, |cols|);
  }

  method ReadHints(hints: seq<Hint>, families: seq<string>) returns (nums: seq<nat>, names: set<string>)
    ensures NumbersRead(hints, families, |hints|, nums, names)
  {
    nums, names := [], {};
    for k := 0 to |hints|
      invariant NumbersRead(hints, families, k, nums, names)
    {
      assert hints[..k + 1] == hints[..k] + [hints[k]];
      match hints[k]
      case Index(i) =>
        if 0 <= i < |families| {
          nums := nums + [i];
        }
      case Family(name) =>
        names := names + {name};
    }
  }

  method ReadFamilies(families: seq<string>, names: set<string>) returns (cols: seq<nat>)
    ensures FamiliesRead(families, |families|, names, cols)
  {
    cols := [];
    for row := 0 to |families|
      invariant FamiliesRead(families, row, names, cols)
    {
      if families[row] in names {
        assert forall i :: 0 <= i < |cols| ==> cols[i] in cols;
        cols := cols + [row];
      }
    }
  }

  /** `_lawbook_indices`: numbers in range first, then all columns of the named families. */
  method LawbookIndices(hints: seq<Hint>, families: seq<string>, budget: int) returns (out: seq<nat>)
    ensures exists all: seq<nat> :: AllHinted(hints, families, all) && out == Take(all, budget)
    ensures forall i :: 0 <= i < |out| ==> out[i] < |families|
  {
    var nums, names := ReadHints(hints, families);
    var cols := ReadFamilies(families, names);
    var distinct := Dedup(nums + cols);
    JoinIsHinted(hints, families, nums, names, cols);
    assert forall i :: 0 <= i < |distinct| ==> distinct[i] in distinct;
    out := Take(distinct, budget);
  }

  predicate RowLess(a: RouteRow, b: RouteRow)
  {
    a.gain > b.gain || (a.gain == b.gain && a.column < b.column)
  }

  function SortRows(rows: seq<RouteRow>): (r: seq<RouteRow>)
    ensures |r| == |rows| && forall x :: x in r <==> x in rows
  {
    if rows == [] then []
    else
      assert rows == [rows[0]] + rows[1..];
      Place(rows[0], SortRows(rows[1..]), RowLess)
  }

  ghost predicate OneRowPerColumn(rows: seq<RouteRow>)
  {
    forall i, j :: 0 <= i < j < |rows| ==> rows[i].column != rows[j].column
  }

  lemma {:induction false} SortRowsAscending(rows: seq<RouteRow>)
    requires OneRowPerColumn(rows)
    ensures Ascending(SortRows(rows), RowLess)
  {
    if rows == [] {
    } else {
      SortRowsAscending(rows[1..]);
      forall y | y in SortRows(rows[1..]) ensures y.column != rows[0].column {
        var j :| 0 <= j < |rows[1..]| && rows[1..][j] == y;
        assert rows[j + 1] == y;
      }
      PlaceAscending(rows[0], SortRows(rows[1..]), RowLess);
    }
  }

  /** `_compact_indices`: the columns of the repair rows, by gain and then by index. */
  function CompactIndices(rows: seq<RouteRow>, budget: int): (out: seq<nat>)
    ensures forall i :: 0 <= i < |out| ==> exists row :: row in rows && row.column == out[i]
  {
    var sorted := Take(SortRows(rows), if budget < 1 then 1 else budget);
    assert forall i :: 0 <= i < |sorted| ==> sorted[i] in SortRows(rows);
    seq(|sorted|, i requires 0 <= i < |sorted| => sorted[i].column)
  }

  /** What is kept are the rows of largest gain, the smaller column first on a tie: no dropped
      row comes before a kept one. */
  lemma CompactKeepsBest(rows: seq<RouteRow>, budget: int) returns (kept: seq<RouteRow>)
    requires OneRowPerColumn(rows)
    ensures forall i, j :: 0 <= i < j < |kept| ==>
              kept[i].gain > kept[j].gain || (kept[i].gain == kept[j].gain && kept[i].column < kept[j].column)
    ensures |kept| == |rows| || |kept| == (if budget < 1 then 1 else budget) < |rows|
    ensures |kept| == |CompactIndices(rows, budget)|
    ensures forall i :: 0 <= i < |kept| ==> kept[i] in rows && kept[i].column == CompactIndices(rows, budget)[i]
    ensures forall row :: row in rows ==> row in kept || forall i :: 0 <= i < |kept| ==>
              kept[i].gain > row.gain || (kept[i].gain == row.gain && kept[i].column < row.column)
  {
    var all := SortRows(rows);
    SortRowsAscending(rows);
    kept := Take(all, if budget < 1 then 1 else budget);
    forall i | 0 <= i < |kept| ensures kept[i] in rows {
      assert all[i] in all;
    }
    assert forall i, j :: 0 <= i < j < |kept| ==> RowLess(all[i], all[j]);
    forall row | row in rows ensures row in kept || forall i :: 0 <= i < |kept| ==> RowLess(kept[i], row) {
      var j :| 0 <= j < |all| && all[j] == row;
      if j < |kept| { assert kept[j] == row; }
    }
  }

  // ------------------------------------------------------- prefix-preserving joins

  lemma {:induction false} DistinctIsKept(xs: seq<nat>)
    requires NoDuplicates(xs)
    ensures FirstOccurrences(xs) == xs
  {
    if xs == [] {
    } else {
      var n := |xs| - 1;
      DistinctIsKept(xs[..n]);
      assert xs == xs[..n] + [xs[n]];
    }
  }

  lemma JoinKeepsPrefix(xs: seq<nat>, ys: seq<nat>)
    requires NoDuplicates(xs)
    ensures |xs| <= |FirstOccurrences(xs + ys)| && FirstOccurrences(xs + ys)[..|xs|] == xs
    ensures (forall y :: y in ys ==> y in xs) ==> FirstOccurrences(xs + ys) == xs
  {
    DistinctIsKept(xs);
    FirstOccurrencesPrefix(xs, ys);
    var r := FirstOccurrences(xs + ys);
    if |r| > |xs| {
      assert r[|xs|] in r && r[|xs|] !in r[..|xs|];
    }
  }

  /** `list(dict.fromkeys(route + more))[: max(len(route), budget)]`. */
  function Extend(route: seq<nat>, more: seq<nat>, budget: int): seq<nat>
  {
    Take(FirstOccurrences(route + more), if |route| > budget then |route| else budget)
  }

  /** Extending a route keeps it as a prefix, so its mask only grows. */
  lemma ExtendKeepsPrefix(route: seq<nat>, more: seq<nat>, budget: int)
    requires NoDuplicates(route)
    ensures |route| <= |Extend(route, more, budget)| && Extend(route, more, budget)[..|route|] == route
    ensures NoDuplicates(Extend(route, more, budget))
  {
    JoinKeepsPrefix(route, more);
  }

  /** The mask of a route depends only on which columns it lists. */
  lemma SameColumnsSameCover(cols: seq<Mask>, a: seq<nat>, b: seq<nat>)
    requires Inside(cols, a) && Inside(cols, b) && forall x :: x in a ==> x in b
    ensures Cover(cols, a) <= Cover(cols, b)
  {
    forall r | r in Cover(cols, a) ensures r in Cover(cols, b) {
      CoverMember(cols, a, r);
      var i :| 0 <= i < |a| && r in cols[a[i]];
      assert a[i] in a;
      var j :| 0 <= j < |b| && b[j] == a[i];
      CoverMember(cols, b, r);
    }
  }

  lemma CoverOfJoin(cols: seq<Mask>, a: seq<nat>, b: seq<nat>)
    requires Inside(cols, a) && Inside(cols, b)
    ensures Inside(cols, a + b) && Inside(cols, FirstOccurrences(a + b))
    ensures Cover(cols, FirstOccurrences(a + b)) == Cover(cols, a) + Cover(cols, b)
  {
    var joined := FirstOccurrences(a + b);
    forall i | 0 <= i < |joined| ensures joined[i] < |cols| {
      assert joined[i] in joined && joined[i] in a + b;
    }
    SameColumnsSameCover(cols, a, joined);
    SameColumnsSameCover(cols, b, joined);
    forall r | r in Cover(cols, joined) ensures r in Cover(cols, a) + Cover(cols, b) {
      CoverMember(cols, joined, r);
      var i :| 0 <= i < |joined| && r in cols[joined[i]];
      assert joined[i] in a + b;
      CoverMember(cols, a, r);
      CoverMember(cols, b, r);
    }
  }

  // --------------------------------------------------------------- the pipeline

  function Budget(repairBudget: int): int
  {
    if repairBudget < 1 then 1 else repairBudget
  }

  function GenericBudget(repairBudget: int): int
  {
    var half := Budget(repairBudget) / 2;
    if half < 1 then 1 else half
  }

  /** The generic route has as many columns as half the budget, rounded down, but at least one and
      never more than there are. */
  ghost predicate HalfLong(repairBudget: int, columns: nat, n: nat)
  {
    && n <= columns
    && (n == columns || repairBudget < 2 * n + 2)
    && (n >= 2 ==> 2 * n <= repairBudget) && (columns >= 1 ==> n >= 1)
  }

  lemma GenericIsHalf(repairBudget: int, columns: nat)
    ensures HalfLong(repairBudget, columns, Steps(GenericBudget(repairBudget), columns))
  {
  }

  /** The generic and the repair selection, and their joined route. */
  ghost predicate Repaired(m: Matrix, budget: int, generic: seq<nat>, extra: seq<nat>, repair: seq<nat>)
  {
    && Shaped(m) && budget >= 1
    && GreedyRun(m.cols, {}, generic)
    && GreedyRun(m.cols, MaskOf(m, generic), extra) && |extra| == Steps(budget, |m.cols|)
    && repair == FirstOccurrences(generic + extra)
  }

  lemma RepairInside(m: Matrix, budget: int, generic: seq<nat>, extra: seq<nat>, repair: seq<nat>)
    requires Repaired(m, budget, generic, extra, repair)
    ensures Inside(m.cols, repair) && NoDuplicates(repair)
    ensures forall c :: c in generic || c in extra ==> c in repair
  {
    CoverOfJoin(m.cols, generic, extra);
  }

  /** The recomputed repair mask is the one the repair selection returned. */
  lemma RepairMaskIsTheRoutes(m: Matrix, budget: int, generic: seq<nat>, extra: seq<nat>, repair: seq<nat>)
    requires Repaired(m, budget, generic, extra, repair)
    ensures Inside(m.cols, repair)
    ensures MaskOf(m, repair) == MaskOf(m, generic) + Cover(m.cols, extra)
  {
    CoverOfJoin(m.cols, generic, extra);
    MaskIsCover(m, generic);
    MaskIsCover(m, repair);
  }

  /** The repair route is as long as the budget, or lists every column. */
  lemma RepairIsLongOrFull(m: Matrix, budget: int, generic: seq<nat>, extra: seq<nat>, repair: seq<nat>)
    requires Repaired(m, budget, generic, extra, repair)
    ensures |repair| >= budget || forall c: nat :: c < |m.cols| ==> c in repair
  {
    RepairInside(m, budget, generic, extra, repair);
    GreedyDistinct(m.cols, MaskOf(m, generic), extra);
    if budget <= |m.cols| {
      forall i | 0 <= i < |extra| ensures extra[i] in Elements(repair) {
        assert extra[i] in extra;
      }
      DistinctInSet(extra, Elements(repair));
      ElementsSize(repair);
    } else {
      forall c: nat | c < |m.cols| ensures c in repair {
        EveryColumnTaken(m.cols, MaskOf(m, generic), extra, c);
      }
    }
  }

  /** Lawbook reuse never changes the repaired route, whatever the lawbook recommends: either
      the route already fills the cut, or every column is in it. */
  lemma ReuseChangesNothing(m: Matrix, budget: int, generic: seq<nat>, extra: seq<nat>, repair: seq<nat>, hints: seq<nat>)
    requires Repaired(m, budget, generic, extra, repair) && Inside(m.cols, hints)
    ensures Extend(repair, hints, budget) == repair
  {
    RepairInside(m, budget, generic, extra, repair);
    RepairIsLongOrFull(m, budget, generic, extra, repair);
    JoinKeepsPrefix(repair, hints);
  }

  /** Neither does the compact atlas: its columns come from the repair rows. */
  lemma CompactionChangesNothing(m: Matrix, budget: int, generic: seq<nat>, extra: seq<nat>, repair: seq<nat>, rows: seq<RouteRow>)
    requires Repaired(m, budget, generic, extra, repair)
    requires forall row :: row in rows ==> row.column in extra
    ensures Extend(repair, CompactIndices(rows, budget), budget) == repair
  {
    RepairInside(m, budget, generic, extra, repair);
    var more := CompactIndices(rows, budget);
    forall y | y in more ensures y in repair {
      var i :| 0 <= i < |more| && more[i] == y;
      var row :| row in rows && row.column == more[i];
    }
    JoinKeepsPrefix(repair, more);
  }

  datatype EpisodeRow = EpisodeRow(
    policy: string, routeSize: nat, recoveries: nat, residuals: int, newRecoveries: nat, contamination: nat)

  /** `_episode_row`, without the constant columns. */
  function EpisodeOf(policy: string, indices: seq<nat>, mask: Mask, m: Matrix, trueRows: Matrix, previous: Mask): EpisodeRow
    requires Inside(trueRows.cols, indices)
  {
    EpisodeRow(policy, |indices|, |mask|, m.rows - |mask|, |mask - previous|, |MaskOf(trueRows, indices)|)
  }

  lemma RowsListColumns(m: Matrix, start: Mask, sel: seq<nat>, rows: seq<RouteRow>)
    requires GreedyRun(m.cols, start, sel) && |rows| == |sel|
    requires forall t :: 0 <= t < |rows| ==> rows[t] == RowAt(m, start, sel, t)
    ensures forall row :: row in rows ==> row.column in sel
  {
    forall row | row in rows ensures row.column in sel {
      var t :| 0 <= t < |rows| && rows[t] == row;
      assert row.column == sel[t];
    }
  }

  lemma GrowthSize<T>(a: set<T>, b: set<T>)
    requires a <= b
    ensures |a| + |b - a| == |b|
  {
    assert b == a + (b - a);
  }

  /** The repair route starts with the generic one, its mask contains the generic mask, and no
      mask leaves the oracle; with enough budget the oracle is reached. */
  lemma ChainGrows(m: Matrix, budget: int, generic: seq<nat>, extra: seq<nat>, repair: seq<nat>)
    requires Repaired(m, budget, generic, extra, repair)
    ensures Inside(m.cols, repair)
    ensures |generic| <= |repair| && repair[..|generic|] == generic
    ensures MaskOf(m, generic) <= MaskOf(m, repair) <= Oracle(m.cols)
    ensures |m.cols| <= budget ==> MaskOf(m, repair) == Oracle(m.cols)
  {
    RepairMaskIsTheRoutes(m, budget, generic, extra, repair);
    GreedyDistinct(m.cols, {}, generic);
    JoinKeepsPrefix(generic, extra);
    MaskIsCover(m, repair);
    CoverInOracle(m.cols, repair);
    if |m.cols| <= budget {
      EnoughBudgetReachesOracle(m.cols, MaskOf(m, generic), extra);
    }
  }

  /** The four routes of `_run_native_v2`, each stage extending the one before. */
  method RunStages(m: Matrix, families: seq<string>, hints: seq<Hint>, repairBudget: int)
    returns (generic: seq<nat>, ghost extra: seq<nat>, repair: seq<nat>, lawbook: seq<nat>, compact: seq<nat>)
    requires Shaped(m) && |families| == |m.cols|
    ensures Repaired(m, if repairBudget < 1 then 1 else repairBudget, generic, extra, repair)
    ensures HalfLong(repairBudget, |m.cols|, |generic|)
    ensures lawbook == repair && compact == repair
  {
    var budget := Budget(repairBudget);
    var first, genericMask, _ := SelectRoute(m, GenericBudget(repairBudget), {});
    generic := first;
    GenericIsHalf(repairBudget, |m.cols|);
    MaskIsCover(m, generic);
    var more, _, repairRows := SelectRoute(m, budget, genericMask);
    extra := more;
    repair := FirstOccurrences(generic + more);
    assert Repaired(m, budget, generic, extra, repair);
    var hinted := LawbookIndices(hints, families, budget);
    lawbook := Extend(repair, hinted, budget);
    ReuseChangesNothing(m, budget, generic, extra, repair, hinted);
    compact := Extend(lawbook, CompactIndices(repairRows, budget), budget);
    RowsListColumns(m, genericMask, extra, repairRows);
    CompactionChangesNothing(m, budget, generic, extra, repair, repairRows);
  }

  /** A longer route contaminates at least as much. */
  lemma SmallerRoute(m: Matrix, a: seq<nat>, b: seq<nat>)
    requires Shaped(m) && Inside(m.cols, b) && |a| <= |b| && b[..|a|] == a
    ensures Inside(m.cols, a) && |MaskOf(m, a)| <= |MaskOf(m, b)|
    ensures MaskOf(m, a) <= MaskOf(m, b) && MaskOf(m, b) == Cover(m.cols, b)
  {
    assert forall i :: 0 <= i < |a| ==> a[i] == b[i];
    assert forall x :: x in a ==> x in b;
    MaskIsCover(m, a);
    MaskIsCover(m, b);
    SameColumnsSameCover(m.cols, a, b);
    SubsetSize(MaskOf(m, a), MaskOf(m, b));
  }

  /** The stages add up: the first two account for all recoveries, the last two add none, and no
      stage contaminates more than the last. */
  ghost predicate EpisodesAdd(rows: seq<EpisodeRow>, total: nat, bad: nat)
  {
    && |rows| <= 4
    && (|rows| > 1 ==> rows[0].recoveries + rows[1].newRecoveries == rows[1].recoveries)
    && (forall i :: 1 <= i < |rows| ==> rows[i].recoveries == total && rows[i].contamination == bad)
    && (forall i :: 2 <= i < |rows| ==> rows[i].newRecoveries == 0)
    && (|rows| > 0 ==> rows[0].contamination <= bad)
  }

  /** The rows of the four stages. */
  function StageRows(m: Matrix, trueRows: Matrix, generic: seq<nat>, repair: seq<nat>, lawbook: seq<nat>, compact: seq<nat>): seq<EpisodeRow>
    requires Inside(m.cols, generic) && Inside(m.cols, repair) && Inside(m.cols, lawbook) && Inside(m.cols, compact)
    requires |m.cols| == |trueRows.cols|
  {
    var genericMask, repairMask := MaskOf(m, generic), MaskOf(m, repair);
    var lawbookMask, compactMask := MaskOf(m, lawbook), MaskOf(m, compact);
    [EpisodeOf("generic", generic, genericMask, m, trueRows, {}),
     EpisodeOf("residual_repair", repair, repairMask, m, trueRows, genericMask),
     EpisodeOf("lawbook_reuse", lawbook, lawbookMask, m, trueRows, repairMask),
     EpisodeOf("compact_atlas", compact, compactMask, m, trueRows, lawbookMask)]
  }

  lemma StageRowsAdd(m: Matrix, trueRows: Matrix, generic: seq<nat>, repair: seq<nat>)
    requires Shaped(m) && Shaped(trueRows) && |m.cols| == |trueRows.cols|
    requires Inside(m.cols, repair) && |generic| <= |repair| && repair[..|generic|] == generic
    ensures Inside(m.cols, generic)
    ensures EpisodesAdd(StageRows(m, trueRows, generic, repair, repair, repair), |MaskOf(m, repair)|, |Cover(trueRows.cols, repair)|)
  {
    SmallerRoute(m, generic, repair);
    SmallerRoute(trueRows, generic, repair);
    var genericMask, repairMask := MaskOf(m, generic), MaskOf(m, repair);
    GrowthSize(genericMask, repairMask);
    assert |repairMask - repairMask| == 0;
    var rows := StageRows(m, trueRows, generic, repair, repair, repair);
    assert rows[1].newRecoveries == |repairMask - genericMask| && rows[0].recoveries == |genericMask|;
  }

  /** The row of a stage: its name, the length of its route, what the route covers, what it leaves,
      what it adds to the rows covered before, and what it covers of the TRUE pairs. */
  ghost predicate Reports(row: EpisodeRow, policy: string, m: Matrix, trueRows: Matrix, route: seq<nat>, before: Mask)
    requires Inside(m.cols, route) && |m.cols| == |trueRows.cols|
  {
    && row.policy == policy && row.routeSize == |route|
    && row.recoveries == |Cover(m.cols, route)| && row.recoveries + row.residuals == m.rows
    && row.newRecoveries == |Cover(m.cols, route) - before| && row.contamination == |Cover(trueRows.cols, route)|
  }

  /** As many of the four rows as there are episodes, at least one. */
  ghost predicate FourReports(rows: seq<EpisodeRow>, episodes: int, m: Matrix, trueRows: Matrix, generic: seq<nat>, repair: seq<nat>)
    requires Inside(m.cols, generic) && Inside(m.cols, repair) && |m.cols| == |trueRows.cols|
  {
    && |rows| == (if episodes <= 1 then 1 else if episodes >= 4 then 4 else episodes)
    && Reports(rows[0], "generic", m, trueRows, generic, {})
    && (|rows| >= 2 ==> Reports(rows[1], "residual_repair", m, trueRows, repair, Cover(m.cols, generic)))
    && (|rows| >= 3 ==> Reports(rows[2], "lawbook_reuse", m, trueRows, repair, Cover(m.cols, repair)))
    && (|rows| >= 4 ==> Reports(rows[3], "compact_atlas", m, trueRows, repair, Cover(m.cols, repair)))
  }

  lemma EpisodeReports(policy: string, route: seq<nat>, m: Matrix, trueRows: Matrix, before: Mask)
    requires Shaped(m) && Shaped(trueRows) && Inside(m.cols, route) && |m.cols| == |trueRows.cols|
    ensures Reports(EpisodeOf(policy, route, MaskOf(m, route), m, trueRows, before), policy, m, trueRows, route, before)
  {
    MaskIsCover(m, route);
    MaskIsCover(trueRows, route);
  }

  lemma StagesReport(m: Matrix, trueRows: Matrix, generic: seq<nat>, repair: seq<nat>, episodes: int)
    requires Shaped(m) && Shaped(trueRows) && Inside(m.cols, generic) && Inside(m.cols, repair) && |m.cols| == |trueRows.cols|
    ensures FourReports(Take(StageRows(m, trueRows, generic, repair, repair, repair), if episodes < 1 then 1 else episodes),
                        episodes, m, trueRows, generic, repair)
  {
    EpisodeReports("generic", generic, m, trueRows, {});
    EpisodeReports("residual_repair", repair, m, trueRows, MaskOf(m, generic));
    EpisodeReports("lawbook_reuse", repair, m, trueRows, MaskOf(m, repair));
    EpisodeReports("compact_atlas", repair, m, trueRows, MaskOf(m, repair));
    MaskIsCover(m, generic);
    MaskIsCover(m, repair);
  }

  lemma FewerEpisodes(rows: seq<EpisodeRow>, total: nat, bad: nat, n: int)
    requires EpisodesAdd(rows, total, bad)
    ensures EpisodesAdd(Take(rows, n), total, bad)
  {
  }

  /** The route part of `_run_native_v2`, with its episode rows. */
  method RunNative(m: Matrix, trueRows: Matrix, families: seq<string>, hints: seq<Hint>, repairBudget: int, episodes: int)
    returns (generic: seq<nat>, repair: seq<nat>, lawbook: seq<nat>, compact: seq<nat>, rows: seq<EpisodeRow>)
    requires Shaped(m) && Shaped(trueRows) && |families| == |m.cols| == |trueRows.cols|
    ensures Inside(m.cols, generic) && Inside(m.cols, repair)
    ensures lawbook == repair && compact == repair
    ensures |generic| <= |repair| && repair[..|generic|] == generic
    ensures MaskOf(m, generic) <= MaskOf(m, repair) <= Oracle(m.cols)
    ensures |m.cols| <= (if repairBudget < 1 then 1 else repairBudget) ==> MaskOf(m, repair) == Oracle(m.cols)
    ensures HalfLong(repairBudget, |m.cols|, |generic|)
    ensures FourReports(rows, episodes, m, trueRows, generic, repair)
    ensures EpisodesAdd(rows, |MaskOf(m, repair)|, |Cover(trueRows.cols, repair)|)
  {
    ghost var extra;
    generic, extra, repair, lawbook, compact := RunStages(m, families, hints, repairBudget);
    ChainGrows(m, Budget(repairBudget), generic, extra, repair);
    StageRowsAdd(m, trueRows, generic, repair);
    var all := StageRows(m, trueRows, generic, repair, lawbook, compact);
    StagesReport(m, trueRows, generic, repair, episodes);
    FewerEpisodes(all, |MaskOf(m, repair)|, |Cover(trueRows.cols, repair)|, if episodes < 1 then 1 else episodes);
    rows := Take(all, if episodes < 1 then 1 else episodes);
  }

  /** The repaired route is as good, against every selection of at most `k` columns, as the
      greedy bound promises for the repair steps on the rows the generic route left over. */
  lemma RepairBound(m: Matrix, budget: int, generic: seq<nat>, extra: seq<nat>, repair: seq<nat>, u: seq<nat>, k: nat)
    requires Repaired(m, budget, generic, extra, repair) && Inside(m.cols, u) && |u| <= k && k >= 1
    ensures Inside(m.cols, repair)
    ensures var start := MaskOf(m, generic);
            WithinGreedyFactor(k, |extra|, Covered(m.cols, start, u), |MaskOf(m, repair) - start|)
  {
    var start := MaskOf(m, generic);
    RepairMaskIsTheRoutes(m, budget, generic, extra, repair);
    WholeMask(m.cols, start, extra);
    GreedyBound(m.cols, start, extra, |extra|, u, k);
  }

  /** And the whole route, generic and repair steps together, meets the bound for that many steps
      against everything a selection covers: the warm start costs nothing. */
  lemma PipelineBound(m: Matrix, budget: int, generic: seq<nat>, extra: seq<nat>, repair: seq<nat>, u: seq<nat>, k: nat, steps: nat)
    requires Repaired(m, budget, generic, extra, repair) && Inside(m.cols, u) && |u| <= k && k >= 1
    requires steps == |generic| + |extra|
    ensures Inside(m.cols, repair)
    ensures WithinGreedyFactor(k, steps, |Cover(m.cols, u)|, |MaskOf(m, repair)|)
  {
    RepairMaskIsTheRoutes(m, budget, generic, extra, repair);
    MaskIsCover(m, generic);
    TwoPhaseBound(m.cols, generic, MaskOf(m, generic), extra, MaskOf(m, repair), u, k, steps);
  }

  /** The rows of the first `step` columns, and the mask they reach from nothing. */
  ghost predicate Logged(m: Matrix, indices: seq<nat>, step: nat, recovered: Mask, rows: seq<RouteRow>)
    requires Inside(m.cols, indices) && step <= |indices|
  {
    && |rows| == step && recovered == MaskAt(m.cols, {}, indices, step)
    && forall t :: 0 <= t < step ==> rows[t] == RowAt(m, {}, indices, t)
  }

  lemma EmptyColumns(m: Matrix, c: nat)
    requires Shaped(m) && c < |m.cols|
    ensures m.rows == 0 ==> m.cols[c] == {}
  {
  }

  lemma LogAdvances(m: Matrix, indices: seq<nat>, step: nat, recovered: Mask, rows: seq<RouteRow>)
    requires Shaped(m) && Inside(m.cols, indices) && step < |indices| && Logged(m, indices, step, recovered, rows)
    ensures var c := m.cols[indices[step]];
            var gain := if m.rows > 0 then |c - recovered| else 0;
            var after := recovered + if m.rows > 0 then c else recovered;
            Logged(m, indices, step + 1, after, rows + [RouteRow(step, indices[step], gain, |after|, m.rows - |after|)])
  {
    var c := m.cols[indices[step]];
    MaskStep(m.cols, {}, indices, step);
    EmptyColumns(m, indices[step]);
    if m.rows == 0 {
      assert c - recovered == {} && recovered + recovered == recovered + c;
    }
  }

  /** The loop body: gain, widened mask, row. */
  method LogColumn(m: Matrix, indices: seq<nat>, step: nat, mask: Mask, log: seq<RouteRow>)
    returns (recovered: Mask, rows: seq<RouteRow>)
    requires Shaped(m) && Inside(m.cols, indices) && step < |indices| && Logged(m, indices, step, mask, log)
    ensures Logged(m, indices, step + 1, recovered, rows)
  {
    var idx := indices[step];
    LogAdvances(m, indices, step, mask, log);
    var gain := if m.rows > 0 then |m.cols[idx] - mask| else 0;
    recovered := mask + if m.rows > 0 then m.cols[idx] else mask;
    rows := log + [RouteRow(step, idx, gain, |recovered|, m.rows - |recovered|)];
  }

  /** `_route_df`: the logged route of a stage, always counted from an empty mask. */
  method RouteLog(m: Matrix, indices: seq<nat>) returns (rows: seq<RouteRow>)
    requires Shaped(m) && Inside(m.cols, indices)
    ensures Logged(m, indices, |indices|, MaskOf(m, indices), rows)
  {
    rows := [];
    var recovered: Mask := {};
    assert MaskAt(m.cols, {}, indices, 0) == {};
    for step := 0 to |indices|
      invariant Logged(m, indices, step, recovered, rows)
    {
      recovered, rows := LogColumn(m, indices, step, recovered, rows);
    }
    assert indices[..|indices|] == indices;
    MaskIsCover(m, indices);
  }
}
