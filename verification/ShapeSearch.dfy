/** The residual search controller: probes under call budgets, the per-shape blacklist, and replay. */
module ShapeSearch {
  import opened Orders
  import opened Terms
  import opened Products
  import opened Magma
  import opened Encoding
  import opened Partitions
  import opened Replay
  import opened SearchLog
  import opened Witness

  /** A row of the shape states. */
  datatype Shape = Shape(key: string, unsat: nat, unknown: nat, sat: nat, hits: nat, calls: nat, blacklisted: bool)

  /** A shape that nothing has been asked for. */
  function NewShape(key: string): Shape
  {
    Shape(key, 0, 0, 0, 0, 0, false)
  }

  // ------------------------------------------------------------- shape states

  predicate Barren(st: Shape)
  {
    st.hits == 0 && (st.unsat >= 32 || st.unknown >= 18 || st.calls >= 48)
  }

  /** `update_shape_state`. */
  function Updated(st: Shape, a: Answer, hits: nat): Shape
  {
    var next := Shape(
      st.key,
      st.unsat + (if a.Unsat? then 1 else 0),
      st.unknown + (if a.Unknown? then 1 else 0),
      st.sat + (if a.Sat? then 1 else 0),
      st.hits + hits,
      st.calls + 1,
      st.blacklisted);
    if Barren(next) then next.(blacklisted := true) else next
  }

  /** Calls split by answer, a barren shape is blacklisted, and every satisfying table hit. */
  ghost predicate ShapeOk(st: Shape)
  {
    && st.calls == st.unsat + st.unknown + st.sat
    && (Barren(st) ==> st.blacklisted)
    && st.sat <= st.hits
  }

  function ProbeCap(lim: Limits): nat
  {
    if lim.probesPerPair < 0 then 0 else lim.probesPerPair
  }

  function CallCap(lim: Limits): nat
  {
    if lim.totalCalls < 0 then 0 else lim.totalCalls
  }

  /** The cost of a shape that never hit. */
  ghost predicate Bounded(st: Shape, lim: Limits)
  {
    st.hits == 0 ==>
      st.calls <= 47 + ProbeCap(lim) && st.unsat <= 31 + ProbeCap(lim) && st.unknown <= 17 + ProbeCap(lim)
  }

  // ------------------------------------------------------------------- sums

  ghost function Sum(m: map<string, nat>): nat
    decreases m.Keys
  {
    if m == map[] then 0
    else
      var k :| k in m;
      m[k] + Sum(m - {k})
  }

  lemma {:induction false} SumPick(m: map<string, nat>, k: string)
    requires k in m
    ensures Sum(m) == m[k] + Sum(m - {k})
    decreases m.Keys
  {
    var l :| l in m && Sum(m) == m[l] + Sum(m - {l});
    if l == k {
    } else {
      SumPick(m - {l}, k);
      SumPick(m - {k}, l);
      assert m - {l} - {k} == m - {k} - {l};
    }
  }

  lemma SumUpdate(m: map<string, nat>, k: string, v: nat)
    ensures Sum(m[k := v]) + (if k in m then m[k] else 0) == Sum(m) + v
  {
    var m' := m[k := v];
    SumPick(m', k);
    if k in m {
      SumPick(m, k);
      assert m' - {k} == m - {k};
    } else {
      assert m' - {k} == m;
    }
  }

  type Shapes = map<string, Shape>

  ghost function Calls(shapes: Shapes): map<string, nat>
  {
    map k | k in shapes :: shapes[k].calls
  }

  ghost function HitCounts(shapes: Shapes): map<string, nat>
  {
    map k | k in shapes :: shapes[k].hits
  }

  function StateOf(shapes: Shapes, key: string): Shape
  {
    if key in shapes then shapes[key] else NewShape(key)
  }

  lemma SumsAfter(shapes: Shapes, key: string, st: Shape)
    ensures Sum(Calls(shapes[key := st])) + StateOf(shapes, key).calls == Sum(Calls(shapes)) + st.calls
    ensures Sum(HitCounts(shapes[key := st])) + StateOf(shapes, key).hits == Sum(HitCounts(shapes)) + st.hits
  {
    SumUpdate(Calls(shapes), key, st.calls);
    SumUpdate(HitCounts(shapes), key, st.hits);
    assert Calls(shapes[key := st]) == Calls(shapes)[key := st.calls];
    assert HitCounts(shapes[key := st]) == HitCounts(shapes)[key := st.hits];
  }

  ghost predicate ShapeEntryOk(st: Shape, lim: Limits)
  {
    ShapeOk(st) && Bounded(st, lim)
  }

  /** The shape states add up to the calls made and the pairs newly covered. */
  ghost predicate BookOk(shapes: Shapes, lim: Limits, calls: nat, hits: nat)
  {
    && calls == Sum(Calls(shapes))
    && hits == Sum(HitCounts(shapes))
    && forall k {:trigger ShapeEntryOk(shapes[k], lim)} :: k in shapes ==> ShapeEntryOk(shapes[k], lim)
  }

  lemma EmptyBook(lim: Limits)
    ensures BookOk(map[], lim, 0, 0)
  {
    assert Calls(map[]) == map[] && HitCounts(map[]) == map[];
  }

  lemma BookAfter(shapes: Shapes, lim: Limits, calls: nat, hits: nat, key: string, st: Shape, calls': nat, hits': nat)
    requires BookOk(shapes, lim, calls, hits) && ShapeEntryOk(st, lim)
    requires calls' + StateOf(shapes, key).calls == calls + st.calls
    requires hits' + StateOf(shapes, key).hits == hits + st.hits
    ensures BookOk(shapes[key := st], lim, calls', hits')
  {
    SumsAfter(shapes, key, st);
    var after := shapes[key := st];
    forall k | k in after ensures ShapeEntryOk(after[k], lim) {
    }
  }

  /** Registering a shape with a state of zeros changes no sum. */
  lemma RegisteredBook(shapes: Shapes, lim: Limits, calls: nat, hits: nat, key: string)
    requires BookOk(shapes, lim, calls, hits) && key !in shapes
    ensures BookOk(shapes[key := NewShape(key)], lim, calls, hits)
  {
    BookAfter(shapes, lim, calls, hits, key, NewShape(key), calls, hits);
  }

  /** A state reached from `st0` by `k` calls of one probe. */
  ghost predicate Reached(st0: Shape, st: Shape, k: nat)
  {
    && st.calls == st0.calls + k
    && st0.unsat <= st.unsat <= st0.unsat + k
    && st0.unknown <= st.unknown <= st0.unknown + k
    && st0.hits <= st.hits
  }

  /** An update keeps the bookkeeping right, when a satisfying answer comes with a hit. */
  lemma UpdatedOk(st0: Shape, st: Shape, k: nat, a: Answer, hits: nat)
    requires ShapeOk(st) && Reached(st0, st, k) && (a.Sat? ==> hits > 0)
    ensures ShapeOk(Updated(st, a, hits)) && Reached(st0, Updated(st, a, hits), k + 1)
  {
  }

  /** A probe starts on a shape that is not blacklisted and spends at most its own cap. */
  lemma ProbeIsBounded(st0: Shape, st: Shape, k: nat, lim: Limits)
    requires ShapeOk(st0) && !st0.blacklisted && Reached(st0, st, k) && k <= ProbeCap(lim)
    ensures Bounded(st, lim)
  {
  }

  // ------------------------------------------------------------ the attempt log

  /** The state a shape gets from its entries in the log. */
  function Folded(log: seq<AttemptRec>, key: string): Shape
  {
    if log == [] then NewShape(key)
    else
      var before, last := Folded(log[..|log| - 1], key), log[|log| - 1];
      if last.shape == key then Updated(before, last.answer, last.hits) else before
  }

  // ---------------------------------------------- the blacklist, from the log alone

  /** The counters of a state are the numbers of calls of each kind. */
  ghost predicate Counts(st: Shape, log: seq<AttemptRec>, key: string)
  {
    && st.unsat == |CallsFor(log, key, UnsatCall, |log|)|
    && st.unknown == |CallsFor(log, key, UnknownCall, |log|)|
    && st.calls == |CallsFor(log, key, AnyCall, |log|)|
    && (st.hits == 0 <==> forall k :: 0 <= k < |log| && log[k].shape == key ==> log[k].hits == 0)
  }

  lemma CountsNext(st: Shape, log: seq<AttemptRec>, init: seq<AttemptRec>, key: string)
    requires log != [] && init == log[..|log| - 1] && Counts(st, init, key)
    ensures var last := log[|init|];
            Counts(if last.shape == key then Updated(st, last.answer, last.hits) else st, log, key)
  {
    var n := |init|;
    SameCalls(log, init, key, UnsatCall, n);
    SameCalls(log, init, key, UnknownCall, n);
    SameCalls(log, init, key, AnyCall, n);
    OneMoreCall(log, key, UnsatCall, n);
    OneMoreCall(log, key, UnknownCall, n);
    OneMoreCall(log, key, AnyCall, n);
    assert forall k :: 0 <= k < n ==> init[k] == log[k];
  }

  lemma {:induction false} FoldedCounts(log: seq<AttemptRec>, key: string)
    ensures Counts(Folded(log, key), log, key)
  {
    if log == [] {
      assert forall kind :: CallsFor(log, key, kind, 0) == {};
    } else {
      FoldedCounts(log[..|log| - 1], key);
      CountsNext(Folded(log[..|log| - 1], key), log, log[..|log| - 1], key);
    }
  }

  /** A log that bars a shape only now does so by its last entry, which is about the shape. */
  lemma BarredNow(log: seq<AttemptRec>, init: seq<AttemptRec>, key: string, st: Shape)
    requires log != [] && init == log[..|log| - 1] && Counts(st, log, key)
    ensures Barred(log, key) <==> Barred(init, key) || (log[|init|].shape == key && Barren(st))
  {
    var n := |init|;
    if Barred(init, key) {
      var m: nat :| m <= n && BarredAt(init, key, m);
      SameBar(log, init, key, m);
    }
    if Barren(st) {
      assert BarredAt(log, key, |log|);
    }
    if Barred(log, key) {
      var m: nat :| m <= |log| && BarredAt(log, key, m);
      if m <= n {
        SameBar(log, init, key, m);
        assert BarredAt(init, key, m);
      } else {
        if log[n].shape != key {
          OneMoreCall(log, key, UnsatCall, n);
          OneMoreCall(log, key, UnknownCall, n);
          OneMoreCall(log, key, AnyCall, n);
          SameBar(log, init, key, n);
          assert BarredAt(init, key, n);
        }
      }
    }
  }

  /** A shape is blacklisted exactly when some prefix of the log has no hit for it and enough calls. */
  lemma {:induction false} BlacklistExact(log: seq<AttemptRec>, key: string)
    ensures Folded(log, key).blacklisted <==> Barred(log, key)
  {
    if log == [] {
      assert forall kind :: CallsFor(log, key, kind, 0) == {};
    } else {
      var init := log[..|log| - 1];
      BlacklistExact(init, key);
      FoldedCounts(log, key);
      BarredNow(log, init, key, Folded(log, key));
    }
  }

  /** Not even a hit lifts it: a later call of the probe that blacklisted a shape can still hit. */
  lemma BlacklistOutlivesHits(key: string, table: Table)
    ensures var late := Updated(Updated(Shape(key, 31, 0, 0, 0, 31, false), Unsat, 0), Sat(table), 1);
            late.hits == 1 && late.blacklisted
  {
  }

  /** No shape but `key` has changed. */
  ghost predicate OthersKept(before: Shapes, after: Shapes, key: string)
  {
    forall k :: k in before && k != key ==> k in after && after[k] == before[k]
  }

  /** No blacklisted shape has changed. */
  ghost predicate Frozen(before: Shapes, after: Shapes)
  {
    forall k :: k in before && before[k].blacklisted ==> k in after && after[k] == before[k]
  }

  /** The stored states are those of the log. */
  ghost predicate Booked(shapes: Shapes, log: seq<AttemptRec>)
  {
    forall k {:trigger Folded(log, k)} :: StateOf(shapes, k) == Folded(log, k)
  }

  lemma BookedSnoc(shapes: Shapes, log: seq<AttemptRec>, rec: AttemptRec)
    requires Booked(shapes, log)
    ensures Booked(shapes[rec.shape := Updated(StateOf(shapes, rec.shape), rec.answer, rec.hits)], log + [rec])
  {
    var after := shapes[rec.shape := Updated(StateOf(shapes, rec.shape), rec.answer, rec.hits)];
    assert (log + [rec])[..|log|] == log;
    forall k ensures StateOf(after, k) == Folded(log + [rec], k) {
      assert StateOf(shapes, k) == Folded(log, k);
    }
  }

  ghost predicate HitIsCovered(log: seq<AttemptRec>, k: nat, covered: set<IdPair>)
    requires k < |log|
  {
    log[k].hits > 0 ==> (log[k].i, log[k].j) in covered
  }

  ghost predicate SamePair(log: seq<AttemptRec>, k: nat, l: nat)
    requires k < |log| && l < |log|
  {
    log[k].i == log[l].i && log[k].j == log[l].j
  }

  /** A pair is never asked about again once a call for it has hit. */
  ghost predicate StopsAtHit(log: seq<AttemptRec>, covered: set<IdPair>)
  {
    && (forall k :: 0 <= k < |log| ==> HitIsCovered(log, k, covered))
    && forall k, l {:trigger SamePair(log, k, l)} :: 0 <= k < l < |log| && SamePair(log, k, l) ==> log[k].hits == 0
  }

  lemma StopsSnoc(log: seq<AttemptRec>, rec: AttemptRec, covered: set<IdPair>, covered': set<IdPair>)
    requires StopsAtHit(log, covered) && covered <= covered' && (rec.i, rec.j) !in covered
    requires rec.hits > 0 ==> (rec.i, rec.j) in covered'
    ensures StopsAtHit(log + [rec], covered')
  {
    var after := log + [rec];
    forall k | 0 <= k < |after| ensures HitIsCovered(after, k, covered') {
      if k < |log| {
        assert HitIsCovered(log, k, covered);
      }
    }
    forall k, l | 0 <= k < l < |after| && SamePair(after, k, l) ensures after[k].hits == 0 {
      assert HitIsCovered(log, k, covered);
      if l < |log| {
        assert SamePair(log, k, l);
      }
    }
  }

  /** The log explains every stored state, and nothing is asked about a pair that has hit. */
  ghost predicate LogOk(shapes: Shapes, log: seq<AttemptRec>, covered: set<IdPair>)
  {
    Booked(shapes, log) && StopsAtHit(log, covered)
  }

  /** Registering a new shape changes no state. */
  lemma RegisteredLog(shapes: Shapes, log: seq<AttemptRec>, covered: set<IdPair>, key: string)
    requires LogOk(shapes, log, covered) && key !in shapes
    ensures LogOk(shapes[key := NewShape(key)], log, covered)
  {
    forall k ensures StateOf(shapes[key := NewShape(key)], k) == Folded(log, k) {
      assert StateOf(shapes, k) == Folded(log, k);
    }
  }

  lemma LogSnoc(shapes: Shapes, shapes': Shapes, log: seq<AttemptRec>, rec: AttemptRec, covered: set<IdPair>, covered': set<IdPair>)
    requires LogOk(shapes, log, covered) && covered <= covered' && (rec.i, rec.j) !in covered
    requires rec.hits > 0 ==> (rec.i, rec.j) in covered'
    requires shapes' == shapes[rec.shape := Updated(StateOf(shapes, rec.shape), rec.answer, rec.hits)]
    ensures LogOk(shapes', log + [rec], covered')
  {
    BookedSnoc(shapes, log, rec);
    StopsSnoc(log, rec, covered, covered');
  }

  /** The laws that every state of the search keeps. */
  datatype Law = Posed | Solved | Timed | Counted | Summed | Logged | Asked | Mirrored

  /** The equations are there, the solver is right, time moves on, the replay counts exactly, the
      shapes add up, the log explains them, the solver's answers are logged, and the tables of the
      log make the state of the replay. */
  ghost predicate Keeps(law: Law, su: Setup, shapes: Shapes, log: seq<AttemptRec>, s: State)
  {
    match law
    case Posed => WellPosed(su.pb) && InjectiveId(su.pb)
    case Solved => SoundSolver(su.solve)
    case Timed => Forward(su.clock)
    case Counted => CountsExact(su.start, s)
    case Summed => BookOk(shapes, su.lim, |log|, s.newTotal)
    case Logged => LogOk(shapes, log, s.covered)
    case Asked => Answered(su, log)
    case Mirrored => Replayed(su, log, s)
  }

  ghost predicate Lawful(su: Setup, shapes: Shapes, log: seq<AttemptRec>, s: State)
  {
    forall law {:trigger Keeps(law, su, shapes, log, s)} :: Keeps(law, su, shapes, log, s)
  }

  lemma LawsOfGiven(su: Setup, shapes: Shapes, log: seq<AttemptRec>, s: State)
    requires Lawful(su, shapes, log, s)
    ensures WellSet(su)
  {
    assert Keeps(Posed, su, shapes, log, s) && Keeps(Solved, su, shapes, log, s) && Keeps(Timed, su, shapes, log, s);
  }

  lemma LawsOfShapes(su: Setup, shapes: Shapes, log: seq<AttemptRec>, s: State)
    requires Lawful(su, shapes, log, s)
    ensures BookOk(shapes, su.lim, |log|, s.newTotal) && LogOk(shapes, log, s.covered)
  {
    assert Keeps(Summed, su, shapes, log, s) && Keeps(Logged, su, shapes, log, s);
  }

  lemma LawsOfReplay(su: Setup, shapes: Shapes, log: seq<AttemptRec>, s: State)
    requires Lawful(su, shapes, log, s)
    ensures CountsExact(su.start, s) && Answered(su, log) && Replayed(su, log, s)
  {
    assert Keeps(Counted, su, shapes, log, s) && Keeps(Asked, su, shapes, log, s) && Keeps(Mirrored, su, shapes, log, s);
  }

  /** What a replay of the answer to a question relies on. */
  lemma ReadyToReplay(su: Setup, shapes: Shapes, log: seq<AttemptRec>, s: State, q: Question)
    requires Lawful(su, shapes, log, s)
    ensures WellPosed(su.pb) && InjectiveId(su.pb) && SeenIsCovered(su.pb, s) && CountsExact(su.start, s)
    ensures SoundAnswer(q, su.solve(q))
  {
    LawsOfGiven(su, shapes, log, s);
    LawsOfReplay(su, shapes, log, s);
    SeenIsReplayed(su, log, s);
  }

  lemma RefutedIsCertified(pb: Problem, rec: AttemptRec)
    requires WellPosed(pb) && rec.answer.Sat? && FullRows(rec.answer.table)
    ensures Certified(pb, rec.answer.table) == set p | p in pb.falsePairs && Refutes(pb, rec, p)
  {
  }

  lemma LawOfTime(su: Setup, shapes: Shapes, log: seq<AttemptRec>, s: State)
    requires Lawful(su, shapes, log, s)
    ensures Forward(su.clock)
  {
    assert Keeps(Timed, su, shapes, log, s);
  }

  /** At the start nothing has been asked. */
  lemma LawfulAtStart(su: Setup)
    requires WellSet(su)
    ensures Lawful(su, map[], [], State(su.start, {}, 0, 0, []))
  {
    EmptyBook(su.lim);
    assert Booked(map[], []);
    assert GainedBy(su, []) == {} && IdsOf(su.pb, []) == {};
  }

  /** Two laws speak of the shapes. */
  lemma OnlyShapes(su: Setup, shapes: Shapes, shapes': Shapes, log: seq<AttemptRec>, s: State)
    requires Lawful(su, shapes, log, s) && BookOk(shapes', su.lim, |log|, s.newTotal) && LogOk(shapes', log, s.covered)
    ensures Lawful(su, shapes', log, s)
  {
    forall law ensures Keeps(law, su, shapes', log, s) {
      assert Keeps(law, su, shapes, log, s);
    }
  }

  /** A shape seen for the first time changes no law. */
  lemma LawfulRegistered(su: Setup, shapes: Shapes, log: seq<AttemptRec>, s: State, key: string)
    requires Lawful(su, shapes, log, s) && key !in shapes
    ensures Lawful(su, shapes[key := NewShape(key)], log, s)
  {
    LawsOfShapes(su, shapes, log, s);
    RegisteredBook(shapes, su.lim, |log|, s.newTotal, key);
    RegisteredLog(shapes, log, s.covered, key);
    OnlyShapes(su, shapes, shapes[key := NewShape(key)], log, s);
  }

  lemma ShapeIsOk(su: Setup, shapes: Shapes, log: seq<AttemptRec>, s: State, key: string)
    requires Lawful(su, shapes, log, s) && key in shapes
    ensures ShapeOk(shapes[key]) && (shapes[key].blacklisted <==> StateOf(shapes, key).blacklisted)
  {
    LawsOfShapes(su, shapes, log, s);
    assert ShapeEntryOk(shapes[key], su.lim);
  }

  /** The stored mark of a shape is what the log says. */
  lemma MarkIsExact(su: Setup, shapes: Shapes, log: seq<AttemptRec>, s: State, key: string)
    requires Lawful(su, shapes, log, s)
    ensures StateOf(shapes, key).blacklisted <==> Barred(log, key)
  {
    LawsOfShapes(su, shapes, log, s);
    BlacklistExact(log, key);
  }

  /** The tests before a probe are those on the log. */
  lemma SkipIsExact(su: Setup, shapes: Shapes, log: seq<AttemptRec>, s: State, p: Probe)
    requires Lawful(su, shapes, log, s)
    ensures Skipped(su, log, p) <==>
            (p.i, p.j) !in su.pb.falsePairs || (p.i, p.j) in s.covered || StateOf(shapes, p.shape).blacklisted
  {
    LawsOfReplay(su, shapes, log, s);
    MarkIsExact(su, shapes, log, s, p.shape);
  }

  /** So are the tests before a cluster. */
  lemma OpenIsExact(su: Setup, shapes: Shapes, s: State, c: nat, a: Stage)
    requires Lawful(su, shapes, a.log, s)
    ensures Opens(su, c, a) <==>
            && !su.clock.run(a.ticks) && |a.log| < su.lim.totalCalls
            && s.tablesFound < su.lim.tables && s.newTotal < su.lim.newHits
            && su.pb.falsePairs - s.covered != {} && c <= su.lim.clusters
  {
    LawsOfReplay(su, shapes, a.log, s);
    assert forall p :: p in su.pb.falsePairs && p !in s.covered ==> p in su.pb.falsePairs - s.covered;
    assert forall p :: p in su.pb.falsePairs ==> (p in s.covered <==> CoveredBy(su, a.log, p));
  }

  /** What the laws say at the end of a run. */
  lemma LawfulTotals(su: Setup, shapes: Shapes, log: seq<AttemptRec>, s: State)
    requires Lawful(su, shapes, log, s)
    ensures |log| == Sum(Calls(shapes)) && LogOk(shapes, log, s.covered) && Answered(su, log) && Replayed(su, log, s)
    ensures s.newTotal == |s.recoveries| == Sum(HitCounts(shapes)) == |s.covered - su.start|
    ensures forall key :: StateOf(shapes, key).blacklisted <==> Barred(log, key)
    ensures forall k :: k in shapes && shapes[k].hits == 0 ==> shapes[k].calls <= 47 + ProbeCap(su.lim)
  {
    LawsOfShapes(su, shapes, log, s);
    LawsOfReplay(su, shapes, log, s);
    forall k | k in shapes && shapes[k].hits == 0 ensures shapes[k].calls <= 47 + ProbeCap(su.lim) {
      assert ShapeEntryOk(shapes[k], su.lim);
    }
    forall key ensures StateOf(shapes, key).blacklisted <==> Barred(log, key) {
      MarkIsExact(su, shapes, log, s, key);
    }
  }

  /** One more call of a probe that began with `st0` and has made `k` calls. */
  lemma LawfulNext(su: Setup, shapes: Shapes, log: seq<AttemptRec>, s: State, rec: AttemptRec, s': State, st0: Shape, k: nat)
    requires Lawful(su, shapes, log, s) && Answers(su, |log|, rec) && Replays(su, s, rec, s') && CountsExact(su.start, s')
    requires (rec.i, rec.j) !in s.covered && (rec.hits > 0 ==> (rec.i, rec.j) in s'.covered)
    requires rec.shape in shapes && Reached(st0, shapes[rec.shape], k) && k < ProbeCap(su.lim)
    requires ShapeOk(st0) && !st0.blacklisted
    ensures var st := Updated(shapes[rec.shape], rec.answer, rec.hits);
            Lawful(su, shapes[rec.shape := st], log + [rec], s') && Reached(st0, st, k + 1)
  {
    var st := Updated(shapes[rec.shape], rec.answer, rec.hits);
    LawsOfShapes(su, shapes, log, s);
    LawsOfReplay(su, shapes, log, s);
    assert ShapeEntryOk(shapes[rec.shape], su.lim);
    ReplayedNext(su, log, s, rec, s');
    AnsweredNext(su, log, s, rec, s');
    UpdatedOk(st0, shapes[rec.shape], k, rec.answer, rec.hits);
    ProbeIsBounded(st0, st, k + 1, su.lim);
    BookAfter(shapes, su.lim, |log|, s.newTotal, rec.shape, st, |log| + 1, s'.newTotal);
    LogSnoc(shapes, shapes[rec.shape := st], log, rec, s.covered, s'.covered);
    var shapes', log' := shapes[rec.shape := st], log + [rec];
    forall law ensures Keeps(law, su, shapes', log', s') {
      assert Keeps(law, su, shapes, log, s);
    }
  }

  // --------------------------------------------------------- the controller

  /** The state of the inner loops of one probe. */
  datatype Progress = Progress(attempts: nat, hit: bool)

  class Controller {
    const lim: Limits
    const solve: Question -> Answer
    const clock: Clock
    const rp: Replayer
    ghost const start: set<IdPair>
    var shapes: Shapes
    var calls: nat
    var attempts: seq<AttemptRec>
    var counter: nat
    var ticks: nat

    ghost function Given(): Setup
    {
      Setup(rp.pb, lim, solve, clock, start)
    }

    ghost function Here(): Stage
      reads this
    {
      Stage(attempts, ticks)
    }

    /** Every counter agrees with every other, over the whole run. */
    ghost predicate Valid()
      reads this, rp
    {
      Lawful(Given(), shapes, attempts, rp.Now()) && calls == |attempts| && calls <= CallCap(lim)
    }

    constructor (lim: Limits, solve: Question -> Answer, clock: Clock, rp: Replayer)
      requires SoundSolver(solve) && Forward(clock) && WellPosed(rp.pb) && InjectiveId(rp.pb)
      requires rp.Now() == State(rp.covered, {}, 0, 0, [])
      ensures this.lim == lim && this.rp == rp && this.solve == solve && this.clock == clock && start == rp.covered
      ensures Valid() && calls == 0 && ticks == 0
    {
      this.lim, this.solve, this.clock, this.rp := lim, solve, clock, rp;
      start := rp.covered;
      shapes, calls, attempts, counter, ticks := map[], 0, [], 0, 0;
      new;
      LawfulAtStart(Given());
    }

    /** The inner state of a probe: what it has spent on its shape, and whether its pair is done. */
    ghost predicate InProbe(p: Probe, st0: Shape, pr: Progress)
      reads this, rp
    {
      && SoundProbe(rp.pb, p) && (p.i, p.j) in rp.pb.falsePairs
      && ShapeOk(st0) && !st0.blacklisted
      && p.shape in shapes && Reached(st0, shapes[p.shape], pr.attempts)
      && pr.attempts <= ProbeCap(lim)
      && (pr.hit <==> (p.i, p.j) in rp.covered)
    }

    /** Since `a` the probe has asked this plan. */
    ghost predicate Passed(a: Stage, p: Probe, pr: Progress, plan: seq<Trial>)
      reads this
    {
      && Planned(Given(), counter, a, Here(), p, plan)
      && calls == |attempts| == |a.log| + pr.attempts
      && (pr.hit <==> LastHit(a, Here()))
    }

    /** The time check of a probe. */
    method Late() returns (late: bool)
      modifies this`ticks
      ensures ticks == old(ticks) + 1 && (late <==> clock.cluster(counter, old(ticks)) || clock.run(old(ticks)))
    {
      late := clock.cluster(counter, ticks) || clock.run(ticks);
      ticks := ticks + 1;
    }

    /** Validation and replay of a table the solver returned for an uncovered pair: the checker
        always accepts it, and it always covers the pair. */
    method UseTable(p: Probe, table: Table, ghost q: Question) returns (hits: nat)
      requires WellPosed(rp.pb) && InjectiveId(rp.pb) && SoundProbe(rp.pb, p)
      requires SeenIsCovered(rp.pb, rp.Now()) && CountsExact(start, rp.Now())
      requires (p.i, p.j) in rp.pb.falsePairs && (p.i, p.j) !in rp.covered
      requires q.eq1 == rp.pb.eqs[p.i] && q.eq2 == rp.pb.eqs[p.j] && q.n > 0
      requires WitnessEnv(q.eq2, q.w) == q.w && InCarrier(q.eq2, q.w, q.n)
      requires |table| == q.n && FullRows(table) && Accepts(Nested, table, q.eq1, q.eq2, q.w, q.bias)
      modifies rp
      ensures hits > 0 && (p.i, p.j) in rp.covered && old(rp.covered) <= rp.covered
      ensures rp.covered == old(rp.covered) + Certified(rp.pb, table) && rp.newTotal == old(rp.newTotal) + hits
      ensures rp.pb.hash(table) !in old(rp.seen) && rp.seen == old(rp.seen) + {rp.pb.hash(table)}
      ensures rp.tablesFound == old(rp.tablesFound) + 1
      ensures CountsExact(start, rp.Now())
    {
      AcceptedPassesValidation(Nested, table, q.eq1, q.eq2, q.w, q.bias);
      var ok, _ := ValidateCountermodel(rp.pb.eqs[p.i], rp.pb.eqs[p.j], table);
      ghost var s := rp.Now();
      UncoveredIsGained(rp.pb, s, table, (p.i, p.j));
      StepKeepsSeenCovered(rp.pb, s, table);
      StepAdds(rp.pb, s, table);
      WellFormedKeepsCounts(rp.pb, start, s, table);
      NewPairsAreGain(rp.pb, table, s.covered);
      hits := 0;
      if ok {
        hits := rp.ReplaySatTable(table);
      }
    }

    /** The solver's answer, and the use of its table. */
    method Consult(p: Probe, n: nat, w: Env, bias: string) returns (rec: AttemptRec)
      requires Valid() && SoundProbe(rp.pb, p)
      requires (p.i, p.j) in rp.pb.falsePairs && (p.i, p.j) !in rp.covered
      requires n > 0 && WitnessEnv(rp.pb.eqs[p.j], w) == w && InCarrier(rp.pb.eqs[p.j], w, n)
      modifies rp
      ensures EntryOf(rec, p, Trial(n, w, bias))
      ensures Answers(Given(), calls, rec) && Replays(Given(), old(rp.Now()), rec, rp.Now())
      ensures rec.hits > 0 <==> (p.i, p.j) in rp.covered
      ensures CountsExact(start, rp.Now())
    {
      var q := Question(calls, rp.pb.eqs[p.i], rp.pb.eqs[p.j], n, w, bias);
      var a := solve(q);
      ghost var s := rp.Now();
      ReadyToReplay(Given(), shapes, attempts, s, q);
      var hits := 0;
      if a.Sat? {
        hits := UseTable(p, a.table, q);
      }
      rec := AttemptRec(p.i, p.j, p.shape, Trial(n, w, bias), a, hits);
      if a.Sat? {
        RefutedIsCertified(rp.pb, rec);
      }
    }

    /** Logs one call and updates the stored state of its shape (`update_shape_state`). */
    method Record(rec: AttemptRec, ghost st0: Shape, ghost k: nat, ghost before: State)
      requires Lawful(Given(), shapes, attempts, before) && calls == |attempts| && CountsExact(start, rp.Now())
      requires rec.shape in shapes && calls < CallCap(lim)
      requires ShapeOk(st0) && !st0.blacklisted && Reached(st0, shapes[rec.shape], k) && k < ProbeCap(lim)
      requires Answers(Given(), calls, rec) && Replays(Given(), before, rec, rp.Now())
      requires (rec.i, rec.j) !in before.covered && (rec.hits > 0 ==> (rec.i, rec.j) in rp.covered)
      modifies this`shapes, this`calls, this`attempts
      ensures Valid() && calls == old(calls) + 1 && attempts == old(attempts) + [rec]
      ensures shapes == old(shapes)[rec.shape := Updated(old(shapes)[rec.shape], rec.answer, rec.hits)]
      ensures Reached(st0, shapes[rec.shape], k + 1)
    {
      LawfulNext(Given(), shapes, attempts, before, rec, rp.Now(), st0, k);
      calls := calls + 1;
      attempts := attempts + [rec];
      shapes := shapes[rec.shape := Updated(shapes[rec.shape], rec.answer, rec.hits)];
    }

    /** One solver call: ask, validate, replay, log, update the shape. */
    method Ask(p: Probe, n: nat, w: Env, bias: string, pr: Progress, ghost st0: Shape, ghost a: Stage, ghost plan: seq<Trial>)
      returns (next: Progress, hits: nat)
      requires Valid() && InProbe(p, st0, pr) && Passed(a, p, pr, plan)
      requires !Halted(Given(), counter, a, Here())
      requires n > 0 && WitnessEnv(rp.pb.eqs[p.j], w) == w && InCarrier(rp.pb.eqs[p.j], w, n)
      modifies this`shapes, this`calls, this`attempts, rp
      ensures Valid() && InProbe(p, st0, next) && Passed(a, p, next, plan + [Trial(n, w, bias)])
      ensures next.attempts == pr.attempts + 1 && calls == old(calls) + 1
      ensures next.hit <==> hits > 0
      ensures OthersKept(old(shapes), shapes, p.shape)
    {
      ghost var before := rp.Now();
      var rec := Consult(p, n, w, bias);
      PlannedNext(Given(), counter, a, Here(), p, plan, rec);
      Record(rec, st0, pr.attempts, before);
      hits := rec.hits;
      next := Progress(pr.attempts + 1, hits > 0);
    }

    /** One bias of the bias loop, when there is time and a call left. */
    method TryBias(p: Probe, n: nat, w: Env, bias: string, pr: Progress, ghost st0: Shape, ghost a: Stage, ghost plan: seq<Trial>)
      returns (now: Progress, stop: bool)
      requires Valid() && InProbe(p, st0, pr) && Passed(a, p, pr, plan) && !pr.hit
      requires n > 0 && WitnessEnv(rp.pb.eqs[p.j], w) == w && InCarrier(rp.pb.eqs[p.j], w, n)
      modifies this`shapes, this`calls, this`attempts, this`ticks, rp
      ensures Valid() && InProbe(p, st0, now) && Passed(a, p, now, plan + [Trial(n, w, bias)])
      ensures if stop then Halted(Given(), counter, a, Here()) else !now.hit
      ensures OthersKept(old(shapes), shapes, p.shape) && now.attempts <= pr.attempts + 1
    {
      LawOfTime(Given(), shapes, attempts, rp.Now());
      PlannedTick(Given(), counter, a, Here(), p, plan);
      var late := Late();
      if late || calls >= lim.totalCalls || pr.attempts >= lim.probesPerPair {
        HaltedPlan(Given(), counter, a, Here(), p, plan, plan + [Trial(n, w, bias)]);
        return pr, true;
      }
      var hits;
      now, hits := Ask(p, n, w, bias, pr, st0, a, plan);
      stop := hits > 0;
    }

    /** The bias loop of one witness: at most one call for each bias. */
    method TryBiases(p: Probe, n: nat, w: Env, pr: Progress, ghost st0: Shape, ghost a: Stage, ghost plan: seq<Trial>)
      returns (now: Progress)
      requires Valid() && InProbe(p, st0, pr) && Passed(a, p, pr, plan) && !pr.hit
      requires n > 0 && WitnessEnv(rp.pb.eqs[p.j], w) == w && InCarrier(rp.pb.eqs[p.j], w, n)
      modifies this`shapes, this`calls, this`attempts, this`ticks, rp
      ensures Valid() && InProbe(p, st0, now) && Passed(a, p, now, plan + BiasPlan(n, w, p.biases))
      ensures OthersKept(old(shapes), shapes, p.shape) && now.attempts <= pr.attempts + |p.biases|
    {
      now := pr;
      ghost var block := BiasPlan(n, w, p.biases);
      assert plan + block[..0] == plan;
      for k := 0 to |p.biases|
        invariant Valid() && InProbe(p, st0, now) && Passed(a, p, now, plan + block[..k]) && !now.hit
        invariant OthersKept(old(shapes), shapes, p.shape) && now.attempts <= pr.attempts + k
      {
        assert plan + block[..k + 1] == plan + block[..k] + [block[k]];
        var stop;
        now, stop := TryBias(p, n, w, p.biases[k], now, st0, a, plan + block[..k]);
        if stop {
          HaltedPlan(Given(), counter, a, Here(), p, plan + block[..k + 1], plan + block);
          return;
        }
      }
      assert block[..|p.biases|] == block;
    }

    /** One offset of one partition: a partition with more blocks than elements costs nothing. */
    method TryOffset(p: Probe, n: nat, part: Partition, offset: nat, pr: Progress, ghost st0: Shape, ghost a: Stage,
      ghost plan: seq<Trial>, ghost blocks: seq<seq<Trial>>) returns (now: Progress)
      requires Valid() && InProbe(p, st0, pr) && !pr.hit
      requires Labels(rp.pb.eqs[p.j], part) && OffsetsPlanned(part, n, p.biases, blocks) && offset < |blocks|
      requires Passed(a, p, pr, plan + Flatten(blocks, offset))
      modifies this`shapes, this`calls, this`attempts, this`ticks, rp
      ensures Valid() && InProbe(p, st0, now) && Passed(a, p, now, plan + Flatten(blocks, offset + 1))
      ensures OthersKept(old(shapes), shapes, p.shape)
      ensures |SortedSet(part.blocks, IntLess)| > n ==> now == pr
    {
      ghost var passed := plan + Flatten(blocks, offset);
      BlockNext(plan, blocks, offset);
      OffsetAsks(rp.pb.eqs[p.j], part, n, p.biases, blocks, offset);
      var w := WitnessValues(part, n, offset);
      if w.None? {
        assert passed + [] == passed;
        return pr;
      }
      now := TryBiases(p, n, w.value, pr, st0, a, passed);
    }

    /** The offset loop of one partition. */
    method TryOffsets(p: Probe, n: nat, part: Partition, pr: Progress, ghost st0: Shape, ghost a: Stage, ghost plan: seq<Trial>,
      ghost blocks: seq<seq<Trial>>) returns (now: Progress)
      requires Valid() && InProbe(p, st0, pr) && Passed(a, p, pr, plan) && !pr.hit
      requires Labels(rp.pb.eqs[p.j], part) && OffsetsPlanned(part, n, p.biases, blocks)
      modifies this`shapes, this`calls, this`attempts, this`ticks, rp
      ensures Valid() && InProbe(p, st0, now) && Passed(a, p, now, plan + Flatten(blocks, |blocks|))
      ensures OthersKept(old(shapes), shapes, p.shape)
      ensures |SortedSet(part.blocks, IntLess)| > n ==> now == pr
    {
      now := pr;
      ghost var m: nat, tooMany := 0, |SortedSet(part.blocks, IntLess)| > n;
      assert plan + Flatten(blocks, 0) == plan;
      for offset := 0 to if n < 3 then n else 3
        invariant m == offset && Valid() && InProbe(p, st0, now) && Passed(a, p, now, plan + Flatten(blocks, m)) && !now.hit
        invariant OthersKept(old(shapes), shapes, p.shape) && (tooMany ==> now == pr)
      {
        now := TryOffset(p, n, part, offset, now, st0, a, plan, blocks);
        m := m + 1;
        if now.hit || now.attempts >= lim.probesPerPair { break; }
      }
      BlocksDone(Given(), counter, a, Here(), p, plan, blocks, m);
    }

    /** One partition of one carrier. */
    method TryPartition(p: Probe, n: nat, k: nat, pr: Progress, ghost st0: Shape, ghost a: Stage, ghost plan: seq<Trial>,
      ghost blocks: seq<seq<Trial>>) returns (now: Progress)
      requires k < |p.partitions(n)| && AllSized(p.partitions(n)) && PartitionsPlanned(p.partitions(n), n, p.biases, blocks)
      requires Valid() && InProbe(p, st0, pr) && Passed(a, p, pr, plan + Flatten(blocks, k)) && !pr.hit
      modifies this`shapes, this`calls, this`attempts, this`ticks, rp
      ensures Valid() && InProbe(p, st0, now) && Passed(a, p, now, plan + Flatten(blocks, k + 1))
      ensures OthersKept(old(shapes), shapes, p.shape)
    {
      ghost var inner := OffsetsOf(p.partitions(n), n, p.biases, blocks, k);
      BlockNext(plan, blocks, k);
      now := TryOffsets(p, n, p.partitions(n)[k], pr, st0, a, plan + Flatten(blocks, k), inner);
    }

    /** The partition loop of one carrier. */
    method TryPartitions(p: Probe, n: nat, pr: Progress, ghost st0: Shape, ghost a: Stage, ghost plan: seq<Trial>,
      ghost blocks: seq<seq<Trial>>) returns (now: Progress)
      requires Valid() && InProbe(p, st0, pr) && Passed(a, p, pr, plan)
      requires AllSized(p.partitions(n)) && PartitionsPlanned(p.partitions(n), n, p.biases, blocks)
      modifies this`shapes, this`calls, this`attempts, this`ticks, rp
      ensures Valid() && InProbe(p, st0, now) && Passed(a, p, now, plan + Flatten(blocks, |blocks|))
      ensures OthersKept(old(shapes), shapes, p.shape) && (pr.hit ==> now == pr)
    {
      now := pr;
      var parts := p.partitions(n);
      ghost var m: nat := 0;
      assert plan + Flatten(blocks, 0) == plan;
      for k := 0 to |parts|
        invariant m == k && Valid() && InProbe(p, st0, now) && Passed(a, p, now, plan + Flatten(blocks, m))
        invariant OthersKept(old(shapes), shapes, p.shape) && (pr.hit ==> now == pr)
      {
        if now.hit { break; }
        now := TryPartition(p, n, k, now, st0, a, plan, blocks);
        m := m + 1;
        if now.hit || now.attempts >= lim.probesPerPair { break; }
      }
      BlocksDone(Given(), counter, a, Here(), p, plan, blocks, m);
    }

    /** `get_shape_state`: a shape seen for the first time gets a state of zeros. */
    method Register(key: string)
      requires Valid()
      modifies this`shapes
      ensures Valid() && shapes == if key in old(shapes) then old(shapes) else old(shapes)[key := Shape(key, 0, 0, 0, 0, 0, false)]
    {
      if key !in shapes {
        LawfulRegistered(Given(), shapes, attempts, rp.Now(), key);
        shapes := shapes[key := NewShape(key)];
      }
    }

    /** The carrier loop of one probe. */
    method TryCarriers(p: Probe, pr: Progress, ghost st0: Shape, ghost a: Stage, ghost blocks: seq<seq<Trial>>)
      returns (now: Progress)
      requires Valid() && InProbe(p, st0, pr) && Passed(a, p, pr, []) && CarriersPlanned(rp.pb, lim, p, blocks)
      modifies this`shapes, this`calls, this`attempts, this`ticks, rp
      ensures Valid() && InProbe(p, st0, now) && Passed(a, p, now, Flatten(blocks, |blocks|))
      ensures OthersKept(old(shapes), shapes, p.shape)
    {
      now := pr;
      for k := 0 to |p.carriers|
        invariant Valid() && InProbe(p, st0, now) && Passed(a, p, now, Flatten(blocks, k))
        invariant OthersKept(old(shapes), shapes, p.shape)
      {
        var n := p.carriers[k];
        ghost var passed := Flatten(blocks, k);
        ghost var inner := PartitionsOf(rp.pb, lim, p, blocks, k);
        if now.hit {
          HaltedPlan(Given(), counter, a, Here(), p, passed, passed + blocks[k]);
        }
        assert passed + [] == passed;
        if now.hit || Pow(n, |EqVars(rp.pb.eqs[p.i])|) > lim.sourceAssignments { continue; }
        now := TryPartitions(p, n, now, st0, a, passed, inner);
      }
    }

    /** One probe of the selected rows. A covered pair or a blacklisted shape costs nothing; any
        other asks the questions of its schedule in order, until it hits or is halted. */
    method RunProbe(p: Probe)
      requires Valid() && SoundProbe(rp.pb, p)
      modifies this`shapes, this`calls, this`attempts, this`ticks, rp
      ensures Valid() && Frozen(old(shapes), shapes) && OthersKept(old(shapes), shapes, p.shape)
      ensures ProbeRan(Given(), counter, old(Here()), Here(), p)
      ensures old(StateOf(shapes, p.shape).blacklisted || (p.i, p.j) in rp.covered || (p.i, p.j) !in rp.pb.falsePairs)
              ==> calls == old(calls) && attempts == old(attempts) && rp.Now() == old(rp.Now())
      ensures calls <= old(calls) + ProbeCap(lim)
    {
      SkipIsExact(Given(), shapes, attempts, rp.Now(), p);
      if (p.i, p.j) !in rp.pb.falsePairs || (p.i, p.j) in rp.covered { return; }
      Register(p.shape);
      ShapeIsOk(Given(), shapes, attempts, rp.Now(), p.shape);
      if shapes[p.shape].blacklisted { return; }
      PlannedAtStart(Given(), counter, Here(), p);
      ghost var blocks := CarriersOf(rp.pb, lim, p);
      ghost var a := Here();
      var _ := TryCarriers(p, Progress(0, false), shapes[p.shape], a, blocks);
      ProbeIsPlanned(Given(), counter, a, Here(), p, blocks);
    }

    /** One probe of a cluster, when there is time and a call left. */
    method ProbeInTime(p: Probe) returns (went: bool)
      requires Valid() && SoundProbe(rp.pb, p)
      modifies this`shapes, this`calls, this`attempts, this`ticks, rp
      ensures Valid() && Frozen(old(shapes), shapes)
      ensures if went then ProbeStep(Given(), counter, old(Here()), Here(), p)
              else !GoesOn(Given(), counter, old(Here())) && Here() == Tick(old(Here()))
    {
      var late := Late();
      went := !late && calls < lim.totalCalls;
      if went {
        RunProbe(p);
      }
    }

    /** The selected rows of one target cluster. */
    method RunCluster(probes: seq<Probe>) returns (ghost r: ClusterRun)
      requires Valid() && AllSound(rp.pb, probes)
      modifies this`shapes, this`calls, this`attempts, this`ticks, rp
      ensures Valid() && Frozen(old(shapes), shapes)
      ensures ClusterRan(Given(), counter, old(Here()), probes, r) && Here() == r.end
    {
      ghost var stages := [Here()];
      for k := 0 to |probes|
        invariant Valid() && Frozen(old(shapes), shapes)
        invariant |stages| == k + 1 && stages[0] == old(Here()) && stages[k] == Here()
        invariant ProbesRan(Given(), counter, probes, stages)
      {
        var went := ProbeInTime(probes[k]);
        if !went {
          return ClusterRun(stages, Here());
        }
        ProbesRanNext(Given(), counter, probes, stages, Here());
        stages := stages + [Here()];
      }
      r := ClusterRun(stages, Here());
    }

    /** The tests before a cluster. */
    method MayOpen() returns (go: bool)
      requires Valid()
      modifies this`counter, this`ticks
      ensures Valid() && ticks == old(ticks) + 1
      ensures go <==> Opens(Given(), old(counter) + 1, old(Here()))
      ensures go ==> counter == old(counter) + 1
    {
      OpenIsExact(Given(), shapes, rp.Now(), counter + 1, Here());
      var late := clock.run(ticks);
      ticks := ticks + 1;
      if late || calls >= lim.totalCalls || rp.tablesFound >= lim.tables || rp.newTotal >= lim.newHits
         || rp.pb.falsePairs - rp.covered == {} { return false; }
      counter := counter + 1;
      go := counter <= lim.clusters;
    }

    /** The main loop over the cluster plan. */
    method RunClusters(clusters: seq<seq<Probe>>) returns (ghost runs: seq<ClusterRun>)
      requires Valid() && PlanIsSound(rp.pb, clusters)
      modifies this`shapes, this`calls, this`attempts, this`counter, this`ticks, rp
      ensures Valid() && Frozen(old(shapes), shapes)
      ensures SearchRan(Given(), old(Here()), clusters, runs, Here())
    {
      runs := [];
      counter := 0;
      ghost var first := Here();
      for c := 0 to |clusters|
        invariant Valid() && Frozen(old(shapes), shapes)
        invariant counter == c == |runs| && Here() == StageBefore(first, runs, c)
        invariant ClustersRan(Given(), first, clusters, runs)
      {
        var go := MayOpen();
        if !go { break; }
        ghost var r := RunCluster(clusters[c]);
        ClustersRanNext(Given(), first, clusters, runs, r);
        runs := runs + [r];
      }
    }

    /** The whole search. */
    method RunSearch(clusters: seq<seq<Probe>>) returns (ghost runs: seq<ClusterRun>)
      requires Valid() && PlanIsSound(rp.pb, clusters)
      modifies this`shapes, this`calls, this`attempts, this`counter, this`ticks, rp
      ensures Valid() && Frozen(old(shapes), shapes)
      ensures SearchRan(Given(), old(Here()), clusters, runs, Here())
      ensures forall key :: StateOf(shapes, key).blacklisted <==> Barred(attempts, key)
      ensures calls == |attempts| == Sum(Calls(shapes)) && calls <= CallCap(lim)
      ensures rp.newTotal == |rp.recoveries| == Sum(HitCounts(shapes)) == |rp.covered - start|
      ensures LogOk(shapes, attempts, rp.covered)
      ensures Answered(Given(), attempts) && Replayed(Given(), attempts, rp.Now())
      ensures forall k :: k in shapes && shapes[k].hits == 0 ==> shapes[k].calls <= 47 + ProbeCap(lim)
    {
      runs := RunClusters(clusters);
      LawfulTotals(Given(), shapes, attempts, rp.Now());
    }
  }

  // ------------------------------------------------- what an uncovered pair tells

  lemma HitCovers(su: Setup, c: nat, a: Stage, b: Stage, end: Stage, p: Probe, plan: seq<Trial>, covered: set<IdPair>)
    requires Planned(su, c, a, b, p, plan) && LastHit(a, b) && GrowsTo(b, end) && StopsAtHit(end.log, covered)
    ensures (p.i, p.j) in covered
  {
    var k := |b.log| - 1;
    assert AsksAt(b.log, |a.log|, k - |a.log|, p, plan);
    assert end.log[k] == b.log[k] && HitIsCovered(end.log, k, covered);
  }

  /** A probe that ran leaves its pair covered, its shape blacklisted, or its schedule tried. */
  lemma ProbeTried(su: Setup, c: nat, a: Stage, b: Stage, end: Stage, p: Probe, covered: set<IdPair>)
    requires SoundProbe(su.pb, p) && ProbeRan(su, c, a, b, p) && GrowsTo(b, end) && StopsAtHit(end.log, covered)
    requires (p.i, p.j) in su.pb.falsePairs && (p.i, p.j) !in covered && !CoveredBy(su, end.log, (p.i, p.j))
    ensures Barred(end.log, p.shape) || Tried(su, end.log, p) || |end.log| >= su.lim.totalCalls || TimeWasOver(su, c, end)
  {
    var plan := ProbeOutcome(su, c, a, b, p);
    GrowsOn(a, b, end);
    if Skipped(su, a.log, p) {
      if CoveredBy(su, a.log, (p.i, p.j)) {
        CoveredGrows(su, a, end, (p.i, p.j));
      } else {
        BlacklistIsFinal(end.log, |a.log|, p.shape);
      }
    } else if LastHit(a, b) {
      HitCovers(su, c, a, b, end, p, plan, covered);
    } else if Spent(su, c, a, b) {
      assert |b.log| >= su.lim.totalCalls || Over(su.clock, c, b.ticks - 1);
    } else {
      PlannedIsTried(su, c, a, b, end, p, plan);
    }
  }

  /** A cluster or a probe that was not reached was cut off by a budget. */
  lemma NotReached(su: Setup, first: Stage, clusters: seq<seq<Probe>>, runs: seq<ClusterRun>, end: Stage, c: nat, k: nat, q: IdPair)
    requires PlanIsSound(su.pb, clusters) && SearchRan(su, first, clusters, runs, end)
    requires c < |clusters| && k < |clusters[c]| && (c < |runs| ==> k + 1 >= |runs[c].stages|)
    requires q in su.pb.falsePairs && !CoveredBy(su, end.log, q)
    ensures |end.log| >= su.lim.totalCalls || TimeWasOver(su, c + 1, end) || c + 1 > su.lim.clusters
         || |IdsOf(su.pb, end.log)| >= su.lim.tables || |GainedBy(su, end.log)| >= su.lim.newHits
  {
    if c < |runs| {
      assert ClusterAt(su, first, clusters, runs, c);
      SearchGrows(su, first, clusters, runs, end, c, |runs[c].stages| - 1);
      var last := runs[c].stages[|runs[c].stages| - 1];
      assert |last.log| >= su.lim.totalCalls || Over(su.clock, c + 1, last.ticks);
    } else {
      var last := StageBefore(first, runs, |runs|);
      assert end == Tick(last) && !Opens(su, |runs| + 1, last);
      assert su.clock.run(last.ticks) ==> Over(su.clock, c + 1, last.ticks);
    }
  }

  /** An uncovered FALSE pair of the plan was given up for a reason: its shape is blacklisted, its
      schedule was tried in full, or a budget of the run was used up. */
  lemma UncoveredWasTried(su: Setup, first: Stage, clusters: seq<seq<Probe>>, runs: seq<ClusterRun>, end: Stage, s: State, c: nat, k: nat)
    requires PlanIsSound(su.pb, clusters) && SearchRan(su, first, clusters, runs, end)
    requires StopsAtHit(end.log, s.covered) && Replayed(su, end.log, s)
    requires c < |clusters| && k < |clusters[c]|
    ensures var p := clusters[c][k];
            (p.i, p.j) !in su.pb.falsePairs || (p.i, p.j) in s.covered
            || Barred(end.log, p.shape) || Tried(su, end.log, p)
            || |end.log| >= su.lim.totalCalls || TimeWasOver(su, c + 1, end) || c + 1 > su.lim.clusters
            || s.tablesFound >= su.lim.tables || s.newTotal >= su.lim.newHits
  {
    var p := clusters[c][k];
    if (p.i, p.j) in su.pb.falsePairs && (p.i, p.j) !in s.covered {
      assert !CoveredBy(su, end.log, (p.i, p.j));
      if c < |runs| && k + 1 < |runs[c].stages| {
        assert ClusterAt(su, first, clusters, runs, c);
        assert ProbeAt(su, c + 1, clusters[c], runs[c].stages, k);
        SearchGrows(su, first, clusters, runs, end, c, k + 1);
        ProbeTried(su, c + 1, Tick(runs[c].stages[k]), runs[c].stages[k + 1], end, p, s.covered);
      } else {
        NotReached(su, first, clusters, runs, end, c, k, (p.i, p.j));
      }
    }
  }
}
