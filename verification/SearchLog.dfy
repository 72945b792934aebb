/** The attempt log of the residual search: what it must say about the blacklist, the questions and the replay. */
module SearchLog {
  import opened Encoding
  import opened Magma
  import opened Orders
  import opened Partitions
  import opened Products
  import opened Replay
  import opened Results
  import opened Terms
  import opened Witness

  datatype Answer = Sat(table: Table) | Unsat | Unknown

  /** A solver question: the call number, the pair, the carrier, the witness and the bias. */
  datatype Question = Question(call: nat, eq1: Equation, eq2: Equation, n: nat, w: Env, bias: string)

  datatype Limits = Limits(
    totalCalls: int,
    probesPerPair: int,
    sourceAssignments: int,
    tables: int,
    newHits: int,
    clusters: int)

  /** A selected row: the pair, its source shape, and its schedules. */
  datatype Probe = Probe(
    i: nat,
    j: nat,
    shape: string,
    carriers: seq<nat>,
    partitions: nat -> seq<Partition>,
    biases: seq<string>)

  /** What one call asks the solver about its pair: carrier, witness and bias. */
  datatype Trial = Trial(n: nat, w: Env, bias: string)

  datatype AttemptRec = AttemptRec(i: nat, j: nat, shape: string, trial: Trial, answer: Answer, hits: nat)

  ghost predicate SoundAnswer(q: Question, a: Answer)
  {
    a.Sat? && q.n > 0 ==>
      |a.table| == q.n && FullRows(a.table) && Accepts(Nested, a.table, q.eq1, q.eq2, q.w, q.bias)
  }

  /** The solver returns some table satisfying its constraints, or no table. */
  ghost predicate SoundSolver(solve: Question -> Answer)
  {
    forall q :: SoundAnswer(q, solve(q))
  }

  ghost predicate LabelsAll(eq: Equation, parts: seq<Partition>)
  {
    forall k :: 0 <= k < |parts| ==> Labels(eq, parts[k])
  }

  /** The listed partitions of a target are labellings of its variables. */
  ghost predicate SoundProbe(pb: Problem, p: Probe)
  {
    && p.i < |pb.eqs| && p.j < |pb.eqs|
    && forall n :: LabelsAll(pb.eqs[p.j], p.partitions(n))
  }

  // ---------------------------------------------- the blacklist, from the log alone

  datatype CallKind = AnyCall | UnsatCall | UnknownCall

  predicate IsKind(rec: AttemptRec, key: string, kind: CallKind)
  {
    rec.shape == key && (kind.UnsatCall? ==> rec.answer.Unsat?) && (kind.UnknownCall? ==> rec.answer.Unknown?)
  }

  /** The positions of the first `n` log entries that are calls of this kind for the shape. */
  ghost function CallsFor(log: seq<AttemptRec>, key: string, kind: CallKind, n: nat): set<nat>
    requires n <= |log|
  {
    set k: nat | k < n && IsKind(log[k], key, kind)
  }

  /** The first `n` entries have no hit for the shape, and at least 32 unsat answers, 18 unknown
      answers or 48 calls for it. */
  ghost predicate BarredAt(log: seq<AttemptRec>, key: string, n: nat)
    requires n <= |log|
  {
    && (forall k :: 0 <= k < n && log[k].shape == key ==> log[k].hits == 0)
    && (|CallsFor(log, key, UnsatCall, n)| >= 32 || |CallsFor(log, key, UnknownCall, n)| >= 18
        || |CallsFor(log, key, AnyCall, n)| >= 48)
  }

  ghost predicate Barred(log: seq<AttemptRec>, key: string)
  {
    exists n: nat :: n <= |log| && BarredAt(log, key, n)
  }

  lemma OneMoreCall(log: seq<AttemptRec>, key: string, kind: CallKind, n: nat)
    requires n < |log|
    ensures |CallsFor(log, key, kind, n + 1)| == |CallsFor(log, key, kind, n)| + if IsKind(log[n], key, kind) then 1 else 0
  {
    var before, after := CallsFor(log, key, kind, n), CallsFor(log, key, kind, n + 1);
    assert after == before + if IsKind(log[n], key, kind) then {n} else {};
  }

  lemma SameCalls(log: seq<AttemptRec>, init: seq<AttemptRec>, key: string, kind: CallKind, n: nat)
    requires n <= |init| <= |log| && init == log[..|init|]
    ensures CallsFor(log, key, kind, n) == CallsFor(init, key, kind, n)
  {
  }

  lemma SameBar(log: seq<AttemptRec>, init: seq<AttemptRec>, key: string, n: nat)
    requires n <= |init| <= |log| && init == log[..|init|]
    ensures BarredAt(log, key, n) <==> BarredAt(init, key, n)
  {
    SameCalls(log, init, key, UnsatCall, n);
    SameCalls(log, init, key, UnknownCall, n);
    SameCalls(log, init, key, AnyCall, n);
    assert forall k :: 0 <= k < n ==> init[k] == log[k];
  }

  /** The blacklist is never lifted: a shape blacklisted by the first entries of a log is blacklisted
      by all of it, whatever the later answers are. */
  lemma BlacklistIsFinal(log: seq<AttemptRec>, n: nat, key: string)
    requires n <= |log| && Barred(log[..n], key)
    ensures Barred(log, key)
  {
    var m: nat :| m <= n && BarredAt(log[..n], key, m);
    SameBar(log, log[..n], key, m);
  }

  // ------------------------------------------------------- what a probe is to ask

  /** The first `k` blocks, one after the other. */
  ghost function Flatten(blocks: seq<seq<Trial>>, k: nat): seq<Trial>
    requires k <= |blocks|
  {
    if k == 0 then [] else Flatten(blocks, k - 1) + blocks[k - 1]
  }

  lemma {:induction false} FlattenHas(blocks: seq<seq<Trial>>, k: nat, t: Trial)
    requires k <= |blocks|
    ensures t in Flatten(blocks, k) <==> exists l: nat :: l < k && t in blocks[l]
  {
    if k == 0 {
    } else {
      FlattenHas(blocks, k - 1, t);
    }
  }

  lemma {:induction false} FlattenGrows(blocks: seq<seq<Trial>>, k: nat, l: nat)
    requires k <= l <= |blocks|
    ensures Flatten(blocks, k) <= Flatten(blocks, l)
  {
    if k == l {
    } else {
      FlattenGrows(blocks, k, l - 1);
    }
  }

  /** The biases of one witness, in order. */
  ghost function BiasPlan(n: nat, w: Env, biases: seq<string>): (r: seq<Trial>)
    ensures |r| == |biases| && forall k :: 0 <= k < |r| ==> r[k] == Trial(n, w, biases[k])
  {
    seq(|biases|, k requires 0 <= k < |biases| => Trial(n, w, biases[k]))
  }

  ghost predicate Sized(part: Partition)
  {
    |part.items| == |part.blocks|
  }

  /** One offset of one partition; nothing when the partition does not fit the carrier. */
  ghost function OffsetBlock(part: Partition, n: nat, biases: seq<string>, o: nat): seq<Trial>
    requires Sized(part)
  {
    var w := WitnessValues(part, n, o);
    if w.None? then [] else BiasPlan(n, w.value, biases)
  }

  /** At most three offsets, in order. */
  ghost function OffsetBlocks(part: Partition, n: nat, biases: seq<string>): (r: seq<seq<Trial>>)
    requires Sized(part)
    ensures |r| == (if n < 3 then n else 3) && forall o :: 0 <= o < |r| ==> r[o] == OffsetBlock(part, n, biases, o)
  {
    seq(if n < 3 then n else 3, o requires 0 <= o => OffsetBlock(part, n, biases, o))
  }

  ghost function OffsetPlan(part: Partition, n: nat, biases: seq<string>): seq<Trial>
    requires Sized(part)
  {
    Flatten(OffsetBlocks(part, n, biases), |OffsetBlocks(part, n, biases)|)
  }

  ghost predicate AllSized(parts: seq<Partition>)
  {
    forall l :: 0 <= l < |parts| ==> Sized(parts[l])
  }

  ghost function PartitionBlocks(parts: seq<Partition>, n: nat, biases: seq<string>): (r: seq<seq<Trial>>)
    requires AllSized(parts)
    ensures |r| == |parts| && forall l :: 0 <= l < |r| ==> r[l] == OffsetPlan(parts[l], n, biases)
  {
    seq(|parts|, l requires 0 <= l < |parts| => OffsetPlan(parts[l], n, biases))
  }

  ghost function PartitionPlan(parts: seq<Partition>, n: nat, biases: seq<string>): seq<Trial>
    requires AllSized(parts)
  {
    Flatten(PartitionBlocks(parts, n, biases), |parts|)
  }

  /** One carrier; nothing when the source law has too many assignments on it. */
  ghost function CarrierBlock(pb: Problem, lim: Limits, p: Probe, n: nat): seq<Trial>
    requires SoundProbe(pb, p) && AllSized(p.partitions(n))
  {
    if Pow(n, |EqVars(pb.eqs[p.i])|) > lim.sourceAssignments then []
    else PartitionPlan(p.partitions(n), n, p.biases)
  }

  ghost function CarrierBlocks(pb: Problem, lim: Limits, p: Probe): (r: seq<seq<Trial>>)
    requires SoundProbe(pb, p)
    ensures |r| == |p.carriers| && forall c :: 0 <= c < |r| ==> AllSized(p.partitions(p.carriers[c])) && r[c] == CarrierBlock(pb, lim, p, p.carriers[c])
  {
    assert forall n :: AllSized(p.partitions(n));
    seq(|p.carriers|, c requires 0 <= c < |p.carriers| => CarrierBlock(pb, lim, p, p.carriers[c]))
  }

  /** All questions of a probe, in order. */
  ghost function Schedule(pb: Problem, lim: Limits, p: Probe): seq<Trial>
    requires SoundProbe(pb, p)
  {
    Flatten(CarrierBlocks(pb, lim, p), |p.carriers|)
  }

  ghost predicate OffsetBlockIs(part: Partition, n: nat, biases: seq<string>, blocks: seq<seq<Trial>>, o: nat)
    requires Sized(part) && o < |blocks|
  {
    blocks[o] == OffsetBlock(part, n, biases, o)
  }

  /** The blocks are those of the offsets of a partition. */
  ghost predicate OffsetsPlanned(part: Partition, n: nat, biases: seq<string>, blocks: seq<seq<Trial>>)
    requires Sized(part)
  {
    && |blocks| == (if n < 3 then n else 3)
    && forall o {:trigger OffsetBlockIs(part, n, biases, blocks, o)} :: 0 <= o < |blocks| ==> OffsetBlockIs(part, n, biases, blocks, o)
  }

  ghost predicate PartitionBlockIs(parts: seq<Partition>, n: nat, biases: seq<string>, blocks: seq<seq<Trial>>, l: nat)
    requires AllSized(parts) && l < |parts| && l < |blocks|
  {
    blocks[l] == OffsetPlan(parts[l], n, biases)
  }

  /** The blocks are those of the listed partitions. */
  ghost predicate PartitionsPlanned(parts: seq<Partition>, n: nat, biases: seq<string>, blocks: seq<seq<Trial>>)
    requires AllSized(parts)
  {
    && |blocks| == |parts|
    && forall l {:trigger PartitionBlockIs(parts, n, biases, blocks, l)} :: 0 <= l < |blocks| ==> PartitionBlockIs(parts, n, biases, blocks, l)
  }

  ghost predicate CarrierBlockIs(pb: Problem, lim: Limits, p: Probe, blocks: seq<seq<Trial>>, c: nat)
    requires SoundProbe(pb, p) && c < |p.carriers| && c < |blocks|
  {
    AllSized(p.partitions(p.carriers[c])) && blocks[c] == CarrierBlock(pb, lim, p, p.carriers[c])
  }

  /** The blocks are those of the carriers of a probe. */
  ghost predicate CarriersPlanned(pb: Problem, lim: Limits, p: Probe, blocks: seq<seq<Trial>>)
    requires SoundProbe(pb, p)
  {
    && |blocks| == |p.carriers|
    && forall c {:trigger CarrierBlockIs(pb, lim, p, blocks, c)} :: 0 <= c < |blocks| ==> CarrierBlockIs(pb, lim, p, blocks, c)
  }

  lemma OffsetsOf(parts: seq<Partition>, n: nat, biases: seq<string>, outer: seq<seq<Trial>>, l: nat) returns (blocks: seq<seq<Trial>>)
    requires AllSized(parts) && PartitionsPlanned(parts, n, biases, outer) && l < |parts|
    ensures OffsetsPlanned(parts[l], n, biases, blocks) && Flatten(blocks, |blocks|) == outer[l]
  {
    blocks := OffsetBlocks(parts[l], n, biases);
    assert PartitionBlockIs(parts, n, biases, outer, l);
  }

  lemma PartitionsOf(pb: Problem, lim: Limits, p: Probe, outer: seq<seq<Trial>>, c: nat) returns (blocks: seq<seq<Trial>>)
    requires SoundProbe(pb, p) && CarriersPlanned(pb, lim, p, outer) && c < |p.carriers|
    ensures var n := p.carriers[c];
            && AllSized(p.partitions(n)) && PartitionsPlanned(p.partitions(n), n, p.biases, blocks)
            && outer[c] == if Pow(n, |EqVars(pb.eqs[p.i])|) > lim.sourceAssignments then [] else Flatten(blocks, |blocks|)
  {
    assert CarrierBlockIs(pb, lim, p, outer, c);
    blocks := PartitionBlocks(p.partitions(p.carriers[c]), p.carriers[c], p.biases);
  }

  lemma CarriersOf(pb: Problem, lim: Limits, p: Probe) returns (blocks: seq<seq<Trial>>)
    requires SoundProbe(pb, p)
    ensures CarriersPlanned(pb, lim, p, blocks)
  {
    blocks := CarrierBlocks(pb, lim, p);
  }

  lemma CarriersAreSchedule(pb: Problem, lim: Limits, p: Probe, blocks: seq<seq<Trial>>)
    requires SoundProbe(pb, p) && CarriersPlanned(pb, lim, p, blocks)
    ensures Flatten(blocks, |blocks|) == Schedule(pb, lim, p)
  {
    forall c | 0 <= c < |blocks| ensures blocks[c] == CarrierBlocks(pb, lim, p)[c] {
      assert CarrierBlockIs(pb, lim, p, blocks, c);
    }
    assert blocks == CarrierBlocks(pb, lim, p);
  }

  /** What an offset asks for a labelling of the target: nothing, or every bias of a witness inside
      the carrier. */
  lemma OffsetAsks(eq: Equation, part: Partition, n: nat, biases: seq<string>, blocks: seq<seq<Trial>>, o: nat)
    requires Labels(eq, part) && OffsetsPlanned(part, n, biases, blocks) && o < |blocks|
    ensures var w := WitnessValues(part, n, o);
            if w.None? then blocks[o] == []
            else blocks[o] == BiasPlan(n, w.value, biases) && WitnessEnv(eq, w.value) == w.value && InCarrier(eq, w.value, n)
    ensures |SortedSet(part.blocks, IntLess)| > n ==> WitnessValues(part, n, o).None?
  {
    assert OffsetBlockIs(part, n, biases, blocks, o);
    if WitnessValues(part, n, o).Some? {
      PartitionWitnessFits(eq, part, n, o);
    }
  }

  /** The trial asks about the witness of this partition at offset `o`. */
  ghost predicate FitsAt(part: Partition, n: nat, o: nat, t: Trial)
    requires Sized(part)
  {
    t.n == n && WitnessValues(part, n, o) == Some(t.w)
  }

  lemma OffsetBlockHas(part: Partition, n: nat, biases: seq<string>, o: nat, t: Trial)
    requires Sized(part)
    ensures t in OffsetBlock(part, n, biases, o) <==> t.bias in biases && FitsAt(part, n, o, t)
  {
    var w := WitnessValues(part, n, o);
    if w.Some? && t.bias in biases && FitsAt(part, n, o, t) {
      var k :| 0 <= k < |biases| && biases[k] == t.bias;
      assert BiasPlan(n, w.value, biases)[k] == t;
    }
  }

  lemma OffsetPlanHas(part: Partition, n: nat, biases: seq<string>, t: Trial)
    requires Sized(part)
    ensures t in OffsetPlan(part, n, biases) <==> t.bias in biases && exists o: nat :: o < n && o < 3 && FitsAt(part, n, o, t)
  {
    var blocks := OffsetBlocks(part, n, biases);
    FlattenHas(blocks, |blocks|, t);
    forall o: nat | o < |blocks| ensures t in blocks[o] <==> t.bias in biases && FitsAt(part, n, o, t) {
      OffsetBlockHas(part, n, biases, o, t);
    }
  }

  /** The trial belongs to partition number `l` and offset `o` of carrier number `c` of the probe. */
  ghost predicate TrialOf(pb: Problem, lim: Limits, p: Probe, t: Trial, c: nat, l: nat, o: nat)
    requires SoundProbe(pb, p)
  {
    && c < |p.carriers| && t.n == p.carriers[c] && Pow(t.n, |EqVars(pb.eqs[p.i])|) <= lim.sourceAssignments
    && l < |p.partitions(t.n)| && o < t.n && o < 3
    && FitsAt(p.partitions(t.n)[l], t.n, o, t) && t.bias in p.biases
  }

  lemma CarrierBlockHas(pb: Problem, lim: Limits, p: Probe, c: nat, t: Trial)
    requires SoundProbe(pb, p) && c < |p.carriers|
    ensures t in CarrierBlocks(pb, lim, p)[c] <==> exists l: nat, o: nat :: TrialOf(pb, lim, p, t, c, l, o)
  {
    var n, parts := p.carriers[c], p.partitions(p.carriers[c]);
    var blocks := PartitionBlocks(parts, n, p.biases);
    FlattenHas(blocks, |parts|, t);
    if t in CarrierBlocks(pb, lim, p)[c] {
      var l: nat :| l < |parts| && t in blocks[l];
      OffsetPlanHas(parts[l], n, p.biases, t);
      var o: nat :| o < n && o < 3 && FitsAt(parts[l], n, o, t);
      assert TrialOf(pb, lim, p, t, c, l, o);
    }
    if exists l: nat, o: nat :: TrialOf(pb, lim, p, t, c, l, o) {
      var l: nat, o: nat :| TrialOf(pb, lim, p, t, c, l, o);
      OffsetPlanHas(parts[l], n, p.biases, t);
      assert t in blocks[l];
    }
  }

  /** A probe is to ask about every listed bias at every fitting offset of every partition, on every
      carrier that is not too large for its source law, and about nothing else. */
  lemma ScheduleExact(pb: Problem, lim: Limits, p: Probe, t: Trial)
    requires SoundProbe(pb, p)
    ensures t in Schedule(pb, lim, p) <==> exists c: nat, l: nat, o: nat :: TrialOf(pb, lim, p, t, c, l, o)
  {
    var blocks := CarrierBlocks(pb, lim, p);
    FlattenHas(blocks, |p.carriers|, t);
    forall c: nat | c < |p.carriers| ensures t in blocks[c] <==> exists l: nat, o: nat :: TrialOf(pb, lim, p, t, c, l, o) {
      CarrierBlockHas(pb, lim, p, c, t);
    }
    if exists c: nat, l: nat, o: nat :: TrialOf(pb, lim, p, t, c, l, o) {
      var c: nat, l: nat, o: nat :| TrialOf(pb, lim, p, t, c, l, o);
      assert t in blocks[c];
    }
  }

  // --------------------------------------------------------- what the log explains

  /** Numbered clock readings: whether the time of a cluster, or of the whole run, is over. */
  datatype Clock = Clock(cluster: (nat, nat) -> bool, run: nat -> bool)

  predicate Over(clock: Clock, c: nat, t: nat)
  {
    clock.cluster(c, t) || clock.run(t)
  }

  /** Time that is over stays over. */
  ghost predicate Forward(clock: Clock)
  {
    forall c, s, t :: s <= t && Over(clock, c, s) ==> Over(clock, c, t)
  }

  /** What a search is given. */
  datatype Setup = Setup(pb: Problem, lim: Limits, solve: Question -> Answer, clock: Clock, start: set<IdPair>)

  ghost predicate WellSet(su: Setup)
  {
    WellPosed(su.pb) && InjectiveId(su.pb) && SoundSolver(su.solve) && Forward(su.clock)
  }

  /** The table of an entry refutes the pair. */
  ghost predicate Refutes(pb: Problem, rec: AttemptRec, p: IdPair)
  {
    && rec.answer.Sat? && FullRows(rec.answer.table) && p.0 < |pb.eqs| && p.1 < |pb.eqs|
    && Certifies(pb, rec.answer.table, p)
  }

  /** The pair was covered from the start, or a table of the log refutes it. */
  ghost predicate CoveredBy(su: Setup, log: seq<AttemptRec>, p: IdPair)
  {
    p in su.start || exists k :: 0 <= k < |log| && Refutes(su.pb, log[k], p)
  }

  /** The FALSE pairs the log has newly covered. */
  ghost function GainedBy(su: Setup, log: seq<AttemptRec>): set<IdPair>
  {
    set p | p in su.pb.falsePairs && p !in su.start && CoveredBy(su, log, p)
  }

  /** The ids of the tables of the log. */
  ghost function IdsOf(pb: Problem, log: seq<AttemptRec>): set<string>
  {
    set k | 0 <= k < |log| && log[k].answer.Sat? :: pb.hash(log[k].answer.table)
  }

  /** The state of the replay is what the tables of the log make of the start. */
  ghost predicate Replayed(su: Setup, log: seq<AttemptRec>, s: State)
  {
    && s.covered == su.start + GainedBy(su, log) && s.newTotal == |GainedBy(su, log)|
    && s.seen == IdsOf(su.pb, log) && s.tablesFound == |s.seen|
  }

  /** The question of a call: its number, its pair, and what it asks. */
  ghost function QuestionOf(su: Setup, k: nat, rec: AttemptRec): Question
    requires rec.i < |su.pb.eqs| && rec.j < |su.pb.eqs|
  {
    Question(k, su.pb.eqs[rec.i], su.pb.eqs[rec.j], rec.trial.n, rec.trial.w, rec.trial.bias)
  }

  /** An entry for call number `k` holds the solver's answer, and it hits exactly on a table. */
  ghost predicate Answers(su: Setup, k: nat, rec: AttemptRec)
  {
    && rec.i < |su.pb.eqs| && rec.j < |su.pb.eqs|
    && rec.answer == su.solve(QuestionOf(su, k, rec))
    && (rec.answer.Sat? <==> rec.hits > 0)
    && (rec.answer.Sat? ==> FullRows(rec.answer.table))
  }

  /** Its hits are the pairs newly covered. */
  ghost predicate AnsweredAt(su: Setup, log: seq<AttemptRec>, k: nat)
    requires k < |log|
  {
    Answers(su, k, log[k]) && |GainedBy(su, log[..k + 1])| == |GainedBy(su, log[..k])| + log[k].hits
  }

  ghost predicate Answered(su: Setup, log: seq<AttemptRec>)
  {
    forall k :: 0 <= k < |log| ==> AnsweredAt(su, log, k)
  }

  /** What a call does to the replay: it adds the pairs its table refutes, and a new id. */
  ghost predicate Replays(su: Setup, s: State, rec: AttemptRec, s': State)
  {
    && s'.newTotal == s.newTotal + rec.hits
    && if rec.answer.Sat? then
         && s'.covered == s.covered + (set p | p in su.pb.falsePairs && Refutes(su.pb, rec, p))
         && su.pb.hash(rec.answer.table) !in s.seen && s'.seen == s.seen + {su.pb.hash(rec.answer.table)}
         && s'.tablesFound == s.tablesFound + 1
       else s' == s
  }

  lemma GainedNext(su: Setup, log: seq<AttemptRec>, rec: AttemptRec)
    ensures su.start + GainedBy(su, log + [rec]) ==
            su.start + GainedBy(su, log) + set p | p in su.pb.falsePairs && Refutes(su.pb, rec, p)
  {
    var after := log + [rec];
    assert after[|log|] == rec;
    forall p ensures CoveredBy(su, after, p) <==> CoveredBy(su, log, p) || Refutes(su.pb, rec, p) {
      if CoveredBy(su, log, p) && p !in su.start {
        var k :| 0 <= k < |log| && Refutes(su.pb, log[k], p);
        assert after[k] == log[k];
      }
    }
  }

  lemma IdsNext(pb: Problem, log: seq<AttemptRec>, rec: AttemptRec)
    ensures IdsOf(pb, log + [rec]) == IdsOf(pb, log) + if rec.answer.Sat? then {pb.hash(rec.answer.table)} else {}
  {
    var after := log + [rec];
    assert after[|log|] == rec && forall k :: 0 <= k < |log| ==> after[k] == log[k];
  }

  lemma ReplayedNext(su: Setup, log: seq<AttemptRec>, s: State, rec: AttemptRec, s': State)
    requires Replayed(su, log, s) && Replays(su, s, rec, s') && GrowthExact(su.start, s')
    ensures Replayed(su, log + [rec], s')
  {
    GainedNext(su, log, rec);
    IdsNext(su.pb, log, rec);
    var after := log + [rec];
    assert !rec.answer.Sat? ==> (set p | p in su.pb.falsePairs && Refutes(su.pb, rec, p)) == {};
    assert s'.covered == su.start + GainedBy(su, after);
    assert s'.covered - su.start == GainedBy(su, after);
  }

  lemma AnsweredKept(su: Setup, log: seq<AttemptRec>, rec: AttemptRec, k: nat)
    requires k < |log| && AnsweredAt(su, log, k)
    ensures AnsweredAt(su, log + [rec], k)
  {
    assert (log + [rec])[..k] == log[..k] && (log + [rec])[..k + 1] == log[..k + 1];
  }

  lemma AnsweredNext(su: Setup, log: seq<AttemptRec>, s: State, rec: AttemptRec, s': State)
    requires Answered(su, log) && Answers(su, |log|, rec) && s'.newTotal == s.newTotal + rec.hits
    requires Replayed(su, log, s) && Replayed(su, log + [rec], s')
    ensures Answered(su, log + [rec])
  {
    var after := log + [rec];
    forall k | 0 <= k < |after| ensures AnsweredAt(su, after, k) {
      if k < |log| {
        AnsweredKept(su, log, rec, k);
      } else {
        assert after[..k] == log && after[..k + 1] == after;
      }
    }
  }

  /** Every table whose id has been seen has had all its pairs covered. */
  lemma SeenIsReplayed(su: Setup, log: seq<AttemptRec>, s: State)
    requires WellPosed(su.pb) && InjectiveId(su.pb) && Answered(su, log) && Replayed(su, log, s)
    ensures SeenIsCovered(su.pb, s)
  {
    forall t | FullRows(t) && su.pb.hash(t) in s.seen ensures Certified(su.pb, t) <= s.covered {
      var k :| 0 <= k < |log| && log[k].answer.Sat? && su.pb.hash(log[k].answer.table) == su.pb.hash(t);
      assert AnsweredAt(su, log, k);
      forall p | p in Certified(su.pb, t) ensures p in s.covered {
        assert Refutes(su.pb, log[k], p);
      }
    }
  }

  // ------------------------------------------------------- the course of the search

  /** The log and the number of clock readings at some moment. */
  datatype Stage = Stage(log: seq<AttemptRec>, ticks: nat)

  ghost predicate EntryOf(rec: AttemptRec, p: Probe, t: Trial)
  {
    rec.i == p.i && rec.j == p.j && rec.shape == p.shape && rec.trial == t
  }

  /** Entry `from + l` asks question `l` of the plan, and only the last entry may hit. */
  ghost predicate AsksAt(log: seq<AttemptRec>, from: nat, l: nat, p: Probe, plan: seq<Trial>)
    requires from + l < |log| && l < |plan|
  {
    EntryOf(log[from + l], p, plan[l]) && (log[from + l].hits > 0 ==> from + l == |log| - 1)
  }

  /** The entries from `from` on ask the first questions of the plan. */
  ghost predicate Asks(log: seq<AttemptRec>, from: nat, p: Probe, plan: seq<Trial>)
  {
    && from <= |log| <= from + |plan|
    && forall l: nat {:trigger AsksAt(log, from, l, p, plan)} :: from + l < |log| ==> AsksAt(log, from, l, p, plan)
  }

  /** The last entry added has hit. */
  ghost predicate LastHit(a: Stage, b: Stage)
  {
    |a.log| < |b.log| && b.log[|b.log| - 1].hits > 0
  }

  /** The calls of the run are used up, or the time of the cluster or the run is over. */
  ghost predicate Spent(su: Setup, c: nat, a: Stage, b: Stage)
  {
    |b.log| >= su.lim.totalCalls || (a.ticks < b.ticks && Over(su.clock, c, b.ticks - 1))
  }

  /** The probe that began at `a` asks no more: it has hit, its own calls are used up, or all are. */
  ghost predicate Halted(su: Setup, c: nat, a: Stage, b: Stage)
  {
    LastHit(a, b) || |b.log| >= |a.log| + su.lim.probesPerPair || Spent(su, c, a, b)
  }

  /** From `a` to `b` the probe has asked the plan in order, all of it unless it was halted. */
  ghost predicate Planned(su: Setup, c: nat, a: Stage, b: Stage, p: Probe, plan: seq<Trial>)
  {
    && a.ticks <= b.ticks && Asks(b.log, |a.log|, p, plan) && a.log == b.log[..|a.log|]
    && (|b.log| == |a.log| + |plan| || Halted(su, c, a, b))
  }

  lemma PlannedAtStart(su: Setup, c: nat, a: Stage, p: Probe)
    ensures Planned(su, c, a, a, p, []) && !LastHit(a, a)
  {
  }

  /** Reading the clock changes nothing else. */
  lemma PlannedTick(su: Setup, c: nat, a: Stage, b: Stage, p: Probe, plan: seq<Trial>)
    requires Forward(su.clock) && Planned(su, c, a, b, p, plan)
    ensures Planned(su, c, a, Stage(b.log, b.ticks + 1), p, plan)
    ensures LastHit(a, b) <==> LastHit(a, Stage(b.log, b.ticks + 1))
  {
    if a.ticks < b.ticks && Over(su.clock, c, b.ticks - 1) {
      assert Over(su.clock, c, b.ticks);
    }
  }

  /** A halted probe has as much of a longer plan done as it ever will. */
  lemma HaltedPlan(su: Setup, c: nat, a: Stage, b: Stage, p: Probe, plan: seq<Trial>, longer: seq<Trial>)
    requires Planned(su, c, a, b, p, plan) && Halted(su, c, a, b) && plan <= longer
    ensures Planned(su, c, a, b, p, longer)
  {
    forall l: nat | |a.log| + l < |b.log| ensures AsksAt(b.log, |a.log|, l, p, longer) {
      assert AsksAt(b.log, |a.log|, l, p, plan);
    }
  }

  /** After `m` blocks a probe is done with all of them when there are no more or it was halted. */
  lemma BlocksDone(su: Setup, c: nat, a: Stage, b: Stage, p: Probe, plan: seq<Trial>, blocks: seq<seq<Trial>>, m: nat)
    requires m <= |blocks| && Planned(su, c, a, b, p, plan + Flatten(blocks, m)) && (m == |blocks| || Halted(su, c, a, b))
    ensures Planned(su, c, a, b, p, plan + Flatten(blocks, |blocks|))
  {
    if m < |blocks| {
      FlattenGrows(blocks, m, |blocks|);
      HaltedPlan(su, c, a, b, p, plan + Flatten(blocks, m), plan + Flatten(blocks, |blocks|));
    }
  }

  /** One block more. */
  lemma BlockNext(plan: seq<Trial>, blocks: seq<seq<Trial>>, m: nat)
    requires m < |blocks|
    ensures plan + Flatten(blocks, m) + blocks[m] == plan + Flatten(blocks, m + 1)
  {
  }

  lemma PlannedNext(su: Setup, c: nat, a: Stage, b: Stage, p: Probe, plan: seq<Trial>, rec: AttemptRec)
    requires Planned(su, c, a, b, p, plan) && !Halted(su, c, a, b) && EntryOf(rec, p, rec.trial)
    ensures Planned(su, c, a, Stage(b.log + [rec], b.ticks), p, plan + [rec.trial])
    ensures LastHit(a, Stage(b.log + [rec], b.ticks)) <==> rec.hits > 0
  {
    var from, log := |a.log|, b.log + [rec];
    forall l: nat | from + l < |log| ensures AsksAt(log, from, l, p, plan + [rec.trial]) {
      if l < |plan| {
        assert AsksAt(b.log, from, l, p, plan);
      }
    }
    assert log[..from] == b.log[..from];
  }

  /** The pair is not an open FALSE pair, or the shape is blacklisted. */
  ghost predicate Skipped(su: Setup, log: seq<AttemptRec>, p: Probe)
  {
    (p.i, p.j) !in su.pb.falsePairs || CoveredBy(su, log, (p.i, p.j)) || Barred(log, p.shape)
  }

  ghost predicate IsSchedule(su: Setup, p: Probe, plan: seq<Trial>)
    requires SoundProbe(su.pb, p)
  {
    plan == Schedule(su.pb, su.lim, p)
  }

  /** One probe of a cluster: nothing happens when it is skipped, and otherwise it asks its schedule. */
  ghost predicate ProbeRan(su: Setup, c: nat, a: Stage, b: Stage, p: Probe)
    requires SoundProbe(su.pb, p)
  {
    forall plan {:trigger IsSchedule(su, p, plan)} :: IsSchedule(su, p, plan) ==>
      if Skipped(su, a.log, p) then a == b
      else Planned(su, c, a, b, p, plan) && (b.log == a.log || |b.log| <= |a.log| + su.lim.probesPerPair)
  }

  lemma ProbeIsPlanned(su: Setup, c: nat, a: Stage, b: Stage, p: Probe, blocks: seq<seq<Trial>>)
    requires SoundProbe(su.pb, p) && !Skipped(su, a.log, p)
    requires CarriersPlanned(su.pb, su.lim, p, blocks) && Planned(su, c, a, b, p, Flatten(blocks, |blocks|))
    requires b.log == a.log || |b.log| <= |a.log| + su.lim.probesPerPair
    ensures ProbeRan(su, c, a, b, p)
  {
    CarriersAreSchedule(su.pb, su.lim, p, blocks);
  }

  /** The loop condition of a cluster, at reading `a.ticks`. */
  ghost predicate GoesOn(su: Setup, c: nat, a: Stage)
  {
    !Over(su.clock, c, a.ticks) && |a.log| < su.lim.totalCalls
  }

  function Tick(a: Stage): Stage
  {
    a.(ticks := a.ticks + 1)
  }

  ghost predicate AllSound(pb: Problem, probes: seq<Probe>)
  {
    forall k :: 0 <= k < |probes| ==> SoundProbe(pb, probes[k])
  }

  /** The stages of a cluster before each of its probes and after the last of them, and its end. */
  datatype ClusterRun = ClusterRun(stages: seq<Stage>, end: Stage)

  ghost predicate ProbeStep(su: Setup, c: nat, a: Stage, b: Stage, p: Probe)
    requires SoundProbe(su.pb, p)
  {
    GoesOn(su, c, a) && ProbeRan(su, c, Tick(a), b, p)
  }

  ghost predicate ProbeAt(su: Setup, c: nat, probes: seq<Probe>, stages: seq<Stage>, k: nat)
    requires AllSound(su.pb, probes) && k < |probes| && k + 1 < |stages|
  {
    ProbeStep(su, c, stages[k], stages[k + 1], probes[k])
  }

  ghost predicate ProbesRan(su: Setup, c: nat, probes: seq<Probe>, stages: seq<Stage>)
    requires AllSound(su.pb, probes)
  {
    && 0 < |stages| <= |probes| + 1
    && forall k: nat {:trigger ProbeAt(su, c, probes, stages, k)} :: k < |stages| - 1 ==> ProbeAt(su, c, probes, stages, k)
  }

  /** The probes run in order until the loop condition fails. */
  ghost predicate ClusterRan(su: Setup, c: nat, a: Stage, probes: seq<Probe>, r: ClusterRun)
    requires AllSound(su.pb, probes)
  {
    && ProbesRan(su, c, probes, r.stages) && r.stages[0] == a
    && var last := r.stages[|r.stages| - 1];
       if |r.stages| == |probes| + 1 then r.end == last
       else !GoesOn(su, c, last) && r.end == Tick(last)
  }

  lemma ProbesRanNext(su: Setup, c: nat, probes: seq<Probe>, stages: seq<Stage>, b: Stage)
    requires AllSound(su.pb, probes) && ProbesRan(su, c, probes, stages) && |stages| <= |probes|
    requires ProbeStep(su, c, stages[|stages| - 1], b, probes[|stages| - 1])
    ensures ProbesRan(su, c, probes, stages + [b])
  {
    var after := stages + [b];
    forall k: nat | k < |after| - 1 ensures ProbeAt(su, c, probes, after, k) {
      if k < |stages| - 1 {
        assert ProbeAt(su, c, probes, stages, k);
      }
    }
  }

  /** The condition of the main loop before cluster number `c`. */
  ghost predicate Opens(su: Setup, c: nat, a: Stage)
  {
    && !su.clock.run(a.ticks) && |a.log| < su.lim.totalCalls
    && |IdsOf(su.pb, a.log)| < su.lim.tables && |GainedBy(su, a.log)| < su.lim.newHits
    && (exists p :: p in su.pb.falsePairs && !CoveredBy(su, a.log, p))
    && c <= su.lim.clusters
  }

  /** Where cluster `c` of a run from `first` starts. */
  ghost function StageBefore(first: Stage, runs: seq<ClusterRun>, c: nat): Stage
    requires c <= |runs|
  {
    if c == 0 then first else runs[c - 1].end
  }

  ghost predicate PlanIsSound(pb: Problem, clusters: seq<seq<Probe>>)
  {
    forall c :: 0 <= c < |clusters| ==> AllSound(pb, clusters[c])
  }

  ghost predicate ClusterStep(su: Setup, c: nat, a: Stage, probes: seq<Probe>, r: ClusterRun)
    requires AllSound(su.pb, probes)
  {
    Opens(su, c, a) && ClusterRan(su, c, Tick(a), probes, r)
  }

  /** Cluster `c` of the plan runs from where the one before it ended. */
  ghost predicate ClusterAt(su: Setup, first: Stage, clusters: seq<seq<Probe>>, runs: seq<ClusterRun>, c: nat)
    requires PlanIsSound(su.pb, clusters) && c < |runs| && c < |clusters|
  {
    ClusterStep(su, c + 1, StageBefore(first, runs, c), clusters[c], runs[c])
  }

  ghost predicate ClustersRan(su: Setup, first: Stage, clusters: seq<seq<Probe>>, runs: seq<ClusterRun>)
    requires PlanIsSound(su.pb, clusters)
  {
    && |runs| <= |clusters|
    && forall c: nat {:trigger ClusterAt(su, first, clusters, runs, c)} :: c < |runs| ==> ClusterAt(su, first, clusters, runs, c)
  }

  /** The clusters run in order until the main loop's condition fails. */
  ghost predicate SearchRan(su: Setup, first: Stage, clusters: seq<seq<Probe>>, runs: seq<ClusterRun>, end: Stage)
    requires PlanIsSound(su.pb, clusters)
  {
    && ClustersRan(su, first, clusters, runs)
    && var last := StageBefore(first, runs, |runs|);
       if |runs| == |clusters| then end == last
       else !Opens(su, |runs| + 1, last) && end == Tick(last)
  }

  lemma ClusterAtKept(su: Setup, first: Stage, clusters: seq<seq<Probe>>, runs: seq<ClusterRun>, longer: seq<ClusterRun>, c: nat)
    requires PlanIsSound(su.pb, clusters) && c < |runs| && c < |clusters|
    requires runs <= longer && ClusterAt(su, first, clusters, runs, c)
    ensures ClusterAt(su, first, clusters, longer, c)
  {
    assert StageBefore(first, longer, c) == StageBefore(first, runs, c);
  }

  lemma ClustersRanNext(su: Setup, first: Stage, clusters: seq<seq<Probe>>, runs: seq<ClusterRun>, r: ClusterRun)
    requires PlanIsSound(su.pb, clusters)
    requires ClustersRan(su, first, clusters, runs) && |runs| < |clusters|
    requires ClusterStep(su, |runs| + 1, StageBefore(first, runs, |runs|), clusters[|runs|], r)
    ensures ClustersRan(su, first, clusters, runs + [r])
  {
    var after := runs + [r];
    forall c: nat | c < |after| ensures ClusterAt(su, first, clusters, after, c) {
      if c < |runs| {
        ClusterAtKept(su, first, clusters, runs, after, c);
      } else {
        assert StageBefore(first, after, c) == StageBefore(first, runs, c);
      }
    }
  }

  // ------------------------------------------------------ what a finished search has tried

  /** The log and the readings of one stage go on in another. */
  ghost predicate GrowsTo(a: Stage, b: Stage)
  {
    a.ticks <= b.ticks && |a.log| <= |b.log| && a.log == b.log[..|a.log|]
  }

  lemma GrowsOn(a: Stage, b: Stage, c: Stage)
    requires GrowsTo(a, b) && GrowsTo(b, c)
    ensures GrowsTo(a, c)
  {
    assert a.log == c.log[..|a.log|];
  }

  /** What `ProbeRan` says about the schedule. */
  lemma ProbeOutcome(su: Setup, c: nat, a: Stage, b: Stage, p: Probe) returns (plan: seq<Trial>)
    requires SoundProbe(su.pb, p) && ProbeRan(su, c, a, b, p)
    ensures IsSchedule(su, p, plan) && GrowsTo(a, b)
    ensures if Skipped(su, a.log, p) then a == b else Planned(su, c, a, b, p, plan)
  {
    plan := Schedule(su.pb, su.lim, p);
    assert IsSchedule(su, p, plan);
    assert a.log == a.log[..|a.log|];
  }

  lemma StageGrows(su: Setup, c: nat, probes: seq<Probe>, stages: seq<Stage>, k: nat)
    requires AllSound(su.pb, probes) && k < |probes| && k + 1 < |stages| && ProbeAt(su, c, probes, stages, k)
    ensures GrowsTo(stages[k], stages[k + 1])
  {
    var _ := ProbeOutcome(su, c, Tick(stages[k]), stages[k + 1], probes[k]);
  }

  lemma {:induction false} StagesGrow(su: Setup, c: nat, probes: seq<Probe>, stages: seq<Stage>, k: nat, l: nat)
    requires AllSound(su.pb, probes) && ProbesRan(su, c, probes, stages) && k <= l < |stages|
    ensures GrowsTo(stages[k], stages[l])
    decreases l
  {
    if k == l {
      assert stages[k].log == stages[k].log[..|stages[k].log|];
    } else {
      StagesGrow(su, c, probes, stages, k, l - 1);
      assert ProbeAt(su, c, probes, stages, l - 1);
      StageGrows(su, c, probes, stages, l - 1);
      GrowsOn(stages[k], stages[l - 1], stages[l]);
    }
  }

  lemma ClusterGrows(su: Setup, c: nat, a: Stage, probes: seq<Probe>, r: ClusterRun, k: nat)
    requires AllSound(su.pb, probes) && ClusterRan(su, c, a, probes, r) && k < |r.stages|
    ensures GrowsTo(r.stages[k], r.end) && GrowsTo(a, r.stages[k])
  {
    StagesGrow(su, c, probes, r.stages, k, |r.stages| - 1);
    StagesGrow(su, c, probes, r.stages, 0, k);
  }

  lemma {:induction false} RunsGrow(su: Setup, first: Stage, clusters: seq<seq<Probe>>, runs: seq<ClusterRun>, c: nat, d: nat)
    requires PlanIsSound(su.pb, clusters) && ClustersRan(su, first, clusters, runs) && c <= d <= |runs|
    ensures GrowsTo(StageBefore(first, runs, c), StageBefore(first, runs, d))
    decreases d
  {
    var a := StageBefore(first, runs, c);
    if c == d {
      assert a.log == a.log[..|a.log|];
    } else {
      RunsGrow(su, first, clusters, runs, c, d - 1);
      assert ClusterAt(su, first, clusters, runs, d - 1);
      var b := StageBefore(first, runs, d - 1);
      ClusterGrows(su, d, Tick(b), clusters[d - 1], runs[d - 1], 0);
      GrowsOn(Tick(b), runs[d - 1].stages[0], runs[d - 1].end);
      GrowsOn(a, b, runs[d - 1].end);
    }
  }

  /** Every stage of a run leads to its end. */
  lemma SearchGrows(su: Setup, first: Stage, clusters: seq<seq<Probe>>, runs: seq<ClusterRun>, end: Stage, c: nat, k: nat)
    requires PlanIsSound(su.pb, clusters) && SearchRan(su, first, clusters, runs, end)
    requires c < |runs| && k < |runs[c].stages|
    ensures GrowsTo(runs[c].stages[k], end) && GrowsTo(runs[c].end, end)
  {
    assert ClusterAt(su, first, clusters, runs, c);
    ClusterGrows(su, c + 1, Tick(StageBefore(first, runs, c)), clusters[c], runs[c], k);
    RunsGrow(su, first, clusters, runs, c + 1, |runs|);
    var last := StageBefore(first, runs, |runs|);
    assert last.log == Tick(last).log[..|last.log|];
    GrowsOn(runs[c].end, last, end);
    GrowsOn(runs[c].stages[k], runs[c].end, end);
  }

  lemma CoveredGrows(su: Setup, a: Stage, b: Stage, p: IdPair)
    requires GrowsTo(a, b) && CoveredBy(su, a.log, p)
    ensures CoveredBy(su, b.log, p)
  {
    if p !in su.start {
      var k :| 0 <= k < |a.log| && Refutes(su.pb, a.log[k], p);
      assert b.log[k] == a.log[k];
    }
  }

  /** Entry `from + l` asks question `l` of the plan in vain. */
  ghost predicate MissesAt(log: seq<AttemptRec>, from: nat, l: nat, p: Probe, plan: seq<Trial>)
    requires from + l < |log| && l < |plan|
  {
    EntryOf(log[from + l], p, plan[l]) && log[from + l].hits == 0
  }

  /** The whole schedule of the probe was asked in vain, or as much of it as one probe may ask. */
  ghost predicate TriedAt(su: Setup, log: seq<AttemptRec>, p: Probe, plan: seq<Trial>, from: nat, m: nat)
    requires SoundProbe(su.pb, p)
  {
    && IsSchedule(su, p, plan) && from + m <= |log| && m <= |plan|
    && (forall l: nat {:trigger MissesAt(log, from, l, p, plan)} :: l < m ==> MissesAt(log, from, l, p, plan))
    && (m == |plan| || m >= su.lim.probesPerPair)
  }

  ghost predicate Tried(su: Setup, log: seq<AttemptRec>, p: Probe)
    requires SoundProbe(su.pb, p)
  {
    exists plan, from, m :: TriedAt(su, log, p, plan, from, m)
  }

  /** The time of the cluster was over at some reading. */
  ghost predicate TimeWasOver(su: Setup, c: nat, end: Stage)
  {
    exists t :: 0 <= t < end.ticks && Over(su.clock, c, t)
  }

  /** A probe that was not skipped, has not hit, and found time and calls, was tried in full. */
  lemma PlannedIsTried(su: Setup, c: nat, a: Stage, b: Stage, end: Stage, p: Probe, plan: seq<Trial>)
    requires SoundProbe(su.pb, p) && IsSchedule(su, p, plan) && Planned(su, c, a, b, p, plan) && GrowsTo(b, end)
    requires !LastHit(a, b) && !Spent(su, c, a, b)
    ensures Tried(su, end.log, p)
  {
    var from, m := |a.log|, |b.log| - |a.log|;
    forall l: nat | l < m ensures MissesAt(end.log, from, l, p, plan) {
      assert AsksAt(b.log, from, l, p, plan);
      assert end.log[from + l] == b.log[from + l];
    }
    assert TriedAt(su, end.log, p, plan, from, m);
  }
}
