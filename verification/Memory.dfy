/** The compounding engine: per-family constructor memory, attempt budgets and counters. */
module Memory {
  import opened Results
  import opened Orders

  /** A task, as far as the controller looks at it. */
  datatype Task = Task(id: string, family: string)

  /** The constructor ids in bank order, the finite checker and the promotion gate as fixed
      predicates, the seeded shuffle, and the attempt budget. */
  datatype Setup = Setup(
    bank: seq<string>,
    checks: (Task, string) -> bool,
    gate: (Task, string) -> bool,
    shuffle: Task -> seq<string>,
    budget: int)

  predicate Good(su: Setup, task: Task, c: string)
  {
    su.checks(task, c) && su.gate(task, c)
  }

  ghost predicate SameElements<T(!new)>(a: seq<T>, b: seq<T>)
  {
    NoDuplicates(a) && NoDuplicates(b) && |a| == |b| && forall x :: x in a <==> x in b
  }

  /** Ids in the bank are distinct, and a shuffle is a permutation of the bank. */
  ghost predicate SoundSetup(su: Setup)
  {
    NoDuplicates(su.bank) && forall t :: SameElements(su.shuffle(t), su.bank)
  }

  type Lists = map<string, seq<string>>

  /** Every stored list is free of duplicates and inside the bank. */
  ghost predicate MemoryOk(su: Setup, mem: Lists)
  {
    forall f :: f in mem ==> NoDuplicates(mem[f]) && forall c :: c in mem[f] ==> c in su.bank
  }

  function Query(mem: Lists, task: Task): seq<string>
  {
    if task.family in mem then mem[task.family] else []
  }

  /** The memory after learning a constructor: new ids go to the front, known ids change nothing. */
  function Learned(mem: Lists, task: Task, c: string): Lists
  {
    var ids := Query(mem, task);
    mem[task.family := if c in ids then ids else [c] + ids]
  }

  /** The elements of `base` that are not in `hits`, in their order. */
  function Without(base: seq<string>, hits: seq<string>): seq<string>
  {
    if base == [] then []
    else
      var n := |base| - 1;
      Without(base[..n], hits) + if base[n] in hits then [] else [base[n]]
  }

  lemma {:induction false} WithoutExact(base: seq<string>, hits: seq<string>)
    ensures forall c :: c in Without(base, hits) <==> c in base && c !in hits
    ensures NoDuplicates(base) ==> NoDuplicates(Without(base, hits))
  {
    if base == [] {
    } else {
      var n := |base| - 1;
      assert base == base[..n] + [base[n]];
      WithoutExact(base[..n], hits);
      assert NoDuplicates(base) ==> base[n] !in base[..n];
    }
  }

  /** The policies; any other name tries the bank as it is. */
  datatype Policy = Baseline | Memory | LawbookAttention | ReasonAtlas | ShuffledNull | Other(name: string)

  predicate UsesMemory(policy: Policy)
  {
    policy.Memory? || policy.LawbookAttention? || policy.ReasonAtlas?
  }

  /** The hits a policy acts on. */
  function Hits(mem: Lists, policy: Policy, task: Task): seq<string>
  {
    if UsesMemory(policy) then Query(mem, task) else []
  }

  /** `_constructor_order`: the order tried for a task. */
  function Order(su: Setup, mem: Lists, policy: Policy, task: Task): seq<string>
  {
    if policy.ShuffledNull? then su.shuffle(task)
    else
      var hits := Hits(mem, policy, task);
      if hits != [] then hits + Without(su.bank, hits) else su.bank
  }

  // --------------------------------------------------------- order is safe

  lemma HitsOk(su: Setup, mem: Lists, policy: Policy, task: Task)
    requires MemoryOk(su, mem)
    ensures NoDuplicates(Hits(mem, policy, task))
    ensures forall c :: c in Hits(mem, policy, task) ==> c in su.bank
  {
  }

  lemma SameLength(a: seq<string>, b: seq<string>)
    requires NoDuplicates(a) && NoDuplicates(b) && forall x :: x in a <==> x in b
    ensures |a| == |b|
  {
    var s := set x | x in b;
    DistinctSize(a, s);
    DistinctSize(b, s);
  }

  /** Every order is a permutation of the bank. */
  lemma OrderIsPermutation(su: Setup, mem: Lists, policy: Policy, task: Task)
    requires SoundSetup(su) && MemoryOk(su, mem)
    ensures SameElements(Order(su, mem, policy, task), su.bank)
  {
    HitsOk(su, mem, policy, task);
    var hits := Hits(mem, policy, task);
    if policy.ShuffledNull? {
      assert SameElements(su.shuffle(task), su.bank);
    } else if hits != [] {
      var order := hits + Without(su.bank, hits);
      WithoutExact(su.bank, hits);
      AppendDistinct(hits, Without(su.bank, hits));
      SameLength(order, su.bank);
    }
  }

  /** `rest` lists the bank's ids that are not stored, each position once, in bank order. */
  ghost predicate Picks(rest: seq<string>, bank: seq<string>, stored: seq<string>, pos: seq<nat>)
  {
    && |pos| == |rest|
    && (forall k :: 0 <= k < |pos| ==> pos[k] < |bank| && rest[k] == bank[pos[k]])
    && (forall k, l :: 0 <= k < l < |pos| ==> pos[k] < pos[l])
    && forall i: nat :: i < |bank| ==> (i in pos <==> bank[i] !in stored)
  }

  lemma PicksNext(rest: seq<string>, base: seq<string>, n: nat, hits: seq<string>, pos: seq<nat>)
    requires n < |base| && Picks(rest, base[..n], hits, pos)
    ensures n + 1 == |base| ==>
              Picks(rest + (if base[n] in hits then [] else [base[n]]), base, hits, pos + if base[n] in hits then [] else [n])
  {
    if n + 1 == |base| {
      var pos' := pos + if base[n] in hits then [] else [n];
      forall i: nat | i < |base| ensures i in pos' <==> base[i] !in hits {
        if i < n { assert base[..n][i] == base[i]; }
        if i in pos { assert i < n; }
      }
    }
  }

  lemma {:induction false} WithoutPicks(base: seq<string>, hits: seq<string>) returns (pos: seq<nat>)
    ensures Picks(Without(base, hits), base, hits, pos)
  {
    if base == [] {
      pos := [];
    } else {
      var n := |base| - 1;
      pos := WithoutPicks(base[..n], hits);
      PicksNext(Without(base[..n], hits), base, n, hits, pos);
      pos := pos + if base[n] in hits then [] else [n];
    }
  }

  /** The stored ids in stored order, then the rest of the bank in bank order. */
  ghost predicate StoredFirst(order: seq<string>, stored: seq<string>, bank: seq<string>)
  {
    && |stored| <= |order| && order[..|stored|] == stored
    && exists pos :: Picks(order[|stored|..], bank, stored, pos)
  }

  /** What each policy suggests and tries, by its name. */
  ghost predicate OrderMeans(su: Setup, mem: Lists, policy: Policy, task: Task, suggested: seq<string>, order: seq<string>)
  {
    match policy
    case Memory | LawbookAttention | ReasonAtlas =>
      && suggested == (if task.family in mem then mem[task.family] else [])
      && StoredFirst(order, suggested, su.bank)
    case ShuffledNull => suggested == [] && order == su.shuffle(task)
    case Baseline => suggested == [] && order == su.bank
    case Other(_) => suggested == [] && order == su.bank
  }

  lemma {:induction false} WithoutNothing(base: seq<string>)
    ensures Without(base, []) == base
  {
    if base == [] {
    } else {
      WithoutNothing(base[..|base| - 1]);
    }
  }

  lemma OrderByPolicy(su: Setup, mem: Lists, policy: Policy, task: Task)
    ensures OrderMeans(su, mem, policy, task, Hits(mem, policy, task), Order(su, mem, policy, task))
  {
    var hits, order := Hits(mem, policy, task), Order(su, mem, policy, task);
    if policy.Memory? || policy.LawbookAttention? || policy.ReasonAtlas? {
      WithoutNothing(su.bank);
      var pos := WithoutPicks(su.bank, hits);
      assert order[|hits|..] == Without(su.bank, hits);
    }
  }

  lemma LearnedOk(su: Setup, mem: Lists, task: Task, c: string)
    requires MemoryOk(su, mem) && c in su.bank
    ensures MemoryOk(su, Learned(mem, task, c))
  {
    var ids := Query(mem, task);
    if c !in ids {
      NoDuplicatesCons(c, ids);
    }
  }

  /** A newly learned constructor is tried first for its family from then on, and stored lists
      only grow at the front. */
  lemma LearnedFirst(su: Setup, mem: Lists, policy: Policy, task: Task, c: string)
    requires UsesMemory(policy)
    ensures c in Query(Learned(mem, task, c), task)
    ensures c !in Query(mem, task) ==>
              Order(su, Learned(mem, task, c), policy, task) != [] && Order(su, Learned(mem, task, c), policy, task)[0] == c
    ensures |Query(mem, task)| <= |Query(Learned(mem, task, c), task)|
    ensures var now := Query(Learned(mem, task, c), task);
            now[|now| - |Query(mem, task)|..] == Query(mem, task)
  {
  }

  // -------------------------------------------------------------- attempts

  function Limit(budget: int, n: nat): nat
  {
    if budget < 0 then 0 else if budget < n then budget else n
  }

  /** The first good constructor among the first `k` of an order. */
  function FirstGood(su: Setup, task: Task, order: seq<string>, k: nat): (r: Option<nat>)
    requires k <= |order|
    ensures r.Some? ==> r.value < k
  {
    if k == 0 then None
    else
      var r := FirstGood(su, task, order, k - 1);
      if r.Some? then r else if Good(su, task, order[k - 1]) then Some(k - 1) else None
  }

  lemma {:induction false} FirstGoodExact(su: Setup, task: Task, order: seq<string>, k: nat)
    requires k <= |order|
    ensures var r := FirstGood(su, task, order, k);
            && (r.Some? ==> Good(su, task, order[r.value]) && forall i :: 0 <= i < r.value ==> !Good(su, task, order[i]))
            && (r.None? ==> forall i :: 0 <= i < k ==> !Good(su, task, order[i]))
  {
    if k == 0 {
    } else {
      FirstGoodExact(su, task, order, k - 1);
    }
  }

  lemma {:induction false} FirstGoodAt(su: Setup, task: Task, order: seq<string>, k: nat, limit: nat)
    requires k < limit <= |order| && FirstGood(su, task, order, k) == None && Good(su, task, order[k])
    ensures FirstGood(su, task, order, limit) == Some(k)
  {
    if limit == k + 1 {
    } else {
      FirstGoodAt(su, task, order, k, limit - 1);
    }
  }

  /** What happens to one task: solved at a position of its order, or not. */
  function Outcome(su: Setup, mem: Lists, policy: Policy, task: Task): (r: Option<nat>)
    ensures r.Some? ==> r.value < |Order(su, mem, policy, task)|
  {
    var order := Order(su, mem, policy, task);
    FirstGood(su, task, order, Limit(su.budget, |order|))
  }

  predicate Solved(su: Setup, mem: Lists, policy: Policy, task: Task)
  {
    Outcome(su, mem, policy, task).Some?
  }

  function Attempts(su: Setup, mem: Lists, policy: Policy, task: Task): nat
  {
    var order := Order(su, mem, policy, task);
    var r := Outcome(su, mem, policy, task);
    if r.Some? then r.value + 1 else Limit(su.budget, |order|)
  }

  function AfterTask(su: Setup, mem: Lists, policy: Policy, task: Task): Lists
  {
    var r := Outcome(su, mem, policy, task);
    if r.Some? then Learned(mem, task, Order(su, mem, policy, task)[r.value]) else mem
  }

  /** The memory after the first `i` tasks. */
  function MemoryAt(su: Setup, mem: Lists, policy: Policy, tasks: seq<Task>, i: nat): Lists
    requires i <= |tasks|
  {
    if i == 0 then mem else AfterTask(su, MemoryAt(su, mem, policy, tasks, i - 1), policy, tasks[i - 1])
  }

  lemma OneTaskKeepsOk(su: Setup, mem: Lists, policy: Policy, task: Task)
    requires SoundSetup(su) && MemoryOk(su, mem)
    ensures MemoryOk(su, AfterTask(su, mem, policy, task))
  {
    OrderIsPermutation(su, mem, policy, task);
    var r := Outcome(su, mem, policy, task);
    if r.Some? {
      var c := Order(su, mem, policy, task)[r.value];
      assert c in Order(su, mem, policy, task);
      LearnedOk(su, mem, task, c);
    }
  }

  lemma {:induction false} MemoryStaysOk(su: Setup, mem: Lists, policy: Policy, tasks: seq<Task>, i: nat)
    requires SoundSetup(su) && MemoryOk(su, mem) && i <= |tasks|
    ensures MemoryOk(su, MemoryAt(su, mem, policy, tasks, i))
  {
    if i == 0 {
    } else {
      MemoryStaysOk(su, mem, policy, tasks, i - 1);
      OneTaskKeepsOk(su, MemoryAt(su, mem, policy, tasks, i - 1), policy, tasks[i - 1]);
    }
  }

  /** With a budget of at least the bank, every policy solves exactly the solvable tasks. */
  lemma FullBudgetSolvesAll(su: Setup, mem: Lists, policy: Policy, task: Task)
    requires SoundSetup(su) && MemoryOk(su, mem) && su.budget >= |su.bank|
    ensures Solved(su, mem, policy, task) <==> exists c :: c in su.bank && Good(su, task, c)
  {
    var order := Order(su, mem, policy, task);
    OrderIsPermutation(su, mem, policy, task);
    FirstGoodExact(su, task, order, Limit(su.budget, |order|));
    var r := Outcome(su, mem, policy, task);
    if r.Some? {
      assert order[r.value] in order;
    }
  }

  /** So at full budget all policies, on whatever memory they have gathered, refute the same tasks. */
  lemma PoliciesAgreeAtFullBudget(su: Setup, mem: Lists, mem': Lists, policy: Policy, policy': Policy, tasks: seq<Task>, i: nat)
    requires SoundSetup(su) && MemoryOk(su, mem) && MemoryOk(su, mem') && su.budget >= |su.bank| && i < |tasks|
    ensures Solved(su, MemoryAt(su, mem, policy, tasks, i), policy, tasks[i])
       <==> Solved(su, MemoryAt(su, mem', policy', tasks, i), policy', tasks[i])
  {
    MemoryStaysOk(su, mem, policy, tasks, i);
    MemoryStaysOk(su, mem', policy', tasks, i);
    FullBudgetSolvesAll(su, MemoryAt(su, mem, policy, tasks, i), policy, tasks[i]);
    FullBudgetSolvesAll(su, MemoryAt(su, mem', policy', tasks, i), policy', tasks[i]);
  }

  lemma WithoutLast(base: seq<string>, hits: seq<string>)
    requires base != []
    ensures var n := |base| - 1;
            Without(base, hits) == Without(base[..n], hits) + if base[n] in hits then [] else [base[n]]
  {
  }

  lemma {:induction false} WithoutShorter(base: seq<string>, hits: seq<string>)
    ensures |Without(base, hits)| <= |base|
  {
    if base == [] {
    } else {
      WithoutShorter(base[..|base| - 1], hits);
    }
  }

  /** The position of an id in the filtered order is at most its position in the bank. */
  lemma {:induction false} WithoutShifts(base: seq<string>, hits: seq<string>, k: nat) returns (j: nat)
    requires k < |base| && base[k] !in hits
    ensures j <= k && j < |Without(base, hits)| && Without(base, hits)[j] == base[k]
  {
    var n := |base| - 1;
    WithoutLast(base, hits);
    if k < n {
      j := WithoutShifts(base[..n], hits, k);
    } else {
      WithoutShorter(base[..n], hits);
      j := |Without(base[..n], hits)|;
    }
  }

  /** At budget b a memory policy refutes every task the bank order refutes at budget b - |hits|. */
  lemma MemoryCostsAtMostItsHits(su: Setup, mem: Lists, policy: Policy, task: Task, k: nat)
    requires UsesMemory(policy)
    requires k < |su.bank| && Good(su, task, su.bank[k])
    requires k < su.budget - |Hits(mem, policy, task)|
    ensures Solved(su, mem, policy, task)
  {
    var hits := Hits(mem, policy, task);
    var order := Order(su, mem, policy, task);
    var c := su.bank[k];
    var p: nat;
    if hits == [] {
      p := k;
    } else if c in hits {
      p :| p < |hits| && hits[p] == c;
    } else {
      var j := WithoutShifts(su.bank, hits, k);
      p := |hits| + j;
    }
    assert order[p] == c && p < Limit(su.budget, |order|);
    FirstGoodExact(su, task, order, Limit(su.budget, |order|));
  }

  // -------------------------------------------------------------- counters

  function Bit(b: bool): nat
  {
    if b then 1 else 0
  }

  datatype AttemptRow = AttemptRow(task: string, constructorId: string, accepted: bool)

  /** The rows of the first `k` attempts on a task. */
  function RowsOf(su: Setup, task: Task, order: seq<string>, k: nat): (rows: seq<AttemptRow>)
    requires k <= |order|
    ensures |rows| == k
  {
    if k == 0 then []
    else RowsOf(su, task, order, k - 1) + [AttemptRow(task.id, order[k - 1], Good(su, task, order[k - 1]))]
  }

  /** The counters of a run. */
  datatype PolicyResult = PolicyResult(
    policy: Policy,
    attemptedPairs: nat,
    solved: nat,
    residual: nat,
    attempts: nat,
    accepted: nat,
    rejected: nat,
    lawbookHits: nat,
    actionChanges: nat,
    decodeAttempts: nat,
    decodeSuccess: nat)

  /** What happens to one task of a run: the stored ids it is given, and how its attempts go. */
  datatype Event = Event(
    task: Task, suggested: seq<string>, hit: bool, changed: bool, solved: bool, winner: string, rows: seq<AttemptRow>)

  predicate Sane(e: Event)
  {
    Bit(e.solved) <= |e.rows| && (e.changed ==> e.hit)
  }

  function EventOf(su: Setup, mem: Lists, policy: Policy, task: Task): (e: Event)
    ensures Sane(e)
  {
    var order, r := Order(su, mem, policy, task), Outcome(su, mem, policy, task);
    var suggested := Hits(mem, policy, task);
    var hit := suggested != [];
    Event(task, suggested, hit, hit && order != su.bank, r.Some?, if r.Some? then order[r.value] else "",
          RowsOf(su, task, order, Attempts(su, mem, policy, task)))
  }

  /** `e` is the event of task `i`, on the memory gathered so far. */
  ghost predicate IsEventOf(su: Setup, mem: Lists, policy: Policy, tasks: seq<Task>, i: nat, e: Event)
    requires i < |tasks|
  {
    e == EventOf(su, MemoryAt(su, mem, policy, tasks, i), policy, tasks[i])
  }

  /** The events of the first tasks of a run. */
  ghost predicate EventsOf(su: Setup, mem: Lists, policy: Policy, tasks: seq<Task>, es: seq<Event>)
  {
    |es| <= |tasks| && forall i :: 0 <= i < |es| ==> IsEventOf(su, mem, policy, tasks, i, es[i])
  }

  lemma EventsSnoc(su: Setup, mem: Lists, policy: Policy, tasks: seq<Task>, es: seq<Event>, e: Event)
    requires |es| < |tasks| && EventsOf(su, mem, policy, tasks, es)
    requires IsEventOf(su, mem, policy, tasks, |es|, e)
    ensures EventsOf(su, mem, policy, tasks, es + [e])
  {
  }

  /** The events and the memory after the first `i` tasks. */
  ghost predicate RanUpTo(su: Setup, start: Lists, policy: Policy, tasks: seq<Task>, i: nat, es: seq<Event>, mem: Lists)
    requires i <= |tasks|
  {
    |es| == i && EventsOf(su, start, policy, tasks, es) && mem == MemoryAt(su, start, policy, tasks, i)
  }

  lemma RanOneMore(su: Setup, start: Lists, policy: Policy, tasks: seq<Task>, i: nat, es: seq<Event>, mem: Lists, e: Event, after: Lists)
    requires i < |tasks| && RanUpTo(su, start, policy, tasks, i, es, mem)
    requires e == EventOf(su, mem, policy, tasks[i]) && after == AfterTask(su, mem, policy, tasks[i])
    ensures RanUpTo(su, start, policy, tasks, i + 1, es + [e], after)
  {
    EventsSnoc(su, start, policy, tasks, es, e);
  }

  function AttemptLog(es: seq<Event>): seq<AttemptRow>
  {
    if es == [] then [] else AttemptLog(es[..|es| - 1]) + es[|es| - 1].rows
  }

  function ResidualLog(es: seq<Event>): seq<string>
  {
    if es == [] then []
    else ResidualLog(es[..|es| - 1]) + if es[|es| - 1].solved then [] else [es[|es| - 1].task.id]
  }

  datatype DecodeRow = DecodeRow(task: string, verified: bool, constructorId: string)

  /** One row for each task that had hits: the winner, or nothing. */
  function DecodeLog(es: seq<Event>): seq<DecodeRow>
  {
    if es == [] then []
    else
      var e := es[|es| - 1];
      DecodeLog(es[..|es| - 1]) + if e.hit then [DecodeRow(e.task.id, e.solved, e.winner)] else []
  }

  datatype HitRow = HitRow(task: string, changed: bool, constructors: seq<string>)

  /** One row for each task that had hits: what was suggested. */
  function HitLog(es: seq<Event>): seq<HitRow>
  {
    if es == [] then []
    else
      var e := es[|es| - 1];
      HitLog(es[..|es| - 1]) + if e.hit then [HitRow(e.task.id, e.changed, e.suggested)] else []
  }

  /** One entry for each solved task: what was learned. */
  function AcceptedLog(es: seq<Event>): seq<(string, string)>
  {
    if es == [] then []
    else
      var e := es[|es| - 1];
      AcceptedLog(es[..|es| - 1]) + if e.solved then [(e.task.id, e.winner)] else []
  }

  /** The logs of a run. */
  datatype Logs = Logs(
    attempts: seq<AttemptRow>,
    residuals: seq<string>,
    decodes: seq<DecodeRow>,
    hits: seq<HitRow>,
    accepted: seq<(string, string)>)

  /** The rows one event adds. */
  function LogEvent(l: Logs, e: Event): Logs
  {
    Logs(l.attempts + e.rows,
         l.residuals + (if e.solved then [] else [e.task.id]),
         l.decodes + (if e.hit then [DecodeRow(e.task.id, e.solved, e.winner)] else []),
         l.hits + (if e.hit then [HitRow(e.task.id, e.changed, e.suggested)] else []),
         l.accepted + if e.solved then [(e.task.id, e.winner)] else [])
  }

  function LogsAfter(l: Logs, es: seq<Event>): Logs
  {
    Logs(l.attempts + AttemptLog(es), l.residuals + ResidualLog(es), l.decodes + DecodeLog(es),
         l.hits + HitLog(es), l.accepted + AcceptedLog(es))
  }

  lemma LogsSnoc(es: seq<Event>, e: Event)
    ensures AttemptLog(es + [e]) == AttemptLog(es) + e.rows
    ensures ResidualLog(es + [e]) == ResidualLog(es) + if e.solved then [] else [e.task.id]
    ensures DecodeLog(es + [e]) == DecodeLog(es) + if e.hit then [DecodeRow(e.task.id, e.solved, e.winner)] else []
    ensures HitLog(es + [e]) == HitLog(es) + if e.hit then [HitRow(e.task.id, e.changed, e.suggested)] else []
    ensures AcceptedLog(es + [e]) == AcceptedLog(es) + if e.solved then [(e.task.id, e.winner)] else []
  {
    assert (es + [e])[..|es|] == es;
  }

  lemma LogsAfterSnoc(l: Logs, es: seq<Event>, e: Event)
    ensures LogsAfter(l, es + [e]) == LogEvent(LogsAfter(l, es), e)
  {
    LogsSnoc(es, e);
  }

  /** What a counter of tasks looks at. */
  datatype Kind = IsSolved | HasHits | IsChanged | IsDecoded

  predicate Marks(e: Event, kind: Kind)
  {
    match kind
    case IsSolved => e.solved
    case HasHits => e.hit
    case IsChanged => e.changed
    case IsDecoded => e.solved && e.hit
  }

  function CountOf(es: seq<Event>, kind: Kind): nat
  {
    if es == [] then 0 else CountOf(es[..|es| - 1], kind) + Bit(Marks(es[|es| - 1], kind))
  }

  /** The positions so marked. */
  function MarkedIn(es: seq<Event>, kind: Kind): set<int>
  {
    set i | 0 <= i < |es| && Marks(es[i], kind)
  }

  lemma MarkedPrefix(es: seq<Event>, kind: Kind, n: nat, i: int)
    requires |es| == n + 1
    ensures i in MarkedIn(es, kind) <==> i in MarkedIn(es[..n], kind) || (i == n && Marks(es[n], kind))
  {
  }

  lemma MarkedOneMore(es: seq<Event>, kind: Kind, n: nat)
    requires |es| == n + 1
    ensures |MarkedIn(es, kind)| == |MarkedIn(es[..n], kind)| + Bit(Marks(es[n], kind))
  {
    var before := MarkedIn(es[..n], kind);
    var after := if Marks(es[n], kind) then before + {n} else before;
    forall i ensures i in MarkedIn(es, kind) <==> i in after {
      MarkedPrefix(es, kind, n, i);
    }
    assert MarkedIn(es, kind) == after;
  }

  /** The count is the number of tasks so marked. */
  lemma {:induction false} CountOfIsSize(es: seq<Event>, kind: Kind)
    ensures CountOf(es, kind) == |MarkedIn(es, kind)|
  {
    if es == [] {
    } else {
      MarkedOneMore(es, kind, |es| - 1);
      CountOfIsSize(es[..|es| - 1], kind);
    }
  }

  lemma CountSnoc(es: seq<Event>, e: Event, kind: Kind)
    ensures CountOf(es + [e], kind) == CountOf(es, kind) + Bit(Marks(e, kind))
  {
    assert (es + [e])[..|es|] == es;
  }

  /** The counters of the tasks: solved and unsolved, with hits, with a changed order, decoded. */
  ghost predicate TasksCounted(es: seq<Event>, solved: nat, residual: nat, hits: nat, changes: nat, decodes: nat, successes: nat)
  {
    && solved == CountOf(es, IsSolved) && residual == |ResidualLog(es)|
    && hits == CountOf(es, HasHits) && changes == CountOf(es, IsChanged)
    && decodes == |DecodeLog(es)| && successes == CountOf(es, IsDecoded)
  }

  /** The counters of the attempts. */
  ghost predicate AttemptsCounted(es: seq<Event>, attempts: nat, accepted: nat, rejected: nat)
  {
    attempts == |AttemptLog(es)| == accepted + rejected && accepted == CountOf(es, IsSolved)
  }

  lemma TasksCountedSnoc(es: seq<Event>, e: Event, solved: nat, residual: nat, hits: nat, changes: nat, decodes: nat, successes: nat)
    requires TasksCounted(es, solved, residual, hits, changes, decodes, successes)
    ensures TasksCounted(es + [e], solved + Bit(e.solved), residual + Bit(!e.solved), hits + Bit(e.hit), changes + Bit(e.changed),
                         decodes + Bit(e.hit), successes + Bit(e.solved && e.hit))
  {
    LogsSnoc(es, e);
    CountSnoc(es, e, IsSolved);
    CountSnoc(es, e, HasHits);
    CountSnoc(es, e, IsChanged);
    CountSnoc(es, e, IsDecoded);
  }

  lemma AttemptsCountedSnoc(es: seq<Event>, e: Event, attempts: nat, accepted: nat, rejected: nat)
    requires AttemptsCounted(es, attempts, accepted, rejected) && Sane(e)
    ensures AttemptsCounted(es + [e], attempts + |e.rows|, accepted + Bit(e.solved), rejected + |e.rows| - Bit(e.solved))
  {
    LogsSnoc(es, e);
    CountSnoc(es, e, IsSolved);
  }

  /** All counters of a run after some tasks. */
  ghost predicate Counted(es: seq<Event>, solved: nat, residual: nat, hits: nat, changes: nat, decodes: nat, successes: nat,
                          attempts: nat, accepted: nat, rejected: nat)
  {
    && TasksCounted(es, solved, residual, hits, changes, decodes, successes)
    && AttemptsCounted(es, attempts, accepted, rejected)
  }

  /** Every counter of a result counts what its name says. */
  ghost predicate CountersMean(r: PolicyResult, es: seq<Event>)
  {
    && r.attemptedPairs == |es|
    && Counted(es, r.solved, r.residual, r.lawbookHits, r.actionChanges, r.decodeAttempts, r.decodeSuccess,
               r.attempts, r.accepted, r.rejected)
  }

  ghost predicate Balanced(r: PolicyResult)
  {
    && r.attempts == r.accepted + r.rejected
    && r.solved == r.accepted
    && r.solved + r.residual == r.attemptedPairs
    && r.decodeAttempts == r.lawbookHits
    && r.decodeSuccess <= r.decodeAttempts && r.decodeSuccess <= r.solved
    && r.actionChanges <= r.lawbookHits
  }

  ghost predicate AllSane(es: seq<Event>)
  {
    forall i :: 0 <= i < |es| ==> Sane(es[i])
  }

  lemma {:induction false} EventsBalance(es: seq<Event>)
    requires AllSane(es)
    ensures CountOf(es, IsSolved) + |ResidualLog(es)| == |es|
    ensures |DecodeLog(es)| == CountOf(es, HasHits)
    ensures CountOf(es, IsDecoded) <= CountOf(es, HasHits) && CountOf(es, IsDecoded) <= CountOf(es, IsSolved)
    ensures CountOf(es, IsChanged) <= CountOf(es, HasHits)
  {
    if es == [] {
    } else {
      EventsBalance(es[..|es| - 1]);
    }
  }

  lemma EventsSane(su: Setup, mem: Lists, policy: Policy, tasks: seq<Task>, es: seq<Event>)
    requires EventsOf(su, mem, policy, tasks, es)
    ensures AllSane(es)
  {
    forall i | 0 <= i < |es| ensures Sane(es[i]) {
      assert IsEventOf(su, mem, policy, tasks, i, es[i]);
    }
  }

  /** So the counters balance, whatever the tasks were. */
  lemma CountersBalance(r: PolicyResult, es: seq<Event>)
    requires CountersMean(r, es) && AllSane(es)
    ensures Balanced(r)
  {
    EventsBalance(es);
  }

  /** The events of a whole run and their counters. */
  lemma RunBalances(su: Setup, mem: Lists, policy: Policy, tasks: seq<Task>, es: seq<Event>, now: Lists, r: PolicyResult)
    requires RanUpTo(su, mem, policy, tasks, |tasks|, es, now) && r.attemptedPairs == |tasks|
    requires Counted(es, r.solved, r.residual, r.lawbookHits, r.actionChanges, r.decodeAttempts, r.decodeSuccess,
                     r.attempts, r.accepted, r.rejected)
    ensures CountersMean(r, es) && Balanced(r)
  {
    EventsSane(su, mem, policy, tasks, es);
    CountersBalance(r, es);
  }

  // ------------------------------------------------ what a run says of its tasks

  /** The attempts on a task: the first ids of the order, within the budget, up to the first that
      passes both the checker and the gate. */
  ghost predicate Attempted(su: Setup, order: seq<string>, e: Event)
  {
    && |e.rows| <= |order| && (|e.rows| <= su.budget || e.rows == [])
    && (forall k :: 0 <= k < |e.rows| ==>
          e.rows[k] == AttemptRow(e.task.id, order[k], su.checks(e.task, order[k]) && su.gate(e.task, order[k])))
    && (forall k :: 0 <= k < |e.rows| - 1 ==> !e.rows[k].accepted)
    && (e.solved <==> e.rows != [] && e.rows[|e.rows| - 1].accepted)
    && (e.solved ==> e.winner == e.rows[|e.rows| - 1].constructorId)
    && (!e.solved ==> e.winner == "" && (|e.rows| == |order| || |e.rows| >= su.budget))
  }

  /** One task, on the memory gathered before it. */
  ghost predicate TaskMeans(su: Setup, mem: Lists, policy: Policy, task: Task, e: Event)
  {
    && e.task == task && (e.hit <==> e.suggested != [])
    && exists order :: OrderMeans(su, mem, policy, task, e.suggested, order)
                       && (e.changed <==> e.hit && order != su.bank) && Attempted(su, order, e)
  }

  /** What a task adds to the memory: its winner, in front of its family's list unless known. */
  ghost predicate MemoryMeans(mem: Lists, e: Event, next: Lists)
  {
    var f := e.task.family;
    var ids := if f in mem then mem[f] else [];
    if e.solved then
      && (forall g :: g in next <==> g in mem || g == f)
      && (forall g :: g in mem && g != f ==> next[g] == mem[g])
      && next[f] == if e.winner in ids then ids else [e.winner] + ids
    else next == mem
  }

  ghost predicate StepMeans(su: Setup, policy: Policy, tasks: seq<Task>, es: seq<Event>, mems: seq<Lists>, i: nat)
    requires i < |tasks| == |es| && |mems| == |tasks| + 1
  {
    TaskMeans(su, mems[i], policy, tasks[i], es[i]) && MemoryMeans(mems[i], es[i], mems[i + 1])
  }

  /** Every task in turn, each on the memory the earlier ones left. */
  ghost predicate RunMeans(su: Setup, start: Lists, policy: Policy, tasks: seq<Task>, es: seq<Event>, mems: seq<Lists>, end: Lists)
  {
    && |es| == |tasks| && |mems| == |tasks| + 1 && mems[0] == start && mems[|tasks|] == end
    && forall i {:trigger StepMeans(su, policy, tasks, es, mems, i)} :: 0 <= i < |tasks| ==> StepMeans(su, policy, tasks, es, mems, i)
  }

  lemma {:induction false} RowsMean(su: Setup, task: Task, order: seq<string>, k: nat, i: nat)
    requires i < k <= |order|
    ensures RowsOf(su, task, order, k)[i] == AttemptRow(task.id, order[i], su.checks(task, order[i]) && su.gate(task, order[i]))
  {
    if i == k - 1 {
    } else {
      RowsMean(su, task, order, k - 1, i);
    }
  }

  lemma EventIsAttempted(su: Setup, mem: Lists, policy: Policy, task: Task)
    ensures Attempted(su, Order(su, mem, policy, task), EventOf(su, mem, policy, task))
  {
    var e, order := EventOf(su, mem, policy, task), Order(su, mem, policy, task);
    var m := Attempts(su, mem, policy, task);
    FirstGoodExact(su, task, order, Limit(su.budget, |order|));
    forall k | 0 <= k < m
      ensures e.rows[k] == AttemptRow(e.task.id, order[k], su.checks(e.task, order[k]) && su.gate(e.task, order[k]))
    {
      RowsMean(su, task, order, m, k);
    }
  }

  lemma EventMeans(su: Setup, mem: Lists, policy: Policy, task: Task, e: Event)
    requires e == EventOf(su, mem, policy, task)
    ensures TaskMeans(su, mem, policy, task, e)
  {
    var order := Order(su, mem, policy, task);
    OrderByPolicy(su, mem, policy, task);
    EventIsAttempted(su, mem, policy, task);
    assert OrderMeans(su, mem, policy, task, e.suggested, order)
           && (e.changed <==> e.hit && order != su.bank) && Attempted(su, order, e);
  }

  lemma AfterMeans(su: Setup, mem: Lists, policy: Policy, task: Task, e: Event, next: Lists)
    requires e == EventOf(su, mem, policy, task) && next == AfterTask(su, mem, policy, task)
    ensures MemoryMeans(mem, e, next)
  {
  }

  lemma StepHasMeaning(su: Setup, start: Lists, policy: Policy, tasks: seq<Task>, i: nat, e: Event, mem: Lists, next: Lists)
    requires i < |tasks| && IsEventOf(su, start, policy, tasks, i, e)
    requires mem == MemoryAt(su, start, policy, tasks, i) && next == MemoryAt(su, start, policy, tasks, i + 1)
    ensures TaskMeans(su, mem, policy, tasks[i], e) && MemoryMeans(mem, e, next)
  {
    EventMeans(su, mem, policy, tasks[i], e);
    AfterMeans(su, mem, policy, tasks[i], e, next);
  }

  ghost predicate MemoriesOf(su: Setup, start: Lists, policy: Policy, tasks: seq<Task>, mems: seq<Lists>)
  {
    |mems| == |tasks| + 1 && forall i :: 0 <= i < |mems| ==> mems[i] == MemoryAt(su, start, policy, tasks, i)
  }

  lemma EventsMean(su: Setup, start: Lists, policy: Policy, tasks: seq<Task>, es: seq<Event>, end: Lists, mems: seq<Lists>)
    requires RanUpTo(su, start, policy, tasks, |tasks|, es, end) && MemoriesOf(su, start, policy, tasks, mems)
    ensures RunMeans(su, start, policy, tasks, es, mems, end)
  {
    forall i {:trigger StepMeans(su, policy, tasks, es, mems, i)} | 0 <= i < |tasks| ensures StepMeans(su, policy, tasks, es, mems, i) {
      assert IsEventOf(su, start, policy, tasks, i, es[i]);
      StepHasMeaning(su, start, policy, tasks, i, es[i], mems[i], mems[i + 1]);
    }
  }

  /** Policies that do not read the memory count no hit and no changed order. */
  lemma {:induction false} NoHitsWithoutMemory(su: Setup, start: Lists, policy: Policy, tasks: seq<Task>, es: seq<Event>)
    requires EventsOf(su, start, policy, tasks, es)
    requires policy != Memory && policy != LawbookAttention && policy != ReasonAtlas
    ensures CountOf(es, HasHits) == 0 && CountOf(es, IsChanged) == 0 && HitLog(es) == [] && DecodeLog(es) == []
  {
    if es == [] {
    } else {
      var n := |es| - 1;
      NoHitsWithoutMemory(su, start, policy, tasks, es[..n]) by {
        forall i | 0 <= i < n ensures IsEventOf(su, start, policy, tasks, i, es[..n][i]) {
          assert IsEventOf(su, start, policy, tasks, i, es[i]);
        }
      }
      assert IsEventOf(su, start, policy, tasks, n, es[n]);
    }
  }

  lemma ListMemories(su: Setup, start: Lists, policy: Policy, tasks: seq<Task>) returns (mems: seq<Lists>)
    ensures MemoriesOf(su, start, policy, tasks, mems)
  {
    mems := seq(|tasks| + 1, i requires 0 <= i < |tasks| + 1 => MemoryAt(su, start, policy, tasks, i));
  }

  lemma RunHasMeaning(su: Setup, start: Lists, policy: Policy, tasks: seq<Task>, es: seq<Event>, end: Lists)
    requires RanUpTo(su, start, policy, tasks, |tasks|, es, end)
    ensures exists mems :: RunMeans(su, start, policy, tasks, es, mems, end)
  {
    var mems := ListMemories(su, start, policy, tasks);
    EventsMean(su, start, policy, tasks, es, end, mems);
  }

  lemma NoCountsWithoutMemory(su: Setup, start: Lists, policy: Policy, tasks: seq<Task>, es: seq<Event>, r: PolicyResult)
    requires EventsOf(su, start, policy, tasks, es) && CountersMean(r, es)
    ensures policy != Memory && policy != LawbookAttention && policy != ReasonAtlas ==> r.lawbookHits == 0 && r.actionChanges == 0
  {
    if policy != Memory && policy != LawbookAttention && policy != ReasonAtlas {
      NoHitsWithoutMemory(su, start, policy, tasks, es);
    }
  }

  // ----------------------------------------------------------------- training

  /** The bank's constructor number `k` is the first to pass the checker. */
  ghost predicate FirstChecked(su: Setup, task: Task, k: nat)
    requires k < |su.bank|
  {
    su.checks(task, su.bank[k]) && forall j :: 0 <= j < k ==> !su.checks(task, su.bank[j])
  }

  /** What a training task teaches: the first constructor that passes the checker, unless the
      gate refuses it. */
  ghost function Lesson(su: Setup, task: Task): (r: Option<string>)
    ensures r.Some? ==> r.value in su.bank && Good(su, task, r.value)
  {
    if k :| 0 <= k < |su.bank| && FirstChecked(su, task, k) && su.gate(task, su.bank[k])
    then Some(su.bank[k]) else None
  }

  lemma LessonIsFirst(su: Setup, task: Task, k: nat)
    requires k < |su.bank| && FirstChecked(su, task, k)
    ensures Lesson(su, task) == if su.gate(task, su.bank[k]) then Some(su.bank[k]) else None
  {
    assert forall j :: 0 <= j < |su.bank| && FirstChecked(su, task, j) ==> j == k;
  }

  ghost function AfterLesson(su: Setup, mem: Lists, task: Task): Lists
  {
    var r := Lesson(su, task);
    if r.Some? then Learned(mem, task, r.value) else mem
  }

  ghost function AfterTraining(su: Setup, mem: Lists, train: seq<Task>): Lists
  {
    if train == [] then mem
    else
      var n := |train| - 1;
      AfterLesson(su, AfterTraining(su, mem, train[..n]), train[n])
  }

  ghost function LessonLog(su: Setup, train: seq<Task>): seq<(string, string)>
  {
    if train == [] then []
    else
      var n := |train| - 1;
      var r := Lesson(su, train[n]);
      LessonLog(su, train[..n]) + if r.Some? then [(train[n].id, r.value)] else []
  }

  /** A lesson keeps every stored id, and stores its own. */
  lemma LessonKeeps(su: Setup, mem: Lists, task: Task, other: Task, c: string)
    requires c in Query(mem, other) || (other == task && Lesson(su, task) == Some(c))
    ensures c in Query(AfterLesson(su, mem, task), other)
  {
  }

  /** Training is never forgotten: the lesson of every training task stays in its family's list. */
  lemma {:induction false} LessonsAreKept(su: Setup, mem: Lists, train: seq<Task>, i: nat)
    requires i < |train| && Lesson(su, train[i]).Some?
    ensures Lesson(su, train[i]).value in Query(AfterTraining(su, mem, train), train[i])
  {
    var n := |train| - 1;
    var before := AfterTraining(su, mem, train[..n]);
    if i < n {
      LessonsAreKept(su, mem, train[..n], i);
    }
    LessonKeeps(su, before, train[n], train[i], Lesson(su, train[i]).value);
  }

  /** So a memory policy refutes every training task that taught something within a budget of
      its family's list, wherever the constructor stands in the bank. */
  lemma TrainedTasksAreSolved(su: Setup, mem: Lists, train: seq<Task>, i: nat, policy: Policy)
    requires i < |train| && Lesson(su, train[i]).Some? && UsesMemory(policy)
    requires su.budget >= |Query(AfterTraining(su, mem, train), train[i])|
    ensures Solved(su, AfterTraining(su, mem, train), policy, train[i])
  {
    var now, task := AfterTraining(su, mem, train), train[i];
    LessonsAreKept(su, mem, train, i);
    var hits := Query(now, task);
    var j :| 0 <= j < |hits| && hits[j] == Lesson(su, task).value;
    var order := Order(su, now, policy, task);
    assert order[j] == hits[j];
    FirstGoodExact(su, task, order, Limit(su.budget, |order|));
  }

  class Engine {
    const su: Setup
    var byFamily: Lists
    var acceptedLog: seq<(string, string)>
    var attemptRows: seq<AttemptRow>
    var residualRows: seq<string>
    var decodeRows: seq<DecodeRow>
    var hitRows: seq<HitRow>

    constructor (su: Setup)
      ensures this.su == su && byFamily == map[] && acceptedLog == [] && attemptRows == [] && residualRows == []
      ensures decodeRows == [] && hitRows == []
    {
      this.su := su;
      byFamily, acceptedLog, attemptRows, residualRows, decodeRows, hitRows := map[], [], [], [], [], [];
    }

    /** `_Memory.learn`. */
    method Learn(task: Task, c: string)
      modifies this`byFamily, this`acceptedLog
      ensures byFamily == Learned(old(byFamily), task, c)
      ensures acceptedLog == old(acceptedLog) + [(task.id, c)]
    {
      if task.family !in byFamily {
        byFamily := byFamily[task.family := []];
      }
      var ids := byFamily[task.family];
      if c !in ids {
        byFamily := byFamily[task.family := [c] + ids];
      }
      acceptedLog := acceptedLog + [(task.id, c)];
    }

    /** One task: the first constructor that passes the checker, learned if the gate accepts it;
        the search stops there either way. */
    method TrainOne(task: Task)
      requires SoundSetup(su) && MemoryOk(su, byFamily)
      modifies this`byFamily, this`acceptedLog
      ensures byFamily == AfterLesson(su, old(byFamily), task) && MemoryOk(su, byFamily)
      ensures acceptedLog == old(acceptedLog) + LessonLog(su, [task])
    {
      for k := 0 to |su.bank|
        invariant byFamily == old(byFamily) && acceptedLog == old(acceptedLog)
        invariant forall j :: 0 <= j < k ==> !su.checks(task, su.bank[j])
      {
        if su.checks(task, su.bank[k]) {
          LessonIsFirst(su, task, k);
          if su.gate(task, su.bank[k]) {
            LearnedOk(su, byFamily, task, su.bank[k]);
            Learn(task, su.bank[k]);
          }
          return;
        }
      }
    }

    /** `_train_memory`: the lessons of all tasks, in turn. */
    method TrainMemory(train: seq<Task>)
      requires SoundSetup(su) && MemoryOk(su, byFamily)
      modifies this`byFamily, this`acceptedLog
      ensures byFamily == AfterTraining(su, old(byFamily), train) && MemoryOk(su, byFamily)
      ensures acceptedLog == old(acceptedLog) + LessonLog(su, train)
    {
      for i := 0 to |train|
        invariant byFamily == AfterTraining(su, old(byFamily), train[..i]) && MemoryOk(su, byFamily)
        invariant acceptedLog == old(acceptedLog) + LessonLog(su, train[..i])
      {
        assert train[..i + 1][..i] == train[..i];
        TrainOne(train[i]);
      }
      assert train[..|train|] == train;
    }

    /** One task of `_run_policy`: its attempts in order, up to the budget or the first success. */
    method TryTask(task: Task, order: seq<string>) returns (solved: bool, attempts: nat, rejected: nat)
      modifies this`byFamily, this`acceptedLog, this`attemptRows
      ensures var r := FirstGood(su, task, order, Limit(su.budget, |order|));
              && (solved <==> r.Some?)
              && attempts == (if r.Some? then r.value + 1 else Limit(su.budget, |order|))
              && rejected == (if r.Some? then r.value else attempts)
              && byFamily == (if r.Some? then Learned(old(byFamily), task, order[r.value]) else old(byFamily))
      ensures attempts <= |order| && attemptRows == old(attemptRows) + RowsOf(su, task, order, attempts)
      ensures acceptedLog == old(acceptedLog) + if solved then [(task.id, order[attempts - 1])] else []
    {
      var limit := Limit(su.budget, |order|);
      solved, attempts, rejected := false, 0, 0;
      var k := 0;
      while k < limit
        invariant 0 <= k <= limit && attempts == k && rejected == k
        invariant byFamily == old(byFamily) && acceptedLog == old(acceptedLog)
        invariant FirstGood(su, task, order, k) == None
        invariant attemptRows == old(attemptRows) + RowsOf(su, task, order, k)
      {
        var c := order[k];
        attempts := attempts + 1;
        if su.checks(task, c) {
          if su.gate(task, c) {
            solved := true;
            FirstGoodAt(su, task, order, k, limit);
            Learn(task, c);
            attemptRows := attemptRows + [AttemptRow(task.id, c, true)];
            return;
          }
          rejected := rejected + 1;
        } else {
          rejected := rejected + 1;
        }
        attemptRows := attemptRows + [AttemptRow(task.id, c, false)];
        k := k + 1;
      }
    }

    ghost function Written(): Logs
      reads this
    {
      Logs(attemptRows, residualRows, decodeRows, hitRows, acceptedLog)
    }

    /** The residual row of an unsolved task, and the decode row of a task with hits. */
    method LogOutcome(task: Task, hit: bool, solved: bool, winner: string)
      requires !solved ==> winner == ""
      modifies this`residualRows, this`decodeRows
      ensures residualRows == old(residualRows) + if solved then [] else [task.id]
      ensures decodeRows == old(decodeRows) + if hit then [DecodeRow(task.id, solved, winner)] else []
    {
      if solved {
        if hit {
          decodeRows := decodeRows + [DecodeRow(task.id, true, winner)];
        }
      } else {
        residualRows := residualRows + [task.id];
        if hit {
          decodeRows := decodeRows + [DecodeRow(task.id, false, "")];
        }
      }
    }

    /** The loop body of `_run_policy`: order, attempts, and the rows of the outcome. */
    method RunTask(policy: Policy, task: Task)
      returns (hit: bool, changed: bool, solved: bool, attempts: nat, rejected: nat)
      modifies this
      ensures var e := EventOf(su, old(byFamily), policy, task);
              && hit == e.hit && changed == e.changed && solved == e.solved
              && attempts == |e.rows| == Bit(solved) + rejected
              && Written() == LogEvent(old(Written()), e)
      ensures byFamily == AfterTask(su, old(byFamily), policy, task)
    {
      var order := Order(su, byFamily, policy, task);
      hit := Hits(byFamily, policy, task) != [];
      changed := hit && order != su.bank;
      if hit {
        hitRows := hitRows + [HitRow(task.id, changed, Hits(byFamily, policy, task))];
      }
      solved, attempts, rejected := TryTask(task, order);
      LogOutcome(task, hit, solved, if solved then order[attempts - 1] else "");
    }

    /** `RunTask`, with its event added to the events of the run. */
    method NextTask(policy: Policy, tasks: seq<Task>, i: nat, ghost start: Lists, ghost before: Logs, ghost es: seq<Event>)
      returns (hit: bool, changed: bool, solved: bool, attempts: nat, rejected: nat, ghost e: Event)
      requires i < |tasks| && RanUpTo(su, start, policy, tasks, i, es, byFamily) && Written() == LogsAfter(before, es)
      modifies this
      ensures RanUpTo(su, start, policy, tasks, i + 1, es + [e], byFamily) && Written() == LogsAfter(before, es + [e])
      ensures Sane(e) && hit == e.hit && changed == e.changed && solved == e.solved
      ensures attempts == |e.rows| == Bit(solved) + rejected
    {
      e := EventOf(su, byFamily, policy, tasks[i]);
      RanOneMore(su, start, policy, tasks, i, es, byFamily, e, AfterTask(su, byFamily, policy, tasks[i]));
      LogsAfterSnoc(before, es, e);
      hit, changed, solved, attempts, rejected := RunTask(policy, tasks[i]);
    }

    /** The counters after one more task. */
    method CountTask(policy: Policy, tasks: seq<Task>, i: nat, ghost start: Lists, ghost before: Logs, ghost es: seq<Event>,
                     solved: nat, residual: nat, hits: nat, changes: nat, decodes: nat, successes: nat,
                     attempts: nat, accepted: nat, rejected: nat)
      returns (ghost e: Event, solved': nat, residual': nat, hits': nat, changes': nat, decodes': nat, successes': nat,
               attempts': nat, accepted': nat, rejected': nat)
      requires i < |tasks| && RanUpTo(su, start, policy, tasks, i, es, byFamily) && Written() == LogsAfter(before, es)
      requires Counted(es, solved, residual, hits, changes, decodes, successes, attempts, accepted, rejected)
      modifies this
      ensures RanUpTo(su, start, policy, tasks, i + 1, es + [e], byFamily) && Written() == LogsAfter(before, es + [e])
      ensures Counted(es + [e], solved', residual', hits', changes', decodes', successes', attempts', accepted', rejected')
    {
      var hit, changed, done, tries, misses;
      hit, changed, done, tries, misses, e := NextTask(policy, tasks, i, start, before, es);
      TasksCountedSnoc(es, e, solved, residual, hits, changes, decodes, successes);
      AttemptsCountedSnoc(es, e, attempts, accepted, rejected);
      solved', residual' := solved + Bit(done), residual + Bit(!done);
      hits', changes' := hits + Bit(hit), changes + Bit(changed);
      decodes', successes' := decodes + Bit(hit), successes + Bit(done && hit);
      attempts', accepted', rejected' := attempts + tries, accepted + Bit(done), rejected + misses;
    }

    /** `_run_policy`: all tasks in turn, learning on the way. */
    method RunPolicy(policy: Policy, tasks: seq<Task>) returns (r: PolicyResult, ghost es: seq<Event>)
      modifies this
      ensures RanUpTo(su, old(byFamily), policy, tasks, |tasks|, es, byFamily)
      ensures exists mems :: RunMeans(su, old(byFamily), policy, tasks, es, mems, byFamily)
      ensures CountersMean(r, es) && Balanced(r)
      ensures policy != Memory && policy != LawbookAttention && policy != ReasonAtlas ==> r.lawbookHits == 0 && r.actionChanges == 0
      ensures Written() == LogsAfter(old(Written()), es)
    {
      var solved: nat, residual: nat, hits: nat, changes: nat := 0, 0, 0, 0;
      var decodes: nat, successes: nat := 0, 0;
      var attempts: nat, accepted: nat, rejected: nat := 0, 0, 0;
      es := [];
      ghost var start, before := byFamily, Written();
      for i := 0 to |tasks|
        invariant RanUpTo(su, start, policy, tasks, i, es, byFamily) && Written() == LogsAfter(before, es)
        invariant Counted(es, solved, residual, hits, changes, decodes, successes, attempts, accepted, rejected)
      {
        ghost var e;
        e, solved, residual, hits, changes, decodes, successes, attempts, accepted, rejected :=
          CountTask(policy, tasks, i, start, before, es, solved, residual, hits, changes, decodes, successes, attempts, accepted, rejected);
        es := es + [e];
      }
      r := PolicyResult(policy, |tasks|, solved, residual, attempts, accepted, rejected, hits, changes, decodes, successes);
      RunBalances(su, start, policy, tasks, es, byFamily, r);
      RunHasMeaning(su, start, policy, tasks, es, byFamily);
      NoCountsWithoutMemory(su, start, policy, tasks, es, r);
    }
  }
}
