/** Whole runs of the scheduler over one frozen plan: batches are started, started tasks complete. */
module SchedulerRun {
  import opened Digraph
  import opened Prelude
  import opened ReadySet
  import opened DispatchBatch

  /** The log so far, and the tasks that carry a dispatch stamp, in starting order. */
  datatype State = State(log: seq<Event>, started: seq<string>)

  datatype Step = Dispatch | Complete(task: string)

  function StartedSet(s: State): set<string> {
    set t | t in s.started
  }

  function Active(s: State): set<string> {
    StartedSet(s) - CompletedTasks(s.log)
  }

  function LoadOf(policy: Policy, active: set<string>): Load {
    var used := set t | t in active :: TierOf(policy, t);
    Load(|active|, map tier | tier in used :: |set t | t in active && TierOf(policy, t) == tier|)
  }

  function Names(picked: seq<(string, string)>): seq<string> {
    if picked == [] then [] else Names(picked[..|picked| - 1]) + [picked[|picked| - 1].0]
  }

  /** Each name once, where it first stands. */
  function Distinct(tasks: seq<string>): seq<string> {
    if tasks == [] then []
    else
      var before, last := Distinct(tasks[..|tasks| - 1]), tasks[|tasks| - 1];
      if last in before then before else before + [last]
  }

  /** The dispatcher keeps its candidates under their task ids and hands the ids on in order. */
  function Pool(candidates: seq<string>): seq<string> {
    SortBy(Distinct(candidates), LexLe)
  }

  method CollectPool(candidates: seq<string>) returns (pool: seq<string>)
    ensures pool == Pool(candidates)
  {
    pool := [];
    assert candidates[..|candidates|] == candidates;
    for i := 0 to |candidates|
      invariant pool == Distinct(candidates[..i])
    {
      assert candidates[..i + 1][..i] == candidates[..i];
      if candidates[i] !in pool { pool := pool + [candidates[i]]; }
    }
    pool := SortBy(pool, LexLe);
  }

  lemma {:induction false} DistinctCount(tasks: seq<string>, t: string)
    ensures multiset(Distinct(tasks))[t] == if t in tasks then 1 else 0
  {
    if tasks != [] {
      var front, last := tasks[..|tasks| - 1], tasks[|tasks| - 1];
      DistinctCount(front, t);
      DistinctCount(front, last);
      assert tasks == front + [last];
      assert last in Distinct(front) <==> last in multiset(Distinct(front));
    }
  }

  /** However often a task is a candidate, it is in the pool once. */
  lemma PoolCount(candidates: seq<string>, t: string)
    ensures multiset(Pool(candidates))[t] == if t in candidates then 1 else 0
    ensures t in Pool(candidates) <==> t in candidates
  {
    DistinctCount(candidates, t);
    SortByKeeps(Distinct(candidates), LexLe);
    assert t in Pool(candidates) <==> t in multiset(Pool(candidates));
  }

  ghost function NextBatch(policy: Policy, plan: string, s: State): seq<(string, string)> {
    Batch(policy, Pool(Candidates(s.log, plan, StartedSet(s))), Active(s), LoadOf(policy, Active(s)))
  }

  ghost function Next(policy: Policy, plan: string, s: State, step: Step): State {
    match step
    case Dispatch => s.(started := s.started + Names(NextBatch(policy, plan, s)))
    case Complete(task) => if task in Active(s) then s.(log := s.log + [TaskRunCompleted(task, true)]) else s
  }

  ghost function Run(policy: Policy, plan: string, s: State, steps: seq<Step>): State {
    if steps == [] then s
    else Next(policy, plan, Run(policy, plan, s, steps[..|steps| - 1]), steps[|steps| - 1])
  }

  /** Every name at most once. */
  ghost predicate Once(names: seq<string>) {
    forall t :: multiset(names)[t] <= 1
  }

  /** An acyclic plan of execution tasks, with no gate shut and no replan pending. */
  ghost predicate Plain(log: seq<Event>, plan: string) {
    && Acyclic(DepEdges(log, plan), OpenTasks(log, plan)) && "" !in PlanTasks(log, plan)
    && forall t :: t in PlanTasks(log, plan) ==> TypeOf(log, t) != REVIEW && !PendingReplan(log, t) && !Gated(log, plan, t)
  }

  ghost predicate Waits(log: seq<Event>, plan: string, t: string) {
    t in PlanTasks(log, plan) && t !in Satisfied(log, CompletedTasks(log))
  }

  predicate SomeRoom(policy: Policy) {
    policy.capTotal >= 1 && policy.capOpus >= 1 && policy.capSonnet >= 1
  }

  ghost predicate PredecessorsDone(log: seq<Event>, plan: string, t: string) {
    forall src :: (src, t) in DepEdges(log, plan) ==> src in Satisfied(log, CompletedTasks(log))
  }

  /** Each started task was started once, belongs to the plan, and had its predecessors satisfied. */
  ghost predicate Inv(plan: string, s: State) {
    && Plain(s.log, plan) && Once(s.started)
    && forall t :: t in s.started ==> t in PlanTasks(s.log, plan) && PredecessorsDone(s.log, plan, t)
  }

  // ------------------------------------------------------------ a completion changes only who is done

  lemma {:induction false} PhaseOfAppend(log: seq<Event>, e: Event, t: string)
    requires !e.TaskNodeCreated?
    ensures PhaseOf(log + [e], t) == PhaseOf(log, t) && TypeOf(log + [e], t) == TypeOf(log, t)
  {
    if log == [] {
      assert (log + [e])[1..] == [];
    } else {
      PhaseOfAppend(log[1..], e, t);
      assert (log + [e])[1..] == log[1..] + [e];
    }
  }

  lemma CompletionChangesOnlyDone(log: seq<Event>, plan: string, t: string)
    requires t != ""
    ensures var log' := log + [TaskRunCompleted(t, true)];
            && PlanTasks(log', plan) == PlanTasks(log, plan) && DepEdges(log', plan) == DepEdges(log, plan)
            && ClosedTasks(log') == ClosedTasks(log) && CompletedTasks(log') == CompletedTasks(log) + {t}
  {
    var e := TaskRunCompleted(t, true);
    var log' := log + [e];
    assert log'[..|log|] == log;
    assert forall x :: x in log' <==> x in log || x == e;
    assert CompletedTasks(log') == CompletedTasks(log) + {t} by {
      forall x ensures x in CompletedTasks(log') <==> x in CompletedTasks(log) || x == t {
        if x == t { assert e in log' && e.TaskRunCompleted? && e.taskId == t; }
        if x in CompletedTasks(log) {
          var c :| c in log && c.TaskRunCompleted? && c.success && c.taskId != "" && c.taskId == x;
          assert c in log';
        }
      }
    }
  }

  lemma CompletionKeepsPending(log: seq<Event>, t: string, other: string)
    ensures PendingReplan(log + [TaskRunCompleted(t, true)], other) == PendingReplan(log, other)
  {
    var e := TaskRunCompleted(t, true);
    assert forall x :: x in log + [e] <==> x in log || x == e;
    forall at: nat ensures Unanswered(log + [e], other, at) == Unanswered(log, other, at) {
    }
  }

  lemma CompletionKeepsGate(log: seq<Event>, plan: string, t: string)
    ensures HasReviewPlan(log + [TaskRunCompleted(t, true)], plan) == HasReviewPlan(log, plan)
  {
    var log' := log + [TaskRunCompleted(t, true)];
    if i :| 0 <= i < |log| && ReviewsPlan(log[i], plan) { assert ReviewsPlan(log'[i], plan); }
    if i :| 0 <= i < |log'| && ReviewsPlan(log'[i], plan) { assert ReviewsPlan(log[i], plan); }
  }

  lemma CompletionKeepsPlain(log: seq<Event>, plan: string, t: string)
    requires Plain(log, plan) && t != ""
    ensures Plain(log + [TaskRunCompleted(t, true)], plan)
  {
    CompletionChangesOnlyDone(log, plan, t);
    CompletionKeepsGate(log, plan, t);
    forall other | other in PlanTasks(log, plan)
      ensures var log' := log + [TaskRunCompleted(t, true)];
              TypeOf(log', other) != REVIEW && !PendingReplan(log', other) && !Gated(log', plan, other)
    {
      PhaseOfAppend(log, TaskRunCompleted(t, true), other);
      CompletionKeepsPending(log, t, other);
    }
  }

  // ------------------------------------------------------------ a batch starts nothing twice

  /** Filtering keeps each kept name as often as it was there. */
  lemma {:induction false} FilterCount(tasks: seq<string>, keep: string -> bool, t: string)
    ensures multiset(Filter(tasks, keep))[t] == if keep(t) then multiset(tasks)[t] else 0
  {
    if tasks != [] {
      var last := |tasks| - 1;
      FilterCount(tasks[..last], keep, t);
      assert tasks == tasks[..last] + [tasks[last]];
    }
  }

  /** The ready list repeats a ready task as often as the plan created it. */
  lemma ReadyCount(log: seq<Event>, plan: string, completed: set<string>, t: string)
    ensures multiset(Ready(log, plan, completed))[t]
            == if IsReady(log, plan, completed, t) then multiset(PlanTasks(log, plan))[t] else 0
  {
    FilterCount(PlanTasks(log, plan), x => IsReady(log, plan, completed, x), t);
  }

  lemma {:induction false} NamesWithin(policy: Policy, load: Load, queue: seq<string>)
    ensures multiset(Names(Picked(policy, load, queue))) <= multiset(queue)
  {
    if queue != [] {
      var last := |queue| - 1;
      NamesWithin(policy, load, queue[..last]);
      assert queue == queue[..last] + [queue[last]];
      var before, picked := Picked(policy, load, queue[..last]), Picked(policy, load, queue);
      if picked != before {
        assert picked[..|picked| - 1] == before;
        assert Names(picked) == Names(before) + [queue[last]];
      }
    }
  }

  lemma {:induction false} NamesMembers(picked: seq<(string, string)>, t: string)
    ensures t in Names(picked) <==> exists p :: p in picked && p.0 == t
  {
    if picked != [] {
      var last := |picked| - 1;
      NamesMembers(picked[..last], t);
      assert picked == picked[..last] + [picked[last]];
    }
  }

  lemma NamesOfNone(picked: seq<(string, string)>)
    requires forall t :: t !in Names(picked)
    ensures picked == []
  {
    if picked != [] { NamesMembers(picked, picked[0].0); }
  }

  lemma DifferenceEmpty(a: set<string>, b: set<string>)
    requires a - b == {}
    ensures a <= b
  {
    forall t | t in a ensures t in b { assert t !in a - b; }
  }

  lemma BatchCount(policy: Policy, plan: string, s: State, t: string)
    ensures multiset(Names(NextBatch(policy, plan, s)))[t] <= 1
    ensures t in Names(NextBatch(policy, plan, s)) ==>
              t !in s.started && IsReady(s.log, plan, CompletedTasks(s.log), t)
  {
    var candidates := Candidates(s.log, plan, StartedSet(s));
    var eligible := Eligible(policy, Pool(candidates), Active(s));
    NamesWithin(policy, LoadOf(policy, Active(s)), Queue(policy.critical, eligible));
    QueueIsSorted(policy.critical, eligible);
    FilterCount(Pool(candidates), x => !Blocked(policy, Active(s), x), t);
    PoolCount(candidates, t);
    if t in Names(NextBatch(policy, plan, s)) {
      assert multiset(eligible)[t] >= multiset(Names(NextBatch(policy, plan, s)))[t] > 0;
      CandidateMembers(s.log, plan, StartedSet(s), t);
    }
  }

  // ------------------------------------------------------------ whole runs

  lemma DispatchKeepsInv(policy: Policy, plan: string, s: State)
    requires Inv(plan, s)
    ensures Inv(plan, Next(policy, plan, s, Dispatch))
  {
    var names := Names(NextBatch(policy, plan, s));
    forall t ensures multiset(s.started + names)[t] <= 1 {
      BatchCount(policy, plan, s, t);
      assert multiset(s.started)[t] <= 1;
      if multiset(names)[t] > 0 { assert t in names; }
    }
    forall t | t in s.started + names
      ensures t in PlanTasks(s.log, plan) && PredecessorsDone(s.log, plan, t)
    {
      if t !in s.started { BatchCount(policy, plan, s, t); }
    }
  }

  lemma CompleteKeepsInv(policy: Policy, plan: string, s: State, task: string)
    requires Inv(plan, s)
    ensures Inv(plan, Next(policy, plan, s, Complete(task)))
  {
    if task in Active(s) {
      assert task in PlanTasks(s.log, plan);
      CompletionKeepsPlain(s.log, plan, task);
      CompletionChangesOnlyDone(s.log, plan, task);
    }
  }

  /** On every run each task is started at most once, and only when every predecessor is satisfied. */
  lemma {:induction false} StartedOnceInOrder(policy: Policy, plan: string, log: seq<Event>, steps: seq<Step>)
    requires Plain(log, plan)
    ensures Inv(plan, Run(policy, plan, State(log, []), steps))
  {
    if steps != [] {
      var last := |steps| - 1;
      var before := Run(policy, plan, State(log, []), steps[..last]);
      StartedOnceInOrder(policy, plan, log, steps[..last]);
      match steps[last]
      case Dispatch => DispatchKeepsInv(policy, plan, before);
      case Complete(task) => CompleteKeepsInv(policy, plan, before, task);
    }
  }

  /** An idle state never stalls: either the whole plan is satisfied or the next batch starts something. */
  lemma IdleStateMeansDone(policy: Policy, plan: string, s: State)
    requires Inv(plan, s) && SomeRoom(policy) && Active(s) == {}
    ensures AllSatisfied(s.log, plan, CompletedTasks(s.log)) <==> NextBatch(policy, plan, s) == []
  {
    if AllSatisfied(s.log, plan, CompletedTasks(s.log)) {
      forall t ensures t !in Names(NextBatch(policy, plan, s)) {
        BatchCount(policy, plan, s, t);
      }
      NamesOfNone(NextBatch(policy, plan, s));
    } else {
      var task := UnblockedTask(s.log, plan, CompletedTasks(s.log));
      DifferenceEmpty(StartedSet(s), CompletedTasks(s.log));
      CandidateMembers(s.log, plan, StartedSet(s), task);
      PoolCount(Candidates(s.log, plan, StartedSet(s)), task);
      LeftOutOnlyWhenFull(policy, Pool(Candidates(s.log, plan, StartedSet(s))), {}, LoadOf(policy, {}), task, TierOf(policy, task), CapOf(policy, TierOf(policy, task)));
    }
  }

  /** On every run: with nothing active, the next batch is empty iff every task is satisfied. */
  lemma IdleMeansDone(policy: Policy, plan: string, log: seq<Event>, steps: seq<Step>)
    requires Plain(log, plan) && SomeRoom(policy)
    requires Active(Run(policy, plan, State(log, []), steps)) == {}
    ensures var s := Run(policy, plan, State(log, []), steps);
            AllSatisfied(s.log, plan, CompletedTasks(s.log)) <==> NextBatch(policy, plan, s) == []
  {
    StartedOnceInOrder(policy, plan, log, steps);
    IdleStateMeansDone(policy, plan, Run(policy, plan, State(log, []), steps));
  }

  /** A run starts at most as many tasks as the plan has, so from some point on it only completes. */
  lemma StartsAreBounded(policy: Policy, plan: string, log: seq<Event>, steps: seq<Step>)
    requires Plain(log, plan)
    ensures var s := Run(policy, plan, State(log, []), steps); |s.started| <= |PlanTasks(s.log, plan)|
  {
    var s := Run(policy, plan, State(log, []), steps);
    StartedOnceInOrder(policy, plan, log, steps);
    forall t ensures multiset(s.started)[t] <= multiset(PlanTasks(s.log, plan))[t] {
      if multiset(s.started)[t] > 0 {
        assert t in s.started;
        assert t in multiset(PlanTasks(s.log, plan));
      }
    }
    assert multiset(s.started) <= multiset(PlanTasks(s.log, plan));
    SubmultisetSize(multiset(s.started), multiset(PlanTasks(s.log, plan)));
  }

  lemma SubmultisetSize(a: multiset<string>, b: multiset<string>)
    requires a <= b
    ensures |a| <= |b|
  {
    assert b == a + (b - a);
  }

  // ------------------------------------------------------------ each waiting task is started once

  /** What a run has done so far: it started only tasks that waited at first, and completed only those. */
  ghost predicate Since(plan: string, log: seq<Event>, s: State) {
    && PlanTasks(s.log, plan) == PlanTasks(log, plan) && ClosedTasks(s.log) == ClosedTasks(log)
    && CompletedTasks(log) <= CompletedTasks(s.log) <= CompletedTasks(log) + StartedSet(s)
    && forall t :: t in s.started ==> Waits(log, plan, t)
  }

  lemma StepSince(policy: Policy, plan: string, log: seq<Event>, s: State, step: Step)
    requires Inv(plan, s) && Since(plan, log, s)
    ensures Since(plan, log, Next(policy, plan, s, step))
  {
    var s' := Next(policy, plan, s, step);
    match step {
      case Dispatch =>
        forall t | t in s'.started ensures Waits(log, plan, t) {
          if t !in s.started { BatchCount(policy, plan, s, t); }
        }
      case Complete(task) =>
        if task in Active(s) {
          assert task in PlanTasks(s.log, plan);
          CompletionChangesOnlyDone(s.log, plan, task);
        }
    }
  }

  lemma {:induction false} RunSince(policy: Policy, plan: string, log: seq<Event>, steps: seq<Step>)
    requires Plain(log, plan)
    ensures Since(plan, log, Run(policy, plan, State(log, []), steps))
  {
    if steps != [] {
      RunSince(policy, plan, log, steps[..|steps| - 1]);
      StartedOnceInOrder(policy, plan, log, steps[..|steps| - 1]);
      StepSince(policy, plan, log, Run(policy, plan, State(log, []), steps[..|steps| - 1]), steps[|steps| - 1]);
    }
  }

  /** A run that has nothing active and nothing to start has started each task that waited at first exactly
      once, and no other. */
  lemma EachWaitingTaskIsStartedOnce(policy: Policy, plan: string, log: seq<Event>, steps: seq<Step>, t: string)
    requires Plain(log, plan) && SomeRoom(policy)
    requires var s := Run(policy, plan, State(log, []), steps); Active(s) == {} && NextBatch(policy, plan, s) == []
    ensures multiset(Run(policy, plan, State(log, []), steps).started)[t] == if Waits(log, plan, t) then 1 else 0
  {
    var s := Run(policy, plan, State(log, []), steps);
    StartedOnceInOrder(policy, plan, log, steps);
    RunSince(policy, plan, log, steps);
    IdleMeansDone(policy, plan, log, steps);
    assert t in s.started <==> t in multiset(s.started);
    if Waits(log, plan, t) {
      assert t in PlanSet(s.log, plan);
      assert t in StartedSet(s);
    }
  }

  // ------------------------------------------------------------ the caps over whole runs

  ghost function OnTierOf(policy: Policy, tasks: set<string>, tier: string): set<string> {
    set t | t in tasks && OnTier(policy, t, tier)
  }

  /** No more tasks are active than the total cap, and on no tier more than its cap. */
  ghost predicate WithinCaps(policy: Policy, active: set<string>) {
    && |active| <= Max(0, policy.capTotal)
    && forall tier, cap :: CapIs(policy, tier, cap) ==> |OnTierOf(policy, active, tier)| <= Max(0, cap)
  }

  ghost function NameSet(picked: seq<(string, string)>): set<string> {
    set t | t in Names(picked)
  }

  lemma StartedOneMore(front: seq<(string, string)>, last: (string, string))
    ensures NameSet(front + [last]) == NameSet(front) + {last.0}
  {
    assert (front + [last])[..|front|] == front;
  }

  lemma OnTierOneMore(policy: Policy, tasks: set<string>, t: string, tier: string)
    ensures |OnTierOf(policy, tasks + {t}, tier)| <= |OnTierOf(policy, tasks, tier)| + if OnTier(policy, t, tier) then 1 else 0
  {
    var here := OnTierOf(policy, tasks, tier);
    assert OnTierOf(policy, tasks + {t}, tier) == here + if OnTier(policy, t, tier) then {t} else {};
  }

  lemma {:induction false} StartedOnTier(policy: Policy, picked: seq<(string, string)>, tier: string)
    requires forall p :: p in picked ==> OnTier(policy, p.0, p.1)
    ensures |NameSet(picked)| <= |picked| && |OnTierOf(policy, NameSet(picked), tier)| <= OfTier(picked, tier)
  {
    if picked == [] {
      assert NameSet(picked) == {};
    } else {
      var front, last := picked[..|picked| - 1], picked[|picked| - 1];
      assert picked == front + [last];
      assert last in picked;
      StartedOnTier(policy, front, tier);
      StartedOneMore(front, last);
      OnTierOneMore(policy, NameSet(front), last.0, tier);
    }
  }

  lemma LoadIsActive(policy: Policy, active: set<string>, tier: string)
    ensures LoadOf(policy, active).total == |active|
    ensures Count(LoadOf(policy, active).byTier, tier) == |OnTierOf(policy, active, tier)|
  {
    forall t ensures TierOf(policy, t) == tier <==> OnTier(policy, t, tier) {
    }
    if tier in LoadOf(policy, active).byTier {
      assert OnTierOf(policy, active, tier) == set t | t in active && TierOf(policy, t) == tier;
    } else {
      assert OnTierOf(policy, active, tier) == {};
    }
  }

  lemma PartBound(part: set<string>, a: set<string>, b: set<string>)
    requires part <= a + b
    ensures |part| <= |a| + |b|
  {
    SubsetSize(part, a + b);
  }

  /** What is active after a batch was active before or is in it. */
  lemma BatchAdds(policy: Policy, plan: string, s: State)
    ensures Active(Next(policy, plan, s, Dispatch)) <= Active(s) + NameSet(NextBatch(policy, plan, s))
    ensures forall p :: p in NextBatch(policy, plan, s) ==> OnTier(policy, p.0, p.1)
  {
    var pool := Pool(Candidates(s.log, plan, StartedSet(s)));
    forall p | p in NextBatch(policy, plan, s) ensures OnTier(policy, p.0, p.1) {
      PickedAreEligible(policy, pool, Active(s), LoadOf(policy, Active(s)), p);
    }
  }

  lemma CapKept(policy: Policy, plan: string, s: State, tier: string, cap: int)
    requires WithinCaps(policy, Active(s)) && CapIs(policy, tier, cap)
    ensures var after := Active(Next(policy, plan, s, Dispatch));
            |after| <= Max(0, policy.capTotal) && |OnTierOf(policy, after, tier)| <= Max(0, cap)
  {
    var active, picked := Active(s), NextBatch(policy, plan, s);
    var after := Active(Next(policy, plan, s, Dispatch));
    BatchAdds(policy, plan, s);
    BatchFits(policy, Pool(Candidates(s.log, plan, StartedSet(s))), active, tier, cap);
    StartedOnTier(policy, picked, tier);
    PartBound(after, active, NameSet(picked));
    PartBound(OnTierOf(policy, after, tier), OnTierOf(policy, active, tier), OnTierOf(policy, NameSet(picked), tier));
  }

  lemma BatchFits(policy: Policy, pool: seq<string>, active: set<string>, tier: string, cap: int)
    requires WithinCaps(policy, active) && CapIs(policy, tier, cap)
    ensures var picked := Batch(policy, pool, active, LoadOf(policy, active));
            && |active| + |picked| <= Max(0, policy.capTotal)
            && |OnTierOf(policy, active, tier)| + OfTier(picked, tier) <= Max(0, cap)
  {
    CapsRespected(policy, LoadOf(policy, active), Queue(policy.critical, Eligible(policy, pool, active)), tier, cap);
    LoadIsActive(policy, active, tier);
  }

  lemma BatchKeepsCaps(policy: Policy, plan: string, s: State)
    requires WithinCaps(policy, Active(s))
    ensures WithinCaps(policy, Active(Next(policy, plan, s, Dispatch)))
  {
    CapKept(policy, plan, s, "sonnet", policy.capSonnet);
    forall tier, cap | CapIs(policy, tier, cap)
      ensures |OnTierOf(policy, Active(Next(policy, plan, s, Dispatch)), tier)| <= Max(0, cap)
    {
      CapKept(policy, plan, s, tier, cap);
    }
  }

  /** On every run, whatever the plan: at no moment are more tasks active than the caps allow, in total
      and on every tier. */
  lemma {:induction false} CapsHoldThroughout(policy: Policy, plan: string, log: seq<Event>, steps: seq<Step>)
    ensures WithinCaps(policy, Active(Run(policy, plan, State(log, []), steps)))
  {
    var s := Run(policy, plan, State(log, []), steps);
    if steps == [] {
      assert Active(s) == {};
      forall tier ensures OnTierOf(policy, {}, tier) == {} {
      }
    } else {
      var last := |steps| - 1;
      var before := Run(policy, plan, State(log, []), steps[..last]);
      CapsHoldThroughout(policy, plan, log, steps[..last]);
      match steps[last]
      case Dispatch => BatchKeepsCaps(policy, plan, before);
      case Complete(task) => FewerStayWithin(policy, Active(before), Active(s), before, task);
    }
  }

  lemma FewerStayWithin(policy: Policy, active: set<string>, fewer: set<string>, before: State, task: string)
    requires WithinCaps(policy, active) && active == Active(before)
    requires fewer == active || fewer == Active(before.(log := before.log + [TaskRunCompleted(task, true)]))
    ensures WithinCaps(policy, fewer)
  {
    assert fewer <= active by {
      forall t | t in CompletedTasks(before.log) ensures t in CompletedTasks(before.log + [TaskRunCompleted(task, true)]) {
        CompletedMeans(before.log, t);
        CompletedMeans(before.log + [TaskRunCompleted(task, true)], t);
      }
    }
    SubsetSize(fewer, active);
    forall tier, cap | CapIs(policy, tier, cap) ensures |OnTierOf(policy, fewer, tier)| <= Max(0, cap) {
      SubsetSize(OnTierOf(policy, fewer, tier), OnTierOf(policy, active, tier));
    }
  }
}
