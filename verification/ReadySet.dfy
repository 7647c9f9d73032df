/** Which tasks of a frozen plan are ready, which plans are stuck, and when neither is the case although
    work is left. */
module ReadySet {
  import opened Digraph

  /** The events the scheduler reads; "" stands for a missing field, 0 for a missing timestamp.
      An aliased edge carries its ends in the historical field names, a close is genuine unless it is
      a rewrapped stub. */
  datatype Event =
    | TaskNodeCreated(planId: string, taskId: string, phase: string, taskType: string)
    | EdgeAdded(src: string, tgt: string, kind: string, aliased: bool)
    | EdgeRemoved(src: string, tgt: string, kind: string)
    | ReviewPlanCreated(briefId: string, consensusId: string)
    | TaskRunCompleted(taskId: string, success: bool)
    | TaskNodeClosed(taskId: string, genuine: bool)
    | RePlanTriggered(taskId: string, at: nat)
    | TaskPackagePublished(taskId: string, at: nat)
    | PlanFreezed(planId: string)

  const IMPLEMENTATION := "implementation"

  // ------------------------------------------------------------ what the log says

  /** The plan's task ids, one per creating event. */
  function PlanTasks(events: seq<Event>, plan: string): seq<string> {
    if events == [] then []
    else
      var last := events[|events| - 1];
      var before := PlanTasks(events[..|events| - 1], plan);
      if last.TaskNodeCreated? && last.planId == plan then before + [last.taskId] else before
  }

  /** (src, tgt) for every edge ever added between two of the tasks: src must precede tgt. */
  function EdgesAmong(events: seq<Event>, tasks: seq<string>): Edges {
    if events == [] then {}
    else
      var last := events[|events| - 1];
      var before := EdgesAmong(events[..|events| - 1], tasks);
      if last.EdgeAdded? && last.src in tasks && last.tgt in tasks then before + {(last.src, last.tgt)} else before
  }

  function DepEdges(events: seq<Event>, plan: string): Edges {
    EdgesAmong(events, PlanTasks(events, plan))
  }

  function CompletedTasks(events: seq<Event>): set<string> {
    set e | e in events && e.TaskRunCompleted? && e.success && e.taskId != "" :: e.taskId
  }

  function ClosedTasks(events: seq<Event>): set<string> {
    set e | e in events && e.TaskNodeClosed? && e.genuine && e.taskId != "" :: e.taskId
  }

  function Satisfied(events: seq<Event>, completed: set<string>): set<string> {
    completed + ClosedTasks(events)
  }

  predicate HasReviewPlan(events: seq<Event>, plan: string) {
    exists i | 0 <= i < |events| :: ReviewsPlan(events[i], plan)
  }

  predicate ReviewsPlan(e: Event, plan: string) {
    e.ReviewPlanCreated? && (e.briefId == plan || e.consensusId == plan)
  }

  /** The phase on the first event that creates the task, in whatever plan. */
  function PhaseOf(events: seq<Event>, task: string): string {
    if events == [] then ""
    else if events[0].TaskNodeCreated? && events[0].taskId == task then events[0].phase
    else PhaseOf(events[1..], task)
  }

  predicate Gated(events: seq<Event>, plan: string, task: string) {
    !HasReviewPlan(events, plan) && PhaseOf(events, task) == IMPLEMENTATION
  }

  /** Unsatisfied, every predecessor satisfied, and not held back by the review-plan gate. */
  ghost predicate IsReady(events: seq<Event>, plan: string, completed: set<string>, task: string) {
    && task in PlanTasks(events, plan)
    && task !in Satisfied(events, completed)
    && (forall src :: (src, task) in DepEdges(events, plan) ==> src in Satisfied(events, completed))
    && !Gated(events, plan, task)
  }

  ghost function Filter(tasks: seq<string>, keep: string -> bool): seq<string> {
    if tasks == [] then []
    else
      var before := Filter(tasks[..|tasks| - 1], keep);
      if keep(tasks[|tasks| - 1]) then before + [tasks[|tasks| - 1]] else before
  }

  lemma {:induction false} FilterMembers(tasks: seq<string>, keep: string -> bool, task: string)
    ensures task in Filter(tasks, keep) <==> task in tasks && keep(task)
  {
    if tasks != [] {
      FilterMembers(tasks[..|tasks| - 1], keep, task);
      assert tasks == tasks[..|tasks| - 1] + [tasks[|tasks| - 1]];
    }
  }

  /** The ready list: the ready tasks in creation order, as often as they were created. */
  ghost function Ready(events: seq<Event>, plan: string, completed: set<string>): seq<string> {
    Filter(PlanTasks(events, plan), task => IsReady(events, plan, completed, task))
  }

  lemma ReadyMembers(events: seq<Event>, plan: string, completed: set<string>, task: string)
    ensures task in Ready(events, plan, completed) <==> IsReady(events, plan, completed, task)
  {
    FilterMembers(PlanTasks(events, plan), t => IsReady(events, plan, completed, t), task);
  }

  // ------------------------------------------------------------ the same, read off the events

  ghost predicate CreatedIn(events: seq<Event>, plan: string, task: string) {
    exists i :: 0 <= i < |events| && events[i].TaskNodeCreated? && events[i].planId == plan && events[i].taskId == task
  }

  /** An edge between two tasks of the plan was added, whatever became of it. */
  ghost predicate MustPrecede(events: seq<Event>, plan: string, src: string, tgt: string) {
    && CreatedIn(events, plan, src) && CreatedIn(events, plan, tgt)
    && exists i :: 0 <= i < |events| && events[i].EdgeAdded? && events[i].src == src && events[i].tgt == tgt
  }

  /** Completed, or genuinely closed. */
  ghost predicate Finished(events: seq<Event>, completed: set<string>, task: string) {
    task in completed || (task != "" && TaskNodeClosed(task, true) in events)
  }

  ghost predicate FirstCreation(events: seq<Event>, i: int, task: string) {
    && 0 <= i < |events| && events[i].TaskNodeCreated? && events[i].taskId == task
    && forall j :: 0 <= j < i && events[j].TaskNodeCreated? ==> events[j].taskId != task
  }

  ghost predicate Implements(events: seq<Event>, task: string) {
    exists i :: FirstCreation(events, i, task) && events[i].phase == "implementation"
  }

  ghost predicate Reviewed(events: seq<Event>, plan: string) {
    exists i :: 0 <= i < |events| && events[i].ReviewPlanCreated? && plan in {events[i].briefId, events[i].consensusId}
  }

  /** A task of the plan, not finished, all of whose predecessors are, and for whose implementation the plan
      has its review plan. */
  ghost predicate MayStart(events: seq<Event>, plan: string, completed: set<string>, task: string) {
    && CreatedIn(events, plan, task) && !Finished(events, completed, task)
    && (forall src :: MustPrecede(events, plan, src, task) ==> Finished(events, completed, src))
    && (Implements(events, task) ==> Reviewed(events, plan))
  }

  /** An implementation task of the plan that is not finished. */
  ghost predicate WaitsForReview(events: seq<Event>, plan: string, task: string) {
    CreatedIn(events, plan, task) && Implements(events, task) && !Finished(events, CompletedTasks(events), task)
  }

  lemma {:induction false} PlanTasksMean(events: seq<Event>, plan: string, task: string)
    ensures task in PlanTasks(events, plan) <==> CreatedIn(events, plan, task)
  {
    if events != [] {
      var front, last := events[..|events| - 1], |events| - 1;
      PlanTasksMean(front, plan, task);
      if i :| 0 <= i < |events| && events[i].TaskNodeCreated? && events[i].planId == plan && events[i].taskId == task {
        assert i < last ==> front[i] == events[i];
      }
    }
  }

  lemma {:induction false} EdgesMean(events: seq<Event>, tasks: seq<string>, src: string, tgt: string)
    ensures (src, tgt) in EdgesAmong(events, tasks)
       <==> src in tasks && tgt in tasks && exists i :: 0 <= i < |events| && events[i].EdgeAdded? && events[i].src == src && events[i].tgt == tgt
  {
    if events != [] {
      var front, last := events[..|events| - 1], |events| - 1;
      EdgesMean(front, tasks, src, tgt);
      if i :| 0 <= i < |events| && events[i].EdgeAdded? && events[i].src == src && events[i].tgt == tgt {
        assert i < last ==> front[i] == events[i];
      }
    }
  }

  lemma DepEdgesMean(events: seq<Event>, plan: string, src: string, tgt: string)
    ensures (src, tgt) in DepEdges(events, plan) <==> MustPrecede(events, plan, src, tgt)
  {
    EdgesMean(events, PlanTasks(events, plan), src, tgt);
    PlanTasksMean(events, plan, src);
    PlanTasksMean(events, plan, tgt);
  }

  lemma {:induction false} PhaseMeans(events: seq<Event>, task: string)
    ensures PhaseOf(events, task) == "implementation" <==> Implements(events, task)
  {
    if events != [] {
      var rest := events[1..];
      if events[0].TaskNodeCreated? && events[0].taskId == task {
        assert FirstCreation(events, 0, task);
      } else {
        PhaseMeans(rest, task);
        if i :| FirstCreation(rest, i, task) && rest[i].phase == "implementation" { assert FirstCreation(events, i + 1, task); }
        if i :| FirstCreation(events, i, task) && events[i].phase == "implementation" {
          assert forall j :: 0 <= j < |rest| ==> rest[j] == events[j + 1];
          assert FirstCreation(rest, i - 1, task);
        }
      }
    }
  }

  lemma FinishedMeans(events: seq<Event>, completed: set<string>, task: string)
    ensures task in Satisfied(events, completed) <==> Finished(events, completed, task)
  {
    if task in ClosedTasks(events) {
      var e :| e in events && e.TaskNodeClosed? && e.genuine && e.taskId != "" && e.taskId == task;
      assert e == TaskNodeClosed(task, true);
    }
  }

  lemma ReviewedMeans(events: seq<Event>, plan: string)
    ensures HasReviewPlan(events, plan) <==> Reviewed(events, plan)
  {
    if HasReviewPlan(events, plan) {
      var i :| 0 <= i < |events| && ReviewsPlan(events[i], plan);
      assert plan in {events[i].briefId, events[i].consensusId};
    }
    if i :| 0 <= i < |events| && events[i].ReviewPlanCreated? && plan in {events[i].briefId, events[i].consensusId} {
      assert ReviewsPlan(events[i], plan);
    }
  }

  lemma ReadyMeans(events: seq<Event>, plan: string, completed: set<string>)
    ensures forall task :: task in Ready(events, plan, completed) <==> MayStart(events, plan, completed, task)
  {
    forall task ensures task in Ready(events, plan, completed) <==> MayStart(events, plan, completed, task) {
      ReadyMembers(events, plan, completed, task);
      PlanTasksMean(events, plan, task);
      PhaseMeans(events, task);
      ReviewedMeans(events, plan);
      forall t ensures t in Satisfied(events, completed) <==> Finished(events, completed, t) { FinishedMeans(events, completed, t); }
      forall src ensures (src, task) in DepEdges(events, plan) <==> MustPrecede(events, plan, src, task) { DepEdgesMean(events, plan, src, task); }
    }
  }

  // ------------------------------------------------------------ the code

  predicate Joins(e: Event, tasks: seq<string>) {
    e.EdgeAdded? && e.src in tasks && e.tgt in tasks
  }

  /** Where the task's edges lead, in the order and as often as they were added. */
  function TargetsOf(events: seq<Event>, tasks: seq<string>, task: string): seq<string> {
    if events == [] then []
    else
      var last, before := events[|events| - 1], TargetsOf(events[..|events| - 1], tasks, task);
      if Joins(last, tasks) && last.src == task then before + [last.tgt] else before
  }

  /** How many edges lead to the task. */
  function FanIn(events: seq<Event>, tasks: seq<string>, task: string): nat {
    if events == [] then 0
    else
      var last := events[|events| - 1];
      FanIn(events[..|events| - 1], tasks, task) + if Joins(last, tasks) && last.tgt == task then 1 else 0
  }

  lemma {:induction false} TargetsAreEdges(events: seq<Event>, tasks: seq<string>, src: string, tgt: string)
    ensures tgt in TargetsOf(events, tasks, src) <==> (src, tgt) in EdgesAmong(events, tasks)
  {
    if events != [] { TargetsAreEdges(events[..|events| - 1], tasks, src, tgt); }
  }

  function AdjacencyOf(events: seq<Event>, tasks: seq<string>): map<string, seq<string>> {
    map t | t in tasks :: TargetsOf(events, tasks, t)
  }

  function FanInOf(events: seq<Event>, tasks: seq<string>): map<string, int> {
    map t | t in tasks :: FanIn(events, tasks, t)
  }

  lemma GraphStep(events: seq<Event>, i: nat, tasks: seq<string>)
    requires i < |events|
    ensures var e, adj, fanIn := events[i], AdjacencyOf(events[..i], tasks), FanInOf(events[..i], tasks);
            && (Joins(e, tasks) ==> e.src in adj && e.tgt in fanIn)
            && AdjacencyOf(events[..i + 1], tasks) == (if Joins(e, tasks) then adj[e.src := adj[e.src] + [e.tgt]] else adj)
            && FanInOf(events[..i + 1], tasks) == (if Joins(e, tasks) then fanIn[e.tgt := fanIn[e.tgt] + 1] else fanIn)
  {
    assert events[..i + 1][..i] == events[..i];
  }

  lemma GraphStart(events: seq<Event>, tasks: seq<string>)
    ensures AdjacencyOf(events[..0], tasks) == (map t | t in tasks :: [])
    ensures FanInOf(events[..0], tasks) == (map t | t in tasks :: 0)
  {
  }

  /** The dependency graph over every edge ever added. */
  method PlanDepGraph(events: seq<Event>, plan: string)
    returns (tasks: seq<string>, adj: map<string, seq<string>>, fanIn: map<string, int>)
    ensures tasks == PlanTasks(events, plan)
    ensures adj == AdjacencyOf(events, tasks) && fanIn == FanInOf(events, tasks)
    ensures forall src, tgt :: src in adj && tgt in adj[src] <==> (src, tgt) in DepEdges(events, plan)
    ensures forall src, tgt :: (src, tgt) in DepEdges(events, plan) <==> MustPrecede(events, plan, src, tgt)
  {
    tasks := PlanTaskIds(events, plan);
    adj := map t | t in tasks :: [];
    fanIn := map t | t in tasks :: 0;
    GraphStart(events, tasks);
    for i := 0 to |events|
      invariant adj == AdjacencyOf(events[..i], tasks) && fanIn == FanInOf(events[..i], tasks)
    {
      var e := events[i];
      GraphStep(events, i, tasks);
      if e.EdgeAdded? && e.src in tasks && e.tgt in tasks {
        adj := adj[e.src := adj[e.src] + [e.tgt]];
        fanIn := fanIn[e.tgt := fanIn[e.tgt] + 1];
      }
    }
    WholeGraph(events, tasks);
    AdjacencyHasEdges(events, plan);
    forall src, tgt ensures (src, tgt) in DepEdges(events, plan) <==> MustPrecede(events, plan, src, tgt) { DepEdgesMean(events, plan, src, tgt); }
  }

  lemma WholeGraph(events: seq<Event>, tasks: seq<string>)
    ensures AdjacencyOf(events[..|events|], tasks) == AdjacencyOf(events, tasks)
    ensures FanInOf(events[..|events|], tasks) == FanInOf(events, tasks)
  {
    assert events[..|events|] == events;
  }

  lemma AdjacencyHasEdges(events: seq<Event>, plan: string)
    ensures var adj := AdjacencyOf(events, PlanTasks(events, plan));
            forall src, tgt :: src in adj && tgt in adj[src] <==> (src, tgt) in DepEdges(events, plan)
  {
    var tasks := PlanTasks(events, plan);
    var adj := AdjacencyOf(events, tasks);
    forall src, tgt ensures src in adj && tgt in adj[src] <==> (src, tgt) in DepEdges(events, plan) {
      TargetsAreEdges(events, tasks, src, tgt);
      if (src, tgt) in DepEdges(events, plan) { EdgesStayAmong(events, tasks, src, tgt); }
    }
  }

  method PlanTaskIds(events: seq<Event>, plan: string) returns (tasks: seq<string>)
    ensures tasks == PlanTasks(events, plan)
  {
    tasks := [];
    assert events[..|events|] == events;
    for i := 0 to |events|
      invariant tasks == PlanTasks(events[..i], plan)
    {
      assert events[..i + 1][..i] == events[..i];
      if events[i].TaskNodeCreated? && events[i].planId == plan { tasks := tasks + [events[i].taskId]; }
    }
  }

  method Predecessors(tasks: seq<string>, adj: map<string, seq<string>>) returns (preds: map<string, set<string>>)
    requires adj.Keys == set t | t in tasks
    ensures preds.Keys == adj.Keys
    ensures forall tgt :: tgt in preds ==> preds[tgt] == set src | src in adj && tgt in adj[src]
  {
    preds := map t | t in tasks :: {};
    var sources := adj.Keys;
    while sources != {}
      invariant sources <= adj.Keys && preds.Keys == adj.Keys
      invariant forall tgt :: tgt in preds ==> preds[tgt] == set src | src in adj.Keys - sources && tgt in adj[src]
      decreases |sources|
    {
      var src :| src in sources;
      sources := sources - {src};
      preds := map t | t in preds :: if t in adj[src] then preds[t] + {src} else preds[t];
    }
  }

  method ComputeReadyTasks(events: seq<Event>, plan: string, completed: set<string>) returns (ready: seq<string>)
    ensures ready == Ready(events, plan, completed)
    ensures forall task :: task in ready <==> MayStart(events, plan, completed, task)
  {
    ready := FilterReady(events, plan, completed);
    ReadyMeans(events, plan, completed);
  }

  method FilterReady(events: seq<Event>, plan: string, completed: set<string>) returns (ready: seq<string>)
    ensures ready == Ready(events, plan, completed)
  {
    var tasks, adj, _ := PlanDepGraph(events, plan);
    var preds := Predecessors(tasks, adj);
    var satisfied := Satisfied(events, completed);
    var reviewed := HasReviewPlan(events, plan);
    ghost var keep := task => IsReady(events, plan, completed, task);
    ready := [];
    assert tasks[..|tasks|] == tasks;
    for i := 0 to |tasks|
      invariant ready == Filter(tasks[..i], keep)
    {
      var t := tasks[i];
      assert tasks[..i + 1][..i] == tasks[..i];
      assert preds[t] <= satisfied <==> forall src :: (src, t) in DepEdges(events, plan) ==> src in satisfied;
      if t !in satisfied && preds[t] <= satisfied && !(!reviewed && PhaseOf(events, t) == IMPLEMENTATION) {
        ready := ready + [t];
      }
    }
  }

  function PlanSet(events: seq<Event>, plan: string): set<string> {
    set t | t in PlanTasks(events, plan)
  }

  function OpenTasks(events: seq<Event>, plan: string): set<string> {
    PlanSet(events, plan) - ClosedTasks(events)
  }

  // ------------------------------------------------------------ liveness

  ghost predicate AllSatisfied(events: seq<Event>, plan: string, completed: set<string>) {
    PlanSet(events, plan) <= Satisfied(events, completed)
  }

  /** Work is left only if something is ready. */
  ghost predicate Moves(events: seq<Event>, plan: string, completed: set<string>) {
    AllSatisfied(events, plan, completed) || Ready(events, plan, completed) != []
  }

  /** An acyclic plan with work left has an unsatisfied task whose predecessors are all satisfied. */
  lemma UnblockedTask(events: seq<Event>, plan: string, completed: set<string>) returns (task: string)
    requires Acyclic(DepEdges(events, plan), OpenTasks(events, plan)) && !AllSatisfied(events, plan, completed)
    ensures task in PlanTasks(events, plan) && task !in Satisfied(events, completed)
    ensures forall src :: (src, task) in DepEdges(events, plan) ==> src in Satisfied(events, completed)
  {
    var left := PlanSet(events, plan) - Satisfied(events, completed);
    var some :| some in PlanSet(events, plan) && some !in Satisfied(events, completed);
    assert some in left;
    task := AcyclicHasSource(DepEdges(events, plan), OpenTasks(events, plan), left);
    forall src | (src, task) in DepEdges(events, plan) ensures src in Satisfied(events, completed) {
      EdgesStayAmong(events, PlanTasks(events, plan), src, task);
    }
  }

  lemma {:induction false} EdgesStayAmong(events: seq<Event>, tasks: seq<string>, src: string, tgt: string)
    requires (src, tgt) in EdgesAmong(events, tasks)
    ensures src in tasks && tgt in tasks
  {
    var before := events[..|events| - 1];
    if (src, tgt) in EdgesAmong(before, tasks) { EdgesStayAmong(before, tasks, src, tgt); }
  }

  /** With the review plan there, the plan moves whatever has completed iff no open tasks form a cycle. */
  lemma MovesIffAcyclic(events: seq<Event>, plan: string)
    requires HasReviewPlan(events, plan)
    ensures (forall completed :: Moves(events, plan, completed)) <==> Acyclic(DepEdges(events, plan), OpenTasks(events, plan))
  {
    if Acyclic(DepEdges(events, plan), OpenTasks(events, plan)) {
      forall completed ensures Moves(events, plan, completed) {
        if !AllSatisfied(events, plan, completed) {
          var task := UnblockedTask(events, plan, completed);
          ReadyMembers(events, plan, completed, task);
        }
      }
    } else {
      var cycle :| CycleIn(DepEdges(events, plan), OpenTasks(events, plan), cycle);
      CycleBlocks(events, plan, cycle);
    }
  }

  /** Everything else completed, the tasks of a cycle wait for each other for ever. */
  lemma CycleBlocks(events: seq<Event>, plan: string, cycle: seq<string>)
    requires CycleIn(DepEdges(events, plan), OpenTasks(events, plan), cycle)
    ensures var completed := PlanSet(events, plan) - set t | t in cycle; !Moves(events, plan, completed)
  {
    var members := set t | t in cycle;
    var completed := PlanSet(events, plan) - members;
    assert cycle[0] in members && cycle[0] in OpenTasks(events, plan);
    assert cycle[0] in PlanSet(events, plan) && cycle[0] !in Satisfied(events, completed);
    forall task ensures task !in Ready(events, plan, completed) {
      ReadyMembers(events, plan, completed, task);
      if task in members {
        var src := CyclePredecessor(DepEdges(events, plan), OpenTasks(events, plan), cycle, task);
        assert src in members && src in OpenTasks(events, plan);
      }
    }
    NonEmptyHasMember(Ready(events, plan, completed));
  }

  lemma NonEmptyHasMember(tasks: seq<string>)
    ensures tasks != [] ==> exists t :: t in tasks
  {
    if tasks != [] { assert tasks[0] in tasks; }
  }

  // ------------------------------------------------------------ stuck plans

  function ImplementationTasks(events: seq<Event>, plan: string): set<string> {
    set t | t in PlanTasks(events, plan) && PhaseOf(events, t) == IMPLEMENTATION
  }

  function StuckTasks(events: seq<Event>, plan: string): set<string> {
    ImplementationTasks(events, plan) - Satisfied(events, CompletedTasks(events))
  }

  ghost predicate Stuck(events: seq<Event>, plan: string) {
    && Ready(events, plan, CompletedTasks(events)) == []
    && !HasReviewPlan(events, plan)
    && StuckTasks(events, plan) != {}
  }

  /** The implementation tasks in the order in which the plan created them, each once. */
  function ImplementationList(events: seq<Event>, tasks: seq<string>): seq<string> {
    if tasks == [] then []
    else
      var last, before := tasks[|tasks| - 1], ImplementationList(events, tasks[..|tasks| - 1]);
      if PhaseOf(events, last) == IMPLEMENTATION && last !in before then before + [last] else before
  }

  lemma {:induction false} ImplementationListMembers(events: seq<Event>, tasks: seq<string>, task: string)
    ensures task in ImplementationList(events, tasks) <==> task in tasks && PhaseOf(events, task) == IMPLEMENTATION
  {
    if tasks != [] {
      ImplementationListMembers(events, tasks[..|tasks| - 1], task);
      assert tasks == tasks[..|tasks| - 1] + [tasks[|tasks| - 1]];
    }
  }

  lemma ImplementationListStep(events: seq<Event>, tasks: seq<string>, i: nat)
    requires i < |tasks|
    ensures var before := ImplementationList(events, tasks[..i]);
            ImplementationList(events, tasks[..i + 1])
            == if PhaseOf(events, tasks[i]) == IMPLEMENTATION && tasks[i] !in before then before + [tasks[i]] else before
  {
    assert tasks[..i + 1][..i] == tasks[..i];
  }

  method PlanImplementationTasks(events: seq<Event>, plan: string) returns (out: seq<string>)
    ensures out == ImplementationList(events, PlanTasks(events, plan))
  {
    var tasks := PlanTaskIds(events, plan);
    out := [];
    assert tasks[..|tasks|] == tasks;
    for i := 0 to |tasks|
      invariant out == ImplementationList(events, tasks[..i])
    {
      ImplementationListStep(events, tasks, i);
      if PhaseOf(events, tasks[i]) == IMPLEMENTATION && tasks[i] !in out { out := out + [tasks[i]]; }
    }
  }

  /** Those of them that are not satisfied. */
  ghost function StuckList(events: seq<Event>, plan: string): seq<string> {
    Filter(ImplementationList(events, PlanTasks(events, plan)), t => t !in Satisfied(events, CompletedTasks(events)))
  }

  lemma StuckListMembers(events: seq<Event>, plan: string, task: string)
    ensures task in StuckList(events, plan) <==> task in StuckTasks(events, plan)
  {
    var tasks := PlanTasks(events, plan);
    FilterMembers(ImplementationList(events, tasks), t => t !in Satisfied(events, CompletedTasks(events)), task);
    ImplementationListMembers(events, tasks, task);
  }

  method Waiting(events: seq<Event>, plan: string, implementation: seq<string>, satisfied: set<string>) returns (waiting: seq<string>)
    requires implementation == ImplementationList(events, PlanTasks(events, plan))
    requires satisfied == Satisfied(events, CompletedTasks(events))
    ensures waiting == StuckList(events, plan)
  {
    ghost var keep := t => t !in Satisfied(events, CompletedTasks(events));
    waiting := [];
    assert implementation[..|implementation|] == implementation;
    for i := 0 to |implementation|
      invariant waiting == Filter(implementation[..i], keep)
    {
      assert implementation[..i + 1][..i] == implementation[..i];
      if implementation[i] !in satisfied { waiting := waiting + [implementation[i]]; }
    }
  }

  /** The plans reported stuck, with the implementation tasks that wait. */
  method StuckImplementationPlans(events: seq<Event>) returns (stuck: map<string, seq<string>>)
    ensures forall plan :: plan in stuck <==> plan != "" && PlanFreezed(plan) in events && Stuck(events, plan)
    ensures forall plan :: plan in stuck ==> stuck[plan] == StuckList(events, plan) != []
    ensures forall plan :: plan in stuck <==> plan != "" && PlanFreezed(plan) in events && CannotGoOn(events, plan)
    ensures forall plan, task :: plan in stuck ==> (task in stuck[plan] <==> WaitsForReview(events, plan, task))
  {
    forall plan ensures Stuck(events, plan) <==> CannotGoOn(events, plan) { StuckMeans(events, plan); }
    forall plan, task ensures task in StuckList(events, plan) <==> WaitsForReview(events, plan, task) { WaitsMeans(events, plan, task); }
    stuck := map[];
    var completed := CompletedTasks(events);
    for i := 0 to |events|
      invariant forall plan :: plan in stuck <==> plan != "" && PlanFreezed(plan) in events[..i] && Stuck(events, plan)
      invariant forall plan :: plan in stuck ==> stuck[plan] == StuckList(events, plan) != []
    {
      assert events[..i + 1] == events[..i] + [events[i]];
      if events[i].PlanFreezed? && events[i].planId != "" {
        var plan := events[i].planId;
        var implementation := PlanImplementationTasks(events, plan);
        var ready := ComputeReadyTasks(events, plan, completed);
        var waiting := Waiting(events, plan, implementation, Satisfied(events, completed));
        StuckIsListed(events, plan);
        if implementation != [] && ready == [] && !HasReviewPlan(events, plan) && waiting != [] {
          stuck := stuck[plan := waiting];
        }
      }
    }
  }

  /** Implementation tasks wait, nothing may start, and there is no review plan. */
  ghost predicate CannotGoOn(events: seq<Event>, plan: string) {
    && (exists task :: WaitsForReview(events, plan, task))
    && (forall task :: !MayStart(events, plan, CompletedTasks(events), task))
    && !Reviewed(events, plan)
  }

  lemma WaitsMeans(events: seq<Event>, plan: string, task: string)
    ensures task in StuckTasks(events, plan) <==> WaitsForReview(events, plan, task)
    ensures task in StuckList(events, plan) <==> WaitsForReview(events, plan, task)
  {
    StuckListMembers(events, plan, task);
    PlanTasksMean(events, plan, task);
    PhaseMeans(events, task);
    FinishedMeans(events, CompletedTasks(events), task);
  }

  lemma StuckMeans(events: seq<Event>, plan: string)
    ensures Stuck(events, plan) <==> CannotGoOn(events, plan)
  {
    ReviewedMeans(events, plan);
    ReadyMeans(events, plan, CompletedTasks(events));
    NonEmptyHasMember(Ready(events, plan, CompletedTasks(events)));
    forall task ensures task in StuckTasks(events, plan) <==> WaitsForReview(events, plan, task) { WaitsMeans(events, plan, task); }
  }

  lemma CompletedMeans(events: seq<Event>, task: string)
    ensures task in CompletedTasks(events) <==> task != "" && TaskRunCompleted(task, true) in events
  {
    if task in CompletedTasks(events) {
      var e :| e in events && e.TaskRunCompleted? && e.success && e.taskId != "" && e.taskId == task;
      assert e == TaskRunCompleted(task, true);
    }
  }

  lemma StuckIsListed(events: seq<Event>, plan: string)
    ensures StuckList(events, plan) != [] <==> StuckTasks(events, plan) != {}
    ensures StuckTasks(events, plan) != {} ==> ImplementationList(events, PlanTasks(events, plan)) != []
  {
    forall task ensures task in StuckList(events, plan) <==> task in StuckTasks(events, plan) {
      StuckListMembers(events, plan, task);
      ImplementationListMembers(events, PlanTasks(events, plan), task);
    }
    NonEmptyHasMember(StuckList(events, plan));
  }

  /** No silent deadlock: a frozen acyclic plan is finished, has a ready task, or is reported stuck with
      the tasks that wait. */
  lemma DeadlockTrichotomy(events: seq<Event>, plan: string)
    requires Acyclic(DepEdges(events, plan), OpenTasks(events, plan))
    ensures var completed := CompletedTasks(events);
            AllSatisfied(events, plan, completed) || Ready(events, plan, completed) != [] || Stuck(events, plan)
  {
    var completed := CompletedTasks(events);
    if !AllSatisfied(events, plan, completed) {
      var task := UnblockedTask(events, plan, completed);
      ReadyMembers(events, plan, completed, task);
      assert Gated(events, plan, task) ==> task in StuckTasks(events, plan);
    }
  }

  /** The report names the cure: once the review plan is created, a task of a stuck acyclic plan is ready. */
  lemma ReviewPlanUnsticks(events: seq<Event>, plan: string, consensus: string)
    requires Acyclic(DepEdges(events, plan), OpenTasks(events, plan)) && Stuck(events, plan)
    ensures var after := events + [ReviewPlanCreated(plan, consensus)];
            Ready(after, plan, CompletedTasks(after)) != []
  {
    var review := ReviewPlanCreated(plan, consensus);
    var after := events + [review];
    var completed := CompletedTasks(events);
    assert after[..|events|] == events && after[|events|] == review;
    assert CompletedTasks(after) == completed && ClosedTasks(after) == ClosedTasks(events);
    assert StuckTasks(events, plan) !! Satisfied(events, completed);
    var some :| some in StuckTasks(events, plan);
    assert some in PlanSet(events, plan);
    var task := UnblockedTask(events, plan, completed);
    assert DepEdges(after, plan) == DepEdges(events, plan);
    assert ReviewsPlan(after[|events|], plan);
    ReadyMembers(after, plan, completed, task);
  }

  // ------------------------------------------------------------ the freeze gate sees other edges

  /** The edges that the freeze gate's cycle check replays: removals count there, and the historical
      field names are not read. */
  function ActiveEdges(events: seq<Event>): set<(string, string, string)> {
    if events == [] then {}
    else
      var before := ActiveEdges(events[..|events| - 1]);
      match events[|events| - 1]
      case EdgeAdded(src, tgt, kind, aliased) => before + {if aliased then ("", "", kind) else (src, tgt, kind)}
      case EdgeRemoved(src, tgt, kind) => before - {(src, tgt, kind)}
      case _ => before
  }

  function GateEdges(events: seq<Event>, plan: string): Edges {
    set e | e in ActiveEdges(events) && e.0 in PlanSet(events, plan) && e.1 in PlanSet(events, plan) :: (e.0, e.1)
  }

  ghost predicate GatePasses(events: seq<Event>, plan: string) {
    Acyclic(GateEdges(events, plan), PlanSet(events, plan))
  }

  predicate NeverRemoves(events: seq<Event>) {
    forall i :: 0 <= i < |events| ==> !events[i].EdgeRemoved? && !(events[i].EdgeAdded? && events[i].aliased)
  }

  lemma {:induction false} AddedStaysActive(events: seq<Event>, tasks: seq<string>, src: string, tgt: string) returns (kind: string)
    requires NeverRemoves(events) && (src, tgt) in EdgesAmong(events, tasks)
    ensures (src, tgt, kind) in ActiveEdges(events)
  {
    var last := events[|events| - 1];
    var before := events[..|events| - 1];
    if (src, tgt) in EdgesAmong(before, tasks) {
      kind := AddedStaysActive(before, tasks, src, tgt);
    } else {
      kind := last.kind;
    }
  }

  /** Where no edge was ever removed or written in the old form, passing the gate is enough. */
  lemma GateSufficesWithoutRemovals(events: seq<Event>, plan: string)
    requires NeverRemoves(events) && GatePasses(events, plan)
    ensures Acyclic(DepEdges(events, plan), OpenTasks(events, plan))
  {
    forall e | e in DepEdges(events, plan) ensures e in GateEdges(events, plan) {
      var kind := AddedStaysActive(events, PlanTasks(events, plan), e.0, e.1);
      EdgesStayAmong(events, PlanTasks(events, plan), e.0, e.1);
      assert (e.0, e.1, kind) in ActiveEdges(events);
    }
    FewerEdgesFewerCycles(DepEdges(events, plan), GateEdges(events, plan), OpenTasks(events, plan), PlanSet(events, plan));
  }

  /** Add an edge the wrong way round, remove it, add it the right way: the gate passes, the scheduler
      still counts both, and the plan neither finishes, nor has a ready task, nor is reported stuck. */
  lemma CorrectedEdgeDeadlocks(plan: string, a: string, b: string)
    requires a != b
    ensures var events := CorrectedPlan(plan, a, b);
            && GatePasses(events, plan)
            && !AllSatisfied(events, plan, CompletedTasks(events))
            && Ready(events, plan, CompletedTasks(events)) == []
            && !Stuck(events, plan)
  {
    var events := CorrectedPlan(plan, a, b);
    CorrectedPlanFacts(plan, a, b);
    assert GateEdges(events, plan) == {(b, a)};
    forall walk ensures !CycleIn({(b, a)}, PlanSet(events, plan), walk) {
      if |walk| > 1 && Hop({(b, a)}, walk, 0) && |walk| > 2 {
        assert !Hop({(b, a)}, walk, 1);
      }
    }
    assert a in PlanTasks(events, plan) && b in PlanTasks(events, plan);
    assert a in PlanSet(events, plan);
    forall task ensures task !in Ready(events, plan, {}) {
      ReadyMembers(events, plan, {}, task);
    }
    NonEmptyHasMember(Ready(events, plan, {}));
    assert ReviewsPlan(events[5], plan);
  }

  function CorrectedPlan(plan: string, a: string, b: string): seq<Event> {
    [TaskNodeCreated(plan, a, "", ""), TaskNodeCreated(plan, b, "", ""),
     EdgeAdded(a, b, "", false), EdgeRemoved(a, b, ""), EdgeAdded(b, a, "", false),
     ReviewPlanCreated(plan, "")]
  }

  lemma CorrectedPlanFacts(plan: string, a: string, b: string)
    requires a != b
    ensures var events := CorrectedPlan(plan, a, b);
            && PlanTasks(events, plan) == [a, b] && ActiveEdges(events) == {(b, a, "")}
            && DepEdges(events, plan) == {(a, b), (b, a)}
            && CompletedTasks(events) == {} && ClosedTasks(events) == {}
  {
    var events := CorrectedPlan(plan, a, b);
    var e5, e4, e3, e2, e1 := events[..5], events[..4], events[..3], events[..2], events[..1];
    assert e5[..4] == e4 && e4[..3] == e3 && e3[..2] == e2 && e2[..1] == e1 && e1[..0] == [];
    assert ActiveEdges(e1) == {} && ActiveEdges(e2) == {};
    assert ActiveEdges(e3) == {(a, b, "")};
    assert ActiveEdges(e4) == {};
    assert PlanTasks(e1, plan) == [a];
    assert PlanTasks(e2, plan) == [a, b];
    var tasks := [a, b];
    assert EdgesAmong(e1[..0], tasks) == {};
    assert EdgesAmong(e1, tasks) == {};
    assert !e2[1].EdgeAdded? && e2[..|e2| - 1] == e1;
    assert EdgesAmong(e2, tasks) == {};
    assert EdgesAmong(e3, tasks) == {(a, b)} && EdgesAmong(e4, tasks) == {(a, b)};
    assert EdgesAmong(e5, tasks) == {(a, b), (b, a)};
    assert PlanTasks(e3, plan) == [a, b] && PlanTasks(e4, plan) == [a, b] && PlanTasks(e5, plan) == [a, b];
  }
}
