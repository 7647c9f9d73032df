/** Choosing which ready tasks to start now. */
module DispatchBatch {
  import opened Prelude
  import opened ReadySet

  const REVIEW := "review"
  const HIGH_FANOUT_READERS := 3

  /** What a plan's log and the caller settle for one batch. */
  datatype Policy = Policy(
    critical: set<string>, tiers: map<string, string>,
    readSets: map<string, set<string>>, writeSets: map<string, set<string>>,
    capTotal: int, capOpus: int, capSonnet: int)

  // ------------------------------------------------------------ candidates

  function TypeOf(events: seq<Event>, task: string): string {
    if events == [] then ""
    else if events[0].TaskNodeCreated? && events[0].taskId == task then events[0].taskType
    else TypeOf(events[1..], task)
  }

  /** The event that first created the task says that it is of the type. */
  ghost predicate IsOfType(events: seq<Event>, task: string, taskType: string) {
    exists i :: FirstCreation(events, i, task) && events[i].taskType == taskType
  }

  lemma {:induction false} TypeMeans(events: seq<Event>, task: string, taskType: string)
    requires taskType != ""
    ensures TypeOf(events, task) == taskType <==> IsOfType(events, task, taskType)
  {
    if events != [] {
      var rest := events[1..];
      if events[0].TaskNodeCreated? && events[0].taskId == task {
        assert FirstCreation(events, 0, task);
      } else {
        TypeMeans(rest, task, taskType);
        if i :| FirstCreation(rest, i, task) && rest[i].taskType == taskType { assert FirstCreation(events, i + 1, task); }
        if i :| FirstCreation(events, i, task) && events[i].taskType == taskType {
          assert forall j :: 0 <= j < |rest| ==> rest[j] == events[j + 1];
          assert FirstCreation(rest, i - 1, task);
        }
      }
    }
  }

  predicate Publishes(e: Event, task: string) { e.TaskPackagePublished? && e.taskId == task }

  /** Some replan request of the task is younger than every package published for it. */
  ghost predicate PendingReplan(events: seq<Event>, task: string) {
    task != "" && exists at: nat :: at > 0 && Unanswered(events, task, at)
  }

  ghost predicate Unanswered(events: seq<Event>, task: string, at: nat) {
    && RePlanTriggered(task, at) in events
    && forall e :: e in events && Publishes(e, task) ==> e.at < at
  }

  function AtOf(latest: map<string, nat>, task: string): nat {
    if task in latest then latest[task] else 0
  }

  /** The latest time at which the log mentions the task, among replans or among packages. */
  ghost predicate Latest(events: seq<Event>, replans: bool, latest: map<string, nat>) {
    && (forall e :: e in events && Mentions(e, replans) ==> e.taskId in latest && e.at <= latest[e.taskId])
    && (forall t :: t in latest ==> t != "" && exists e :: e in events && Mentions(e, replans) && e.taskId == t && e.at == latest[t])
  }

  predicate Mentions(e: Event, replans: bool) {
    (if replans then e.RePlanTriggered? else e.TaskPackagePublished?) && e.taskId != ""
  }

  method TasksPendingReplan(events: seq<Event>) returns (pending: set<string>)
    ensures forall t :: t in pending <==> PendingReplan(events, t)
  {
    var replanAt: map<string, nat>, republishedAt: map<string, nat> := map[], map[];
    for i := 0 to |events|
      invariant Latest(events[..i], true, replanAt) && Latest(events[..i], false, republishedAt)
    {
      assert events[..i + 1] == events[..i] + [events[i]];
      match events[i] {
        case RePlanTriggered(task, at) =>
          if task != "" && at >= AtOf(replanAt, task) { replanAt := replanAt[task := at]; }
        case TaskPackagePublished(task, at) =>
          if task != "" && at >= AtOf(republishedAt, task) { republishedAt := republishedAt[task := at]; }
        case _ =>
      }
      LatestStep(events[..i], events[i], true, replanAt);
      LatestStep(events[..i], events[i], false, republishedAt);
    }
    assert events[..|events|] == events;
    pending := set t | t in replanAt && AtOf(republishedAt, t) < replanAt[t];
    forall t ensures t in pending <==> PendingReplan(events, t) {
      PendingIsLater(events, replanAt, republishedAt, t);
    }
  }

  lemma LatestStep(before: seq<Event>, e: Event, replans: bool, latest: map<string, nat>)
    requires exists was :: Latest(before, replans, was) && latest == Bump(was, e, replans)
    ensures Latest(before + [e], replans, latest)
  {
    var was :| Latest(before, replans, was) && latest == Bump(was, e, replans);
    forall t | t in latest
      ensures t != "" && exists x :: x in before + [e] && Mentions(x, replans) && x.taskId == t && x.at == latest[t]
    {
      if Mentions(e, replans) && e.taskId == t && e.at == latest[t] {
        assert e in before + [e];
      } else {
        var x :| x in before && Mentions(x, replans) && x.taskId == t && x.at == was[t];
        assert x in before + [e];
      }
    }
  }

  function Bump(was: map<string, nat>, e: Event, replans: bool): map<string, nat> {
    if Mentions(e, replans) && e.at >= AtOf(was, e.taskId) then was[e.taskId := e.at] else was
  }

  lemma PendingIsLater(events: seq<Event>, replanAt: map<string, nat>, republishedAt: map<string, nat>, t: string)
    requires Latest(events, true, replanAt) && Latest(events, false, republishedAt)
    ensures t in replanAt && AtOf(republishedAt, t) < replanAt[t] <==> PendingReplan(events, t)
  {
    if t in replanAt && AtOf(republishedAt, t) < replanAt[t] {
      assert Unanswered(events, t, replanAt[t]);
    }
    if PendingReplan(events, t) {
      var at: nat :| at > 0 && Unanswered(events, t, at);
      assert Mentions(RePlanTriggered(t, at), true);
      if t in republishedAt {
        var e :| e in events && Mentions(e, false) && e.taskId == t && e.at == republishedAt[t];
        assert Publishes(e, t);
      }
    }
  }

  /** Ready, not dispatched before, for the execution skill, and not waiting to be planned again. */
  ghost function Candidates(events: seq<Event>, plan: string, dispatched: set<string>): seq<string> {
    Filter(Ready(events, plan, CompletedTasks(events)), t => Dispatchable(events, dispatched, t))
  }

  ghost predicate Dispatchable(events: seq<Event>, dispatched: set<string>, t: string) {
    t !in dispatched && TypeOf(events, t) != REVIEW && !PendingReplan(events, t)
  }

  method ReadyExecutionTasksToDispatch(events: seq<Event>, plan: string, dispatched: set<string>) returns (tasks: seq<string>)
    ensures tasks == Candidates(events, plan, dispatched)
    ensures forall t :: t in tasks <==>
              && MayStart(events, plan, CompletedTasks(events), t)
              && t !in dispatched && !IsOfType(events, t, "review") && !PendingReplan(events, t)
  {
    CandidatesMean(events, plan, dispatched);
    var pending := TasksPendingReplan(events);
    var ready := ComputeReadyTasks(events, plan, CompletedTasks(events));
    ghost var keep := t => Dispatchable(events, dispatched, t);
    tasks := [];
    assert ready[..|ready|] == ready;
    for i := 0 to |ready|
      invariant tasks == Filter(ready[..i], keep)
    {
      assert ready[..i + 1][..i] == ready[..i];
      var t := ready[i];
      if t !in dispatched && TypeOf(events, t) != REVIEW && t !in pending { tasks := tasks + [t]; }
    }
  }

  lemma CandidateMembers(events: seq<Event>, plan: string, dispatched: set<string>, t: string)
    ensures t in Candidates(events, plan, dispatched)
            <==> IsReady(events, plan, CompletedTasks(events), t) && Dispatchable(events, dispatched, t)
  {
    FilterMembers(Ready(events, plan, CompletedTasks(events)), x => Dispatchable(events, dispatched, x), t);
    ReadyMembers(events, plan, CompletedTasks(events), t);
  }

  lemma CandidatesMean(events: seq<Event>, plan: string, dispatched: set<string>)
    ensures forall t :: t in Candidates(events, plan, dispatched) <==>
              && MayStart(events, plan, CompletedTasks(events), t)
              && t !in dispatched && !IsOfType(events, t, "review") && !PendingReplan(events, t)
  {
    ReadyMeans(events, plan, CompletedTasks(events));
    forall t
      ensures t in Candidates(events, plan, dispatched) <==> t in Ready(events, plan, CompletedTasks(events)) && Dispatchable(events, dispatched, t)
      ensures TypeOf(events, t) == "review" <==> IsOfType(events, t, "review")
    {
      FilterMembers(Ready(events, plan, CompletedTasks(events)), x => Dispatchable(events, dispatched, x), t);
      TypeMeans(events, t, "review");
    }
  }

  // ------------------------------------------------------------ high fan-out protection

  function Claims(claims: map<string, set<string>>, t: string): set<string> {
    if t in claims then claims[t] else {}
  }

  function Readers(readSets: map<string, set<string>>, concept: string): set<string> {
    set t | t in readSets && concept in readSets[t]
  }

  /** A concept that an active task writes while more than three tasks of the plan read it. */
  predicate Hot(policy: Policy, active: set<string>, concept: string) {
    |Readers(policy.readSets, concept)| > HIGH_FANOUT_READERS
    && exists a | a in active :: concept in Claims(policy.writeSets, a)
  }

  predicate Blocked(policy: Policy, active: set<string>, t: string) {
    exists concept | concept in Touched(policy, t) :: Hot(policy, active, concept)
  }

  /** The task reads or writes a concept that an active task writes and at least four tasks of the plan read. */
  ghost predicate Contended(policy: Policy, active: set<string>, t: string) {
    exists concept, writer ::
      && writer in active && writer in policy.writeSets && concept in policy.writeSets[writer]
      && ((t in policy.readSets && concept in policy.readSets[t]) || (t in policy.writeSets && concept in policy.writeSets[t]))
      && |set reader | reader in policy.readSets && concept in policy.readSets[reader]| >= 4
  }

  lemma BlockedMeans(policy: Policy, active: set<string>, t: string)
    ensures Blocked(policy, active, t) <==> Contended(policy, active, t)
  {
    forall concept ensures Readers(policy.readSets, concept) == set reader | reader in policy.readSets && concept in policy.readSets[reader] {
    }
    if Blocked(policy, active, t) {
      var concept :| concept in Touched(policy, t) && Hot(policy, active, concept);
      var writer :| writer in active && concept in Claims(policy.writeSets, writer);
      assert concept in policy.writeSets[writer];
    }
    if Contended(policy, active, t) {
      var concept, writer :|
        && writer in active && writer in policy.writeSets && concept in policy.writeSets[writer]
        && ((t in policy.readSets && concept in policy.readSets[t]) || (t in policy.writeSets && concept in policy.writeSets[t]))
        && |set reader | reader in policy.readSets && concept in policy.readSets[reader]| >= 4;
      assert concept in Claims(policy.writeSets, writer);
      assert Hot(policy, active, concept) && concept in Touched(policy, t);
    }
  }

  ghost predicate CountsReaders(count: map<string, int>, readSets: map<string, set<string>>, done: set<string>) {
    forall concept :: Count(count, concept) == |Readers(readSets, concept) * done|
  }

  lemma CountsStep(was: map<string, int>, count: map<string, int>, readSets: map<string, set<string>>, done: set<string>, t: string)
    requires CountsReaders(was, readSets, done) && t in readSets && t !in done
    requires count == map concept | concept in was.Keys + readSets[t] ::
                        Count(was, concept) + if concept in readSets[t] then 1 else 0
    ensures CountsReaders(count, readSets, done + {t})
  {
    forall concept ensures Count(count, concept) == |Readers(readSets, concept) * (done + {t})| {
      assert Count(was, concept) == |Readers(readSets, concept) * done|;
      AddReader(readSets, done, t, concept);
    }
  }

  lemma AddReader(readSets: map<string, set<string>>, done: set<string>, t: string, concept: string)
    requires t in readSets && t !in done
    ensures |Readers(readSets, concept) * (done + {t})|
         == |Readers(readSets, concept) * done| + if concept in readSets[t] then 1 else 0
  {
    var readers := Readers(readSets, concept);
    assert t in readers <==> concept in readSets[t];
    assert readers * (done + {t}) == readers * done + if t in readers then {t} else {};
  }

  /** The counting loop over the read claims. */
  method CountReaders(readSets: map<string, set<string>>) returns (count: map<string, int>)
    ensures forall concept :: Count(count, concept) == |Readers(readSets, concept)|
  {
    count := map[];
    var todo := readSets.Keys;
    assert CountsReaders(count, readSets, {}) by {
      forall concept ensures Readers(readSets, concept) * {} == {} {}
    }
    assert readSets.Keys - todo == {};
    while todo != {}
      invariant todo <= readSets.Keys && CountsReaders(count, readSets, readSets.Keys - todo)
      decreases |todo|
    {
      var t :| t in todo;
      ghost var was := count;
      count := map concept | concept in count.Keys + readSets[t] ::
                 Count(count, concept) + if concept in readSets[t] then 1 else 0;
      CountsStep(was, count, readSets, readSets.Keys - todo, t);
      assert readSets.Keys - (todo - {t}) == readSets.Keys - todo + {t};
      todo := todo - {t};
    }
    assert readSets.Keys - todo == readSets.Keys;
    forall concept ensures Count(count, concept) == |Readers(readSets, concept)| {
      assert Readers(readSets, concept) * readSets.Keys == Readers(readSets, concept);
    }
  }

  method HotConcepts(policy: Policy, active: set<string>) returns (hot: set<string>)
    ensures forall concept :: concept in hot <==> Hot(policy, active, concept)
  {
    var count := CountReaders(policy.readSets);
    hot := {};
    var todo := active;
    while todo != {}
      invariant todo <= active
      invariant forall concept :: concept in hot <==> Hot(policy, active - todo, concept)
      decreases |todo|
    {
      var a :| a in todo;
      var crowded := set concept | concept in Claims(policy.writeSets, a) && Count(count, concept) > HIGH_FANOUT_READERS;
      HotGrows(policy, active - todo, a, hot, crowded);
      assert active - (todo - {a}) == active - todo + {a};
      todo, hot := todo - {a}, hot + crowded;
    }
    assert active - todo == active;
  }

  lemma HotGrows(policy: Policy, seen: set<string>, a: string, hot: set<string>, crowded: set<string>)
    requires forall concept :: concept in hot <==> Hot(policy, seen, concept)
    requires forall concept :: concept in crowded <==>
               concept in Claims(policy.writeSets, a) && |Readers(policy.readSets, concept)| > HIGH_FANOUT_READERS
    ensures forall concept :: concept in hot + crowded <==> Hot(policy, seen + {a}, concept)
  {
    forall concept ensures Hot(policy, seen + {a}, concept) <==> Hot(policy, seen, concept) || concept in crowded {
      if concept in crowded { assert a in seen + {a}; }
      if Hot(policy, seen, concept) {
        var w :| w in seen && concept in Claims(policy.writeSets, w);
        assert w in seen + {a};
      }
    }
  }

  function Touched(policy: Policy, t: string): set<string> {
    Claims(policy.readSets, t) + Claims(policy.writeSets, t)
  }

  method HighFanoutBlocked(policy: Policy, candidates: seq<string>, active: set<string>) returns (blocked: set<string>)
    ensures blocked == set c | c in candidates && Blocked(policy, active, c)
    ensures forall c :: c in blocked <==> c in candidates && Contended(policy, active, c)
  {
    forall c ensures Blocked(policy, active, c) <==> Contended(policy, active, c) { BlockedMeans(policy, active, c); }
    var hot := HotConcepts(policy, active);
    blocked := set c | c in candidates && Touched(policy, c) * hot != {};
    forall c ensures Touched(policy, c) * hot != {} <==> Blocked(policy, active, c) {
      BlockedIsTouch(policy, active, hot, c);
    }
  }

  lemma BlockedIsTouch(policy: Policy, active: set<string>, hot: set<string>, c: string)
    requires forall concept :: concept in hot <==> Hot(policy, active, concept)
    ensures Touched(policy, c) * hot != {} <==> Blocked(policy, active, c)
  {
    if Touched(policy, c) * hot != {} {
      var concept :| concept in Touched(policy, c) * hot;
      assert concept in Touched(policy, c) && Hot(policy, active, concept);
    }
    if Blocked(policy, active, c) {
      var concept :| concept in Touched(policy, c) && Hot(policy, active, concept);
      assert concept in Touched(policy, c) * hot;
    }
  }

  // ------------------------------------------------------------ the order of the queue

  /** Critical tasks first, then by name. */
  predicate Precedes(critical: set<string>, a: string, b: string) {
    if (a in critical) != (b in critical) then a in critical else LexLe(a, b)
  }

  function QueueOrder(critical: set<string>): (string, string) -> bool {
    (a, b) => Precedes(critical, a, b)
  }

  function Queue(critical: set<string>, tasks: seq<string>): seq<string> {
    SortBy(tasks, QueueOrder(critical))
  }

  ghost predicate Ordered(critical: set<string>, queue: seq<string>) {
    forall i, j :: 0 <= i < j < |queue| ==> Precedes(critical, queue[i], queue[j])
  }

  lemma PrecedesTransitive(critical: set<string>, a: string, b: string, c: string)
    requires Precedes(critical, a, b) && (b == c || Precedes(critical, b, c))
    ensures Precedes(critical, a, c)
  {
    if b != c && LexLe(a, b) && LexLe(b, c) { LexTransitive(a, b, c); }
  }

  /** Critical before others, and by name among equals. */
  ghost predicate Leads(critical: set<string>, a: string, b: string) {
    (a in critical && b !in critical) || ((a in critical <==> b in critical) && LexBefore(a, b))
  }

  lemma QueueIsSorted(critical: set<string>, tasks: seq<string>)
    ensures Ordered(critical, Queue(critical, tasks)) && multiset(Queue(critical, tasks)) == multiset(tasks)
    ensures var queue := Queue(critical, tasks); forall i, j :: 0 <= i < j < |queue| ==> Leads(critical, queue[i], queue[j])
  {
    var le := QueueOrder(critical);
    forall a, b ensures le(a, b) || le(b, a) { LexTotal(a, b); }
    forall a, b, c | le(a, b) && le(b, c) ensures le(a, c) { PrecedesTransitive(critical, a, b, c); }
    SortByOrders(tasks, le);
    SortByKeeps(tasks, le);
    forall i, j | 0 <= i < j < |Queue(critical, tasks)| ensures Precedes(critical, Queue(critical, tasks)[i], Queue(critical, tasks)[j]) {
      assert le(Queue(critical, tasks)[i], Queue(critical, tasks)[j]);
    }
    forall i, j | 0 <= i < j < |Queue(critical, tasks)| ensures Leads(critical, Queue(critical, tasks)[i], Queue(critical, tasks)[j]) {
      assert Precedes(critical, Queue(critical, tasks)[i], Queue(critical, tasks)[j]);
      LexMeans(Queue(critical, tasks)[i], Queue(critical, tasks)[j]);
    }
  }

  // ------------------------------------------------------------ the batch

  function TierOf(policy: Policy, t: string): string {
    if t in policy.tiers then policy.tiers[t] else "opus"
  }

  function CapOf(policy: Policy, tier: string): int {
    if tier == "sonnet" then policy.capSonnet else policy.capOpus
  }

  function Count(byTier: map<string, int>, tier: string): int {
    if tier in byTier then byTier[tier] else 0
  }

  datatype Load = Load(total: int, byTier: map<string, int>)

  function Started(load: Load, tier: string): Load {
    Load(load.total + 1, load.byTier[tier := Count(load.byTier, tier) + 1])
  }

  predicate HasRoom(policy: Policy, load: Load, t: string) {
    load.total < policy.capTotal && Count(load.byTier, TierOf(policy, t)) < CapOf(policy, TierOf(policy, t))
  }

  /** The load once everything picked from the queue has started. */
  function LoadAfter(policy: Policy, load: Load, queue: seq<string>): Load {
    if queue == [] then load
    else
      var before := LoadAfter(policy, load, queue[..|queue| - 1]);
      var t := queue[|queue| - 1];
      if HasRoom(policy, before, t) then Started(before, TierOf(policy, t)) else before
  }

  /** A place of the queue is picked iff there is room when its turn comes. */
  predicate PickedAt(policy: Policy, load: Load, queue: seq<string>, i: nat)
    requires i < |queue|
  {
    HasRoom(policy, LoadAfter(policy, load, queue[..i]), queue[i])
  }

  function Picked(policy: Policy, load: Load, queue: seq<string>): seq<(string, string)> {
    if queue == [] then []
    else
      var last := |queue| - 1;
      var before := Picked(policy, load, queue[..last]);
      if PickedAt(policy, load, queue, last) then before + [(queue[last], TierOf(policy, queue[last]))] else before
  }

  ghost function Eligible(policy: Policy, candidates: seq<string>, active: set<string>): seq<string> {
    Filter(candidates, t => !Blocked(policy, active, t))
  }

  ghost function Batch(policy: Policy, candidates: seq<string>, active: set<string>, load: Load): seq<(string, string)> {
    Picked(policy, load, Queue(policy.critical, Eligible(policy, candidates, active)))
  }

  method SelectDispatchBatch(policy: Policy, candidates: seq<string>, active: set<string>, load: Load)
    returns (picked: seq<(string, string)>)
    ensures picked == Batch(policy, candidates, active, load)
  {
    var blocked := HighFanoutBlocked(policy, candidates, active);
    var eligible: seq<string> := [];
    ghost var keep := t => !Blocked(policy, active, t);
    assert candidates[..|candidates|] == candidates;
    for i := 0 to |candidates|
      invariant eligible == Filter(candidates[..i], keep)
    {
      assert candidates[..i + 1][..i] == candidates[..i];
      if candidates[i] !in blocked { eligible := eligible + [candidates[i]]; }
    }
    picked := PickFrom(policy, load, Queue(policy.critical, eligible));
  }

  method PickFrom(policy: Policy, load: Load, queue: seq<string>) returns (picked: seq<(string, string)>)
    ensures picked == Picked(policy, load, queue)
  {
    picked := [];
    var total, byTier := load.total, load.byTier;
    assert queue[..|queue|] == queue;
    for i := 0 to |queue|
      invariant picked == Picked(policy, load, queue[..i])
      invariant LoadAfter(policy, load, queue[..i]) == Load(total, byTier)
    {
      assert queue[..i + 1][..i] == queue[..i];
      if total >= policy.capTotal {
        FullStaysFull(policy, load, queue, i);
        break;
      }
      var t := queue[i];
      var tier := TierOf(policy, t);
      if Count(byTier, tier) < CapOf(policy, tier) {
        picked := picked + [(t, tier)];
        total := total + 1;
        byTier := byTier[tier := Count(byTier, tier) + 1];
      }
    }
  }

  lemma {:induction false} FullStaysFull(policy: Policy, load: Load, queue: seq<string>, i: nat)
    requires i <= |queue| && LoadAfter(policy, load, queue[..i]).total >= policy.capTotal
    ensures Picked(policy, load, queue) == Picked(policy, load, queue[..i])
    ensures LoadAfter(policy, load, queue) == LoadAfter(policy, load, queue[..i])
    decreases |queue|
  {
    if i == |queue| {
      assert queue[..i] == queue;
    } else {
      var shorter := queue[..|queue| - 1];
      assert shorter[..i] == queue[..i];
      FullStaysFull(policy, load, shorter, i);
    }
  }

  // ------------------------------------------------------------ what a batch keeps

  /** The task runs on the tier its plan names, and on opus when it names none. */
  ghost predicate OnTier(policy: Policy, t: string, tier: string) {
    if t in policy.tiers then policy.tiers[t] == tier else tier == "opus"
  }

  /** Only sonnet has a cap of its own; every other tier is held to that of opus. */
  ghost predicate CapIs(policy: Policy, tier: string, cap: int) {
    (tier == "sonnet" ==> cap == policy.capSonnet) && (tier != "sonnet" ==> cap == policy.capOpus)
  }

  function OfTier(picked: seq<(string, string)>, tier: string): nat {
    if picked == [] then 0
    else OfTier(picked[..|picked| - 1], tier) + if picked[|picked| - 1].1 == tier then 1 else 0
  }

  /** The final load is the given one plus the batch, in total and in every tier; neither cap is
      exceeded unless it was on entry. */
  lemma {:induction false} CapsRespected(policy: Policy, load: Load, queue: seq<string>, tier: string, cap: int)
    requires CapIs(policy, tier, cap)
    ensures var picked, after := Picked(policy, load, queue), LoadAfter(policy, load, queue);
            && after.total == load.total + |picked| <= Max(load.total, policy.capTotal)
            && Count(after.byTier, tier) == Count(load.byTier, tier) + OfTier(picked, tier)
               <= Max(Count(load.byTier, tier), cap)
  {
    if queue != [] {
      CapsRespected(policy, load, queue[..|queue| - 1], tier, cap);
      var before := Picked(policy, load, queue[..|queue| - 1]);
      var picked := Picked(policy, load, queue);
      if picked != before { assert picked[..|picked| - 1] == before; }
    }
  }

  lemma {:induction false} LoadGrows(policy: Policy, load: Load, queue: seq<string>, i: nat, tier: string)
    requires i <= |queue|
    ensures LoadAfter(policy, load, queue[..i]).total <= LoadAfter(policy, load, queue).total
    ensures Count(LoadAfter(policy, load, queue[..i]).byTier, tier) <= Count(LoadAfter(policy, load, queue).byTier, tier)
    decreases |queue|
  {
    if i == |queue| {
      assert queue[..i] == queue;
    } else {
      var shorter := queue[..|queue| - 1];
      assert shorter[..i] == queue[..i];
      LoadGrows(policy, load, shorter, i, tier);
    }
  }

  lemma {:induction false} PickedMembers(policy: Policy, load: Load, queue: seq<string>, p: (string, string))
    ensures p in Picked(policy, load, queue) <==> exists i: nat :: PickOf(policy, load, queue, i, p)
  {
    if queue != [] {
      var shorter := queue[..|queue| - 1];
      PickedMembers(policy, load, shorter, p);
      PickPlaces(policy, load, queue, p);
    }
  }

  /** A place picked in the queue is its last one, or one that is picked without the last. */
  lemma PickPlaces(policy: Policy, load: Load, queue: seq<string>, p: (string, string))
    requires queue != []
    ensures var last := |queue| - 1;
            (exists i: nat :: PickOf(policy, load, queue, i, p))
            <==> PickOf(policy, load, queue, last, p) || exists i: nat :: PickOf(policy, load, queue[..last], i, p)
  {
    var last := |queue| - 1;
    forall i: nat | i < last ensures PickOf(policy, load, queue, i, p) <==> PickOf(policy, load, queue[..last], i, p) {
      assert queue[..last][..i] == queue[..i];
    }
    if i: nat :| PickOf(policy, load, queue, i, p) && i < last { assert PickOf(policy, load, queue[..last], i, p); }
    if i: nat :| PickOf(policy, load, queue[..last], i, p) { assert PickOf(policy, load, queue, i, p); }
  }

  predicate PickOf(policy: Policy, load: Load, queue: seq<string>, i: nat, p: (string, string)) {
    i < |queue| && PickedAt(policy, load, queue, i) && p == (queue[i], TierOf(policy, queue[i]))
  }

  /** Greedy maximality: an eligible task stays out only because the batch used up the total cap or
      the cap of its tier. */
  lemma LeftOutOnlyWhenFull(policy: Policy, candidates: seq<string>, active: set<string>, load: Load, t: string, tier: string, cap: int)
    requires t in candidates && !Contended(policy, active, t) && OnTier(policy, t, tier) && CapIs(policy, tier, cap)
    ensures var picked := Batch(policy, candidates, active, load);
            || (t, tier) in picked
            || load.total + |picked| >= policy.capTotal
            || Count(load.byTier, tier) + OfTier(picked, tier) >= cap
  {
    BlockedMeans(policy, active, t);
    var queue := Queue(policy.critical, Eligible(policy, candidates, active));
    var i := PlaceInQueue(policy, candidates, active, t);
    PickedMembers(policy, load, queue, (t, tier));
    assert PickedAt(policy, load, queue, i) ==> PickOf(policy, load, queue, i, (t, tier));
    LoadGrows(policy, load, queue, i, tier);
    CapsRespected(policy, load, queue, tier, cap);
  }

  lemma PlaceInQueue(policy: Policy, candidates: seq<string>, active: set<string>, t: string) returns (i: nat)
    requires t in candidates && !Blocked(policy, active, t)
    ensures var queue := Queue(policy.critical, Eligible(policy, candidates, active)); i < |queue| && queue[i] == t
  {
    var eligible := Eligible(policy, candidates, active);
    var queue := Queue(policy.critical, eligible);
    FilterMembers(candidates, x => !Blocked(policy, active, x), t);
    QueueIsSorted(policy.critical, eligible);
    assert t in multiset(queue);
    i :| i < |queue| && queue[i] == t;
  }

  /** Within a tier, the batch is a prefix of the queue: whoever has an earlier place is taken first. */
  lemma EarlierOfTierIsPicked(policy: Policy, load: Load, queue: seq<string>, i: nat, j: nat)
    requires i <= j < |queue| && PickedAt(policy, load, queue, j) && TierOf(policy, queue[i]) == TierOf(policy, queue[j])
    ensures PickedAt(policy, load, queue, i)
  {
    assert queue[..j][..i] == queue[..i];
    LoadGrows(policy, load, queue[..j], i, TierOf(policy, queue[i]));
  }

  /** No task is taken while a strictly preceding eligible one of its tier is left out; in particular no
      non-critical one before a critical one. */
  lemma PrecedingIsPickedFirst(policy: Policy, candidates: seq<string>, active: set<string>, load: Load, first: string, second: string, tier: string)
    requires first in candidates && !Contended(policy, active, first) && OnTier(policy, first, tier)
    requires (second, tier) in Batch(policy, candidates, active, load)
    requires !Leads(policy.critical, second, first)
    ensures (first, tier) in Batch(policy, candidates, active, load)
  {
    BlockedMeans(policy, active, first);
    var eligible := Eligible(policy, candidates, active);
    var queue := Queue(policy.critical, eligible);
    QueueIsSorted(policy.critical, eligible);
    PickedMembers(policy, load, queue, (second, tier));
    var j: nat :| PickOf(policy, load, queue, j, (second, tier));
    var i := PlaceInQueue(policy, candidates, active, first);
    if i == j {
      assert LexBefore(first, first);
    }
    assert i < j;
    EarlierOfTierIsPicked(policy, load, queue, i, j);
    assert PickOf(policy, load, queue, i, (first, tier));
    PickedMembers(policy, load, queue, (first, tier));
  }

  lemma CriticalBeatsNonCritical(policy: Policy, candidates: seq<string>, active: set<string>, load: Load,
                                 crit: string, other: string, tier: string)
    requires crit in candidates && !Contended(policy, active, crit) && crit in policy.critical && OnTier(policy, crit, tier)
    requires other !in policy.critical && (other, tier) in Batch(policy, candidates, active, load)
    ensures (crit, tier) in Batch(policy, candidates, active, load)
  {
    PrecedingIsPickedFirst(policy, candidates, active, load, crit, other, tier);
  }

  /** Only unblocked candidates are picked. */
  lemma PickedAreEligible(policy: Policy, candidates: seq<string>, active: set<string>, load: Load, p: (string, string))
    requires p in Batch(policy, candidates, active, load)
    ensures p.0 in candidates && !Contended(policy, active, p.0) && OnTier(policy, p.0, p.1)
  {
    BlockedMeans(policy, active, p.0);
    var eligible := Eligible(policy, candidates, active);
    QueueIsSorted(policy.critical, eligible);
    PickedMembers(policy, load, Queue(policy.critical, eligible), p);
    assert p.0 in multiset(Queue(policy.critical, eligible));
    FilterMembers(candidates, t => !Blocked(policy, active, t), p.0);
  }
}
