/** The gate that counts events in the committed ledger, within a scope anchored in the ledger itself. */
module LedgerEvents {
  import opened Prelude

  datatype Body = Body(after: map<string, string>, top: map<string, string>)

  /** A committed record; a rewrapped one carries its real kind and body. "" is a missing anchor. */
  datatype Record = Record(
    eventType: string, body: Body, stub: Option<(string, Body)>, taskId: string, runId: string)

  datatype Scope = Everywhere | ThisRun | ThisTask | ThisGoal

  datatype Context = Context(runId: string, taskId: string, goalTasks: Option<set<string>>)

  datatype Query = Query(kind: string, predicates: map<string, string>, minimum: int, scope: Scope)

  function EffectiveKind(r: Record): string {
    if r.eventType == "NodeTouched" && r.stub.Some? then r.stub.value.0 else r.eventType
  }

  function EffectiveBody(r: Record): Body {
    if r.eventType == "NodeTouched" && r.stub.Some? then r.stub.value.1 else r.body
  }

  function Field(body: Body, key: string): Option<string> {
    if key in body.after then Some(body.after[key])
    else if key in body.top then Some(body.top[key]) else None
  }

  /** The record's own anchor, else the field of its body, the nested one first. */
  function Anchor(own: string, body: Body, key: string): string {
    if own != "" then own
    else if key in body.after && body.after[key] != "" then body.after[key]
    else if key in body.top then body.top[key] else ""
  }

  function TaskOf(r: Record): string { Anchor(r.taskId, EffectiveBody(r), "task_id") }

  function RunOf(r: Record): string { Anchor(r.runId, EffectiveBody(r), "run_id") }

  predicate Anchored(q: Query, ctx: Context) {
    match q.scope
    case Everywhere => true
    case ThisRun => ctx.runId != ""
    case ThisTask => ctx.taskId != ""
    case ThisGoal => ctx.goalTasks.Some?
  }

  predicate InScope(r: Record, scope: Scope, ctx: Context) {
    match scope
    case Everywhere => true
    case ThisRun => RunOf(r) == ctx.runId
    case ThisTask => TaskOf(r) == ctx.taskId
    case ThisGoal => ctx.goalTasks.Some? && TaskOf(r) != "" && TaskOf(r) in ctx.goalTasks.value
  }

  predicate Matches(r: Record, q: Query) {
    EffectiveKind(r) == q.kind
    && forall key | key in q.predicates :: Field(EffectiveBody(r), key) == Some(q.predicates[key])
  }

  predicate Counts(r: Record, q: Query, ctx: Context) {
    Matches(r, q) && InScope(r, q.scope, ctx)
  }

  /** The record really is of the kind and has the body, rewrapped or not. */
  ghost predicate Really(r: Record, kind: string, body: Body) {
    if r.eventType == "NodeTouched" && r.stub.Some? then r.stub == Some((kind, body)) else (r.eventType, r.body) == (kind, body)
  }

  /** The nested field hides the one at the top. */
  ghost predicate HasField(body: Body, key: string, value: string) {
    || (key in body.after && body.after[key] == value)
    || (key !in body.after && key in body.top && body.top[key] == value)
  }

  /** The anchor is the record's own; failing that the nested field, if it says something, and then the one
      at the top. */
  ghost predicate AnchorIs(own: string, body: Body, key: string, anchor: string) {
    var nested := key in body.after && body.after[key] != "";
    && (own != "" ==> anchor == own)
    && (own == "" && nested ==> anchor == body.after[key])
    && (own == "" && !nested && key in body.top ==> anchor == body.top[key])
    && (own == "" && !nested && key !in body.top ==> anchor == "")
  }

  ghost predicate LiesInScope(r: Record, body: Body, scope: Scope, ctx: Context) {
    && (scope == ThisRun ==> AnchorIs(r.runId, body, "run_id", ctx.runId))
    && (scope == ThisTask ==> AnchorIs(r.taskId, body, "task_id", ctx.taskId))
    && (scope == ThisGoal ==> ctx.goalTasks.Some? && exists task :: task != "" && task in ctx.goalTasks.value && AnchorIs(r.taskId, body, "task_id", task))
  }

  /** Of the kind asked for, with every field asked for, and in the scope. */
  ghost predicate IsEvidence(r: Record, q: Query, ctx: Context) {
    exists body :: Really(r, q.kind, body) && LiesInScope(r, body, q.scope, ctx)
                   && forall key :: key in q.predicates ==> HasField(body, key, q.predicates[key])
  }

  lemma CountsMeans(r: Record, q: Query, ctx: Context)
    ensures Counts(r, q, ctx) <==> IsEvidence(r, q, ctx)
  {
    if Counts(r, q, ctx) {
      var body := EffectiveBody(r);
      assert Really(r, q.kind, body);
      assert q.scope == ThisGoal ==> AnchorIs(r.taskId, body, "task_id", TaskOf(r));
      assert LiesInScope(r, body, q.scope, ctx);
      forall key | key in q.predicates ensures HasField(body, key, q.predicates[key]) {
        assert Field(body, key) == Some(q.predicates[key]);
      }
    }
    if body :| Really(r, q.kind, body) && LiesInScope(r, body, q.scope, ctx)
               && forall key :: key in q.predicates ==> HasField(body, key, q.predicates[key]) {
      assert body == EffectiveBody(r);
    }
  }

  /** The places of the records that count. */
  function Counted(records: seq<Record>, q: Query, ctx: Context): set<int> {
    set i | 0 <= i < |records| && Counts(records[i], q, ctx)
  }

  lemma CountedIsEvidence(records: seq<Record>, q: Query, ctx: Context)
    ensures Counted(records, q, ctx) == set i | 0 <= i < |records| && IsEvidence(records[i], q, ctx)
  {
    forall i | 0 <= i < |records| ensures Counts(records[i], q, ctx) <==> IsEvidence(records[i], q, ctx) {
      CountsMeans(records[i], q, ctx);
    }
  }

  lemma CountedStep(records: seq<Record>, n: nat, q: Query, ctx: Context)
    requires n < |records|
    ensures Counted(records[..n + 1], q, ctx)
         == Counted(records[..n], q, ctx) + if Counts(records[n], q, ctx) then {n} else {}
    ensures n !in Counted(records[..n], q, ctx)
  {
  }

  /** None when the query is senseless or its scope has no anchor: the gate refuses rather than widen it. */
  method GateLedgerEvent(records: seq<Record>, q: Query, ctx: Context) returns (passed: Option<bool>, count: nat)
    ensures passed.None? <==> q.minimum < 1 || (q.scope == ThisRun && ctx.runId == "") || (q.scope == ThisTask && ctx.taskId == "")
                              || (q.scope == ThisGoal && ctx.goalTasks == None)
    ensures passed.Some? ==> count == |Counted(records, q, ctx)| == |set i | 0 <= i < |records| && IsEvidence(records[i], q, ctx)|
    ensures if passed.Some? then passed.value <==> count >= q.minimum else count == 0
  {
    CountedIsEvidence(records, q, ctx);
    if q.minimum < 1 || !Anchored(q, ctx) { return None, 0; }
    count := 0;
    assert records[..|records|] == records;
    for i := 0 to |records|
      invariant count == |Counted(records[..i], q, ctx)|
    {
      CountedStep(records, i, q, ctx);
      if Counts(records[i], q, ctx) { count := count + 1; }
    }
    passed := Some(count >= q.minimum);
  }

  function Keep(records: seq<Record>, q: Query, ctx: Context): seq<Record> {
    if records == [] then []
    else
      var last := |records| - 1;
      Keep(records[..last], q, ctx) + if Counts(records[last], q, ctx) then [records[last]] else []
  }

  lemma {:induction false} CountedIsKept(records: seq<Record>, q: Query, ctx: Context)
    ensures |Counted(records, q, ctx)| == |Keep(records, q, ctx)|
  {
    if records == [] {
      assert Counted(records, q, ctx) == {};
    } else {
      var last := |records| - 1;
      CountedIsKept(records[..last], q, ctx);
      CountedStep(records, last, q, ctx);
      assert records[..last + 1] == records;
    }
  }

  lemma {:induction false} KeepConcat(first: seq<Record>, second: seq<Record>, q: Query, ctx: Context)
    ensures Keep(first + second, q, ctx) == Keep(first, q, ctx) + Keep(second, q, ctx)
  {
    if second == [] {
      assert first + second == first;
    } else {
      var last := |second| - 1;
      assert (first + second)[..|first| + last] == first + second[..last];
      KeepConcat(first, second[..last], q, ctx);
    }
  }

  /** Events outside the query or its scope never help, wherever in the ledger they stand. */
  lemma ForeignRecordsNeverHelp(first: seq<Record>, foreign: seq<Record>, second: seq<Record>, q: Query, ctx: Context)
    requires Keep(foreign, q, ctx) == []
    ensures |Counted(first + foreign + second, q, ctx)| == |Counted(first + second, q, ctx)|
  {
    CountedIsKept(first + foreign + second, q, ctx);
    CountedIsKept(first + second, q, ctx);
    KeepConcat(first + foreign, second, q, ctx);
    KeepConcat(first, foreign, q, ctx);
    KeepConcat(first, second, q, ctx);
  }

  /** A narrower scope never counts more than the whole ledger. */
  lemma ScopeOnlyNarrows(records: seq<Record>, q: Query, ctx: Context)
    ensures |Counted(records, q, ctx)| <= |Counted(records, q.(scope := Everywhere), ctx)|
  {
    var wide := Counted(records, q.(scope := Everywhere), ctx);
    assert Counted(records, q, ctx) <= wide;
    SubsetSize(Counted(records, q, ctx), wide);
  }

  /** Evidence once committed keeps counting. */
  lemma MoreRecordsKeepPassing(records: seq<Record>, more: seq<Record>, q: Query, ctx: Context)
    ensures |Counted(records, q, ctx)| <= |Counted(records + more, q, ctx)|
  {
    assert Counted(records, q, ctx) <= Counted(records + more, q, ctx);
    SubsetSize(Counted(records, q, ctx), Counted(records + more, q, ctx));
  }

  /** Two goals without a common task never share a counted event. */
  lemma GoalsDoNotShareEvidence(r: Record, q: Query, one: Context, two: Context)
    requires q.scope.ThisGoal? && one.goalTasks.Some? && two.goalTasks.Some?
    requires one.goalTasks.value !! two.goalTasks.value
    ensures !(Counts(r, q, one) && Counts(r, q, two))
  {
    assert !(TaskOf(r) in one.goalTasks.value && TaskOf(r) in two.goalTasks.value);
  }
}
