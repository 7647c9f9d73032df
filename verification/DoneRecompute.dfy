/** Execution's own check of its done criteria, by way of the closure gate. */
module DoneRecompute {
  import opened Prelude
  import opened ClosureGate

  datatype DoneCriterion = DoneCriterion(id: string, check: Option<Criterion>)

  /** What the gate can recompute in a worktree; ledger events are not committed yet there. */
  predicate InWorktree(c: Criterion) {
    c.how.Grep? || c.how.Test? || c.how.GitDiff?
  }

  predicate IsTest(c: Criterion) { c.how.Test? }

  /** The machine checks that satisfy `pick`, in order. */
  function Checks(done: seq<DoneCriterion>, pick: Criterion -> bool): seq<Criterion> {
    if done == [] then []
    else
      var last := done[|done| - 1];
      Checks(done[..|done| - 1], pick) + if last.check.Some? && pick(last.check.value) then [last.check.value] else []
  }

  lemma {:induction false} ChecksMembers(done: seq<DoneCriterion>, pick: Criterion -> bool, c: Criterion)
    ensures c in Checks(done, pick) <==> pick(c) && exists i | 0 <= i < |done| :: done[i].check == Some(c)
  {
    if done != [] {
      var last := |done| - 1;
      ChecksMembers(done[..last], pick, c);
      if i :| 0 <= i < |done| && done[i].check == Some(c) && i < last { assert done[..last][i].check == Some(c); }
    }
  }

  /** Every check is a criterion, answered by the executor's one overall claim. */
  function SelfReport(checks: seq<Criterion>, claimed: bool): Report {
    Report(seq(|checks|, i requires 0 <= i < |checks| => (checks[i].condition, claimed)), [], [])
  }

  function CheckOutcome(checks: seq<Criterion>, claimed: bool, run: Runners): Outcome {
    OutcomeOf(Verdicts(Contract(checks, [], []), SelfReport(checks, claimed), run))
  }

  method MachineChecks(done: seq<DoneCriterion>, pick: Criterion -> bool) returns (checks: seq<Criterion>)
    ensures checks == Checks(done, pick)
  {
    checks := [];
    assert done[..|done|] == done;
    for i := 0 to |done|
      invariant checks == Checks(done[..i], pick)
    {
      assert done[..i + 1][..i] == done[..i];
      if done[i].check.Some? && pick(done[i].check.value) { checks := checks + [done[i].check.value]; }
    }
  }

  ghost predicate AllHold(done: seq<DoneCriterion>, kinds: set<Method>, run: Runners) {
    forall i :: 0 <= i < |done| && done[i].check.Some? && done[i].check.value.how in kinds
      ==> FoundTrue(done[i].check.value, run)
  }

  ghost predicate Has(done: seq<DoneCriterion>, kinds: set<Method>) {
    exists i :: 0 <= i < |done| && done[i].check.Some? && done[i].check.value.how in kinds
  }

  /** None without a check the gate can recompute; otherwise passed iff the executor claims to be done
      and the gate finds every such check true for itself. */
  method RecomputeDoneCriteriaCheck(done: seq<DoneCriterion>, claimed: bool, run: Runners) returns (passed: Option<bool>)
    ensures passed.None? <==> !Has(done, {Grep, Test, GitDiff})
    ensures passed.Some? ==> (passed.value <==> claimed && AllHold(done, {Grep, Test, GitDiff}, run))
  {
    var checks := MachineChecks(done, InWorktree);
    ChecksMeanAll(done, InWorktree, {Grep, Test, GitDiff}, claimed, run);
    if checks == [] { return None; }
    var outcome := VerifyClosureAgainstContract(Contract(checks, [], []), SelfReport(checks, claimed), run);
    return Some(outcome.strong);
  }

  /** Always answers: passed when there is no test check, else as above over the test checks. */
  method RecomputeLivefireCheck(done: seq<DoneCriterion>, claimed: bool, run: Runners) returns (passed: bool)
    ensures passed <==> !Has(done, {Test}) || (claimed && AllHold(done, {Test}, run))
  {
    var checks := MachineChecks(done, IsTest);
    ChecksMeanAll(done, IsTest, {Test}, claimed, run);
    if checks == [] { return true; }
    var outcome := VerifyClosureAgainstContract(Contract(checks, [], []), SelfReport(checks, claimed), run);
    return outcome.strong;
  }

  lemma {:induction false} OfKeyAppend<T>(pool: seq<(string, T)>, entry: (string, T), key: string)
    ensures OfKey(pool + [entry], key) == OfKey(pool, key) + if entry.0 == key then [entry.1] else []
  {
    if pool == [] {
      assert pool + [entry] == [entry] && [entry][1..] == [];
      assert OfKey([entry][1..], key) == [];
    } else {
      assert (pool + [entry])[1..] == pool[1..] + [entry];
      OfKeyAppend(pool[1..], entry, key);
    }
  }

  /** A report that answers the conditions one for one has as many answers to a key as there are
      criteria with it, and all say the same. */
  lemma {:induction false} ReportAnswersAll(checks: seq<Criterion>, claimed: bool, key: string, n: nat)
    requires n <= |checks|
    ensures var answers := OfKey(SelfReport(checks, claimed).criteria[..n], key);
            |answers| == Rank(Conditions(checks), key, n) && forall k :: 0 <= k < |answers| ==> answers[k] == claimed
  {
    if n > 0 {
      var pool := SelfReport(checks, claimed).criteria;
      ReportAnswersAll(checks, claimed, key, n - 1);
      assert pool[..n] == pool[..n - 1] + [pool[n - 1]];
      OfKeyAppend(pool[..n - 1], pool[n - 1], key);
    }
  }

  lemma ClaimMatches(checks: seq<Criterion>, claimed: bool, i: nat)
    requires i < |checks|
    ensures Matched(Conditions(checks), SelfReport(checks, claimed).criteria, i) == Some(claimed)
  {
    var pool, keys := SelfReport(checks, claimed).criteria, Conditions(checks);
    ReportAnswersAll(checks, claimed, keys[i], |checks|);
    assert pool[..|checks|] == pool;
    RankGrows(keys, keys[i], i + 1, |keys|);
  }

  lemma OutcomeMeansAll(checks: seq<Criterion>, claimed: bool, run: Runners)
    requires forall c :: c in checks ==> !c.how.Unrecomputable?
    ensures checks != [] ==>
              (CheckOutcome(checks, claimed, run).strong <==> claimed && forall c :: c in checks ==> FoundTrue(c, run))
  {
    var contract, report := Contract(checks, [], []), SelfReport(checks, claimed);
    StrongGateIsExact(contract, report, run);
    forall i: nat | i < |checks|
      ensures CriterionMet(contract, report, run, i) <==> claimed && FoundTrue(checks[i], run)
    {
      ClaimMatches(checks, claimed, i);
    }
    if checks != [] { assert CriterionMet(contract, report, run, 0) ==> claimed; }
  }

  lemma ChecksMeanAll(done: seq<DoneCriterion>, pick: Criterion -> bool, kinds: set<Method>, claimed: bool, run: Runners)
    requires Unrecomputable !in kinds && forall c :: pick(c) <==> c.how in kinds
    ensures var checks := Checks(done, pick);
            && (checks == [] <==> !Has(done, kinds))
            && (checks != [] ==> (CheckOutcome(checks, claimed, run).strong <==> claimed && AllHold(done, kinds, run)))
  {
    var checks := Checks(done, pick);
    forall c ensures c in checks <==> pick(c) && exists i | 0 <= i < |done| :: done[i].check == Some(c) {
      ChecksMembers(done, pick, c);
    }
    OutcomeMeansAll(checks, claimed, run);
    if checks != [] {
      assert checks[0] in checks;
      var i :| 0 <= i < |done| && done[i].check == Some(checks[0]);
      assert Has(done, kinds);
    }
    if Has(done, kinds) {
      var i :| 0 <= i < |done| && done[i].check.Some? && done[i].check.value.how in kinds;
      assert done[i].check.value in checks;
    }
    forall i | 0 <= i < |done| && done[i].check.Some? && done[i].check.value.how in kinds ensures done[i].check.value in checks {
      assert done[i].check == Some(done[i].check.value);
    }
  }
}
