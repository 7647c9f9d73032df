/** The closure gate: a closure result is checked item by item against the contract, the gate recomputing
    what it can, and the outcome is routed to a final state or a new round. */
module ClosureGate {
  import opened Prelude

  datatype Method = Grep | Test | GitDiff | LedgerEvent | Unrecomputable

  /** One contract criterion with its check parameters; `scopeDefect` says that the search scope is given
      but is no path. */
  datatype Criterion = Criterion(
    condition: string, how: Method, pattern: string, expected: Option<int>, atLeast: bool,
    scope: string, scopeDefect: bool, selector: string, ledgerBound: bool)

  datatype Residual = Residual(pattern: string, recomputable: bool, scope: string, scopeDefect: bool)

  datatype Contract = Contract(criteria: seq<Criterion>, ripples: seq<string>, residuals: seq<Residual>)

  datatype RippleReport = Synced | Pending | NotApplicable(evidence: string)

  /** What the reviewed party reports: each entry under the key it claims to answer. */
  datatype Report = Report(
    criteria: seq<(string, bool)>, ripples: seq<(string, RippleReport)>, residuals: seq<string>)

  datatype GrepRun = Occurrences(n: nat) | GrepFailed | GrepTimedOut

  /** The injected runners; each may fail to give an answer. */
  datatype Runners = Runners(
    grep: (string, string) -> GrepRun, pytest: string -> Option<bool>,
    gitDiff: Option<(string, string) -> Option<nat>>, ledger: Option<Criterion -> Option<bool>>)

  // ------------------------------------------------------------ consumption

  /** The values under a key, in order. */
  function OfKey<T>(pool: seq<(string, T)>, key: string): seq<T> {
    if pool == [] then []
    else if pool[0].0 == key then [pool[0].1] + OfKey(pool[1..], key)
    else OfKey(pool[1..], key)
  }

  /** The first value under the key, and the pool without it. */
  function TakeFirst<T>(pool: seq<(string, T)>, key: string): (Option<T>, seq<(string, T)>) {
    if pool == [] then (None, [])
    else if pool[0].0 == key then (Some(pool[0].1), pool[1..])
    else
      var rest := TakeFirst(pool[1..], key);
      (rest.0, [pool[0]] + rest.1)
  }

  lemma {:induction false} TakeFirstTakesOne<T>(pool: seq<(string, T)>, key: string, other: string)
    ensures var taken := TakeFirst(pool, key);
            && (taken.0.Some? <==> OfKey(pool, key) != [])
            && (taken.0.Some? ==> OfKey(pool, key) == [taken.0.value] + OfKey(taken.1, key))
            && (taken.0.None? ==> taken.1 == pool)
            && (other != key ==> OfKey(taken.1, other) == OfKey(pool, other))
  {
    if pool != [] {
      TakeFirstTakesOne(pool[1..], key, other);
      var taken := TakeFirst(pool, key);
      if pool[0].0 != key {
        var rest := TakeFirst(pool[1..], key);
        assert taken.1[0] == pool[0] && taken.1[1..] == rest.1;
        assert pool == [pool[0]] + pool[1..];
      }
    }
  }

  /** How often the key stands before place i. */
  function Rank(keys: seq<string>, key: string, i: nat): nat
    requires i <= |keys|
  {
    if i == 0 then 0 else Rank(keys, key, i - 1) + if keys[i - 1] == key then 1 else 0
  }

  /** One-to-one consumption, in closed form: the r-th contract item of a key gets the r-th report of
      that key, if there is one. */
  function Matched<T>(keys: seq<string>, pool: seq<(string, T)>, i: nat): Option<T>
    requires i < |keys|
  {
    var rank := Rank(keys, keys[i], i);
    var reports := OfKey(pool, keys[i]);
    if rank < |reports| then Some(reports[rank]) else None
  }

  /** What is left of the pool once the first i items took theirs. */
  ghost predicate Consumed<T>(keys: seq<string>, pool: seq<(string, T)>, i: nat, left: seq<(string, T)>)
    requires i <= |keys|
  {
    forall key :: OfKey(left, key) == LeftOf(OfKey(pool, key), Rank(keys, key, i))
  }

  function LeftOf<T>(values: seq<T>, rank: nat): seq<T> {
    if rank <= |values| then values[rank..] else []
  }

  /** The key loses what the item took, if it is the item's key. */
  lemma ConsumeKey<T>(keys: seq<string>, pool: seq<(string, T)>, i: nat, left: seq<(string, T)>, key: string)
    requires i < |keys| && OfKey(left, key) == LeftOf(OfKey(pool, key), Rank(keys, key, i))
    ensures OfKey(TakeFirst(left, keys[i]).1, key) == LeftOf(OfKey(pool, key), Rank(keys, key, i + 1))
    ensures key == keys[i] ==> TakeFirst(left, keys[i]).0 == Matched(keys, pool, i)
  {
    TakeFirstTakesOne(left, keys[i], key);
  }

  /** Taking the first left gives item i its match. */
  lemma ConsumeStep<T>(keys: seq<string>, pool: seq<(string, T)>, i: nat, left: seq<(string, T)>)
    requires i < |keys| && Consumed(keys, pool, i, left)
    ensures TakeFirst(left, keys[i]).0 == Matched(keys, pool, i)
    ensures Consumed(keys, pool, i + 1, TakeFirst(left, keys[i]).1)
  {
    ConsumeKey(keys, pool, i, left, keys[i]);
    forall key ensures OfKey(TakeFirst(left, keys[i]).1, key) == LeftOf(OfKey(pool, key), Rank(keys, key, i + 1)) {
      ConsumeKey(keys, pool, i, left, key);
    }
  }

  /** Every item is covered iff no key stands oftener in the contract than in the report. */
  lemma CoveredIffEnoughReports<T>(keys: seq<string>, pool: seq<(string, T)>)
    ensures (forall i :: 0 <= i < |keys| ==> Matched(keys, pool, i).Some?)
            <==> forall key :: Rank(keys, key, |keys|) <= |OfKey(pool, key)|
  {
    if forall i :: 0 <= i < |keys| ==> Matched(keys, pool, i).Some? {
      forall key ensures Rank(keys, key, |keys|) <= |OfKey(pool, key)| {
        if Rank(keys, key, |keys|) > 0 {
          var i := LastOfKey(keys, key, |keys|);
          assert Matched(keys, pool, i).Some?;
        }
      }
    } else {
      var i :| 0 <= i < |keys| && Matched(keys, pool, i).None?;
      RankGrows(keys, keys[i], i + 1, |keys|);
    }
  }

  lemma {:induction false} LastOfKey(keys: seq<string>, key: string, n: nat) returns (i: nat)
    requires n <= |keys| && Rank(keys, key, n) > 0
    ensures i < n && keys[i] == key && Rank(keys, key, i) == Rank(keys, key, n) - 1
  {
    if keys[n - 1] == key { i := n - 1; } else { i := LastOfKey(keys, key, n - 1); }
  }

  lemma {:induction false} RankGrows(keys: seq<string>, key: string, i: nat, j: nat)
    requires i <= j <= |keys|
    ensures Rank(keys, key, i) <= Rank(keys, key, j)
    decreases j
  {
    if i < j { RankGrows(keys, key, i, j - 1); }
  }

  /** No two items of one key are given the same report. */
  lemma MatchesAreDistinct(keys: seq<string>, i: nat, j: nat)
    requires i < j < |keys| && keys[i] == keys[j]
    ensures Rank(keys, keys[i], i) < Rank(keys, keys[j], j)
  {
    RankGrows(keys, keys[i], i + 1, j);
  }

  // ------------------------------------------------------------ recomputation

  /** Held: the gate has its own answer. Cannot: the contract or the run gives none, which counts as
      failed. NoSignal: the check did not finish or did not run. */
  datatype Recomputed = Held(b: bool) | Cannot | NoSignal

  predicate OccurrencePasses(n: int, expected: int, atLeast: bool) {
    if atLeast then n >= expected else n == expected
  }

  function Recompute(c: Criterion, run: Runners): Recomputed {
    if c.scopeDefect then Cannot
    else
      match c.how
      case Grep =>
        if c.pattern == "" || c.expected.None? then Cannot
        else
          (match run.grep(c.pattern, c.scope)
           case Occurrences(n) => Held(OccurrencePasses(n, c.expected.value, c.atLeast))
           case GrepFailed => Cannot
           case GrepTimedOut => NoSignal)
      case Test =>
        if c.selector == "" then Cannot
        else
          (match run.pytest(c.selector)
           case Some(passed) => Held(passed)
           case None => NoSignal)
      case GitDiff =>
        if c.pattern == "" || c.expected.None? || run.gitDiff.None? then Cannot
        else
          (match run.gitDiff.value(c.pattern, c.scope)
           case Some(hits) => Held(OccurrencePasses(hits, c.expected.value, c.atLeast))
           case None => Cannot)
      case LedgerEvent =>
        if !c.ledgerBound || run.ledger.None? then Cannot
        else
          (match run.ledger.value(c)
           case Some(passed) => Held(passed)
           case None => Cannot)
      case Unrecomputable => Cannot
  }

  // ------------------------------------------------------------ verdicts

  datatype Kind = OfCriterion | OfRipple | OfResidual

  datatype Status = Passed | Failed | NotRecomputable

  datatype Verdict = Verdict(kind: Kind, status: Status)

  datatype Outcome = Outcome(strong: bool, downgrade: bool, verdicts: seq<Verdict>)

  function CriterionStatus(c: Criterion, reported: Option<bool>, run: Runners): Status {
    if reported.None? then Failed
    else if c.how.Unrecomputable? then NotRecomputable
    else
      match Recompute(c, run)
      case NoSignal => NotRecomputable
      case Cannot => Failed
      case Held(b) => if b != reported.value || !b then Failed else Passed
  }

  predicate HasText(s: string) {
    exists i | 0 <= i < |s| :: !IsBlank(s[i])
  }

  function RippleStatus(reported: Option<RippleReport>): Status {
    match reported
    case None => Failed
    case Some(Pending) => Failed
    case Some(NotApplicable(evidence)) => if HasText(evidence) then Passed else Failed
    case Some(Synced) => Passed
  }

  function ResidualStatus(r: Residual, reported: bool, run: Runners): Status {
    if !reported then Failed
    else if !r.recomputable then NotRecomputable
    else if r.scopeDefect then Failed
    else
      match run.grep(r.pattern, r.scope)
      case GrepTimedOut => NotRecomputable
      case GrepFailed => Failed
      case Occurrences(n) => if n > 0 then Failed else Passed
  }

  function Conditions(criteria: seq<Criterion>): seq<string> {
    seq(|criteria|, i requires 0 <= i < |criteria| => criteria[i].condition)
  }

  function Patterns(residuals: seq<Residual>): seq<string> {
    seq(|residuals|, i requires 0 <= i < |residuals| => residuals[i].pattern)
  }

  function Keyed(patterns: seq<string>): seq<(string, ())> {
    seq(|patterns|, i requires 0 <= i < |patterns| => (patterns[i], ()))
  }

  function CriterionVerdict(contract: Contract, report: Report, run: Runners, i: nat): Verdict
    requires i < |contract.criteria|
  {
    Verdict(OfCriterion, CriterionStatus(contract.criteria[i], Matched(Conditions(contract.criteria), report.criteria, i), run))
  }

  function RippleVerdict(contract: Contract, report: Report, i: nat): Verdict
    requires i < |contract.ripples|
  {
    Verdict(OfRipple, RippleStatus(Matched(contract.ripples, report.ripples, i)))
  }

  function ResidualVerdict(contract: Contract, report: Report, run: Runners, i: nat): Verdict
    requires i < |contract.residuals|
  {
    var matched := Matched(Patterns(contract.residuals), Keyed(report.residuals), i);
    Verdict(OfResidual, ResidualStatus(contract.residuals[i], matched.Some?, run))
  }

  function CriterionVerdicts(contract: Contract, report: Report, run: Runners): seq<Verdict> {
    seq(|contract.criteria|, i requires 0 <= i < |contract.criteria| => CriterionVerdict(contract, report, run, i))
  }

  function RippleVerdicts(contract: Contract, report: Report): seq<Verdict> {
    seq(|contract.ripples|, i requires 0 <= i < |contract.ripples| => RippleVerdict(contract, report, i))
  }

  function ResidualVerdicts(contract: Contract, report: Report, run: Runners): seq<Verdict> {
    seq(|contract.residuals|, i requires 0 <= i < |contract.residuals| => ResidualVerdict(contract, report, run, i))
  }

  function Verdicts(contract: Contract, report: Report, run: Runners): seq<Verdict> {
    CriterionVerdicts(contract, report, run) + RippleVerdicts(contract, report) + ResidualVerdicts(contract, report, run)
  }

  predicate Any(verdicts: seq<Verdict>, status: Status) {
    exists i | 0 <= i < |verdicts| :: verdicts[i].status == status
  }

  function OutcomeOf(verdicts: seq<Verdict>): Outcome {
    var failed, unrecomputed := Any(verdicts, Failed), Any(verdicts, NotRecomputable);
    Outcome(!failed && !unrecomputed, !failed && unrecomputed, verdicts)
  }

  method VerifyClosureAgainstContract(contract: Contract, report: Report, run: Runners) returns (outcome: Outcome)
    ensures outcome == OutcomeOf(Verdicts(contract, report, run))
    ensures outcome.strong <==> AllMet(contract, report, run)
  {
    StrongGateIsExact(contract, report, run);
    var criteria := CheckCriteria(contract, report, run);
    var ripples := CheckRipples(contract, report);
    var residuals := CheckResiduals(contract, report, run);
    outcome := Summarize(criteria + ripples + residuals);
  }

  method Summarize(verdicts: seq<Verdict>) returns (outcome: Outcome)
    ensures outcome == OutcomeOf(verdicts)
  {
    var anyFailed, anyUnrecomputed := false, false;
    for i := 0 to |verdicts|
      invariant anyFailed <==> exists k | 0 <= k < i :: verdicts[k].status == Failed
      invariant anyUnrecomputed <==> exists k | 0 <= k < i :: verdicts[k].status == NotRecomputable
    {
      if verdicts[i].status == Failed { anyFailed := true; }
      if verdicts[i].status == NotRecomputable { anyUnrecomputed := true; }
    }
    outcome := Outcome(!anyFailed && !anyUnrecomputed, !anyFailed && anyUnrecomputed, verdicts);
  }

  method CheckCriteria(contract: Contract, report: Report, run: Runners) returns (verdicts: seq<Verdict>)
    ensures verdicts == CriterionVerdicts(contract, report, run)
  {
    verdicts := [];
    var pool := report.criteria;
    ghost var keys := Conditions(contract.criteria);
    for i := 0 to |contract.criteria|
      invariant Consumed(keys, report.criteria, i, pool)
      invariant |verdicts| == i && forall k: nat :: k < i ==> verdicts[k] == CriterionVerdict(contract, report, run, k)
    {
      var c := contract.criteria[i];
      ConsumeStep(keys, report.criteria, i, pool);
      var taken := TakeFirst(pool, c.condition);
      pool := taken.1;
      verdicts := verdicts + [Verdict(OfCriterion, CriterionStatus(c, taken.0, run))];
    }
  }

  method CheckRipples(contract: Contract, report: Report) returns (verdicts: seq<Verdict>)
    ensures verdicts == RippleVerdicts(contract, report)
  {
    verdicts := [];
    var pool := report.ripples;
    for i := 0 to |contract.ripples|
      invariant Consumed(contract.ripples, report.ripples, i, pool)
      invariant |verdicts| == i && forall k: nat :: k < i ==> verdicts[k] == RippleVerdict(contract, report, k)
    {
      ConsumeStep(contract.ripples, report.ripples, i, pool);
      var taken := TakeFirst(pool, contract.ripples[i]);
      pool := taken.1;
      verdicts := verdicts + [Verdict(OfRipple, RippleStatus(taken.0))];
    }
  }

  method CheckResiduals(contract: Contract, report: Report, run: Runners) returns (verdicts: seq<Verdict>)
    ensures verdicts == ResidualVerdicts(contract, report, run)
  {
    verdicts := [];
    var pool := Keyed(report.residuals);
    ghost var keys := Patterns(contract.residuals);
    for i := 0 to |contract.residuals|
      invariant Consumed(keys, Keyed(report.residuals), i, pool)
      invariant |verdicts| == i && forall k: nat :: k < i ==> verdicts[k] == ResidualVerdict(contract, report, run, k)
    {
      var r := contract.residuals[i];
      ConsumeStep(keys, Keyed(report.residuals), i, pool);
      var taken := TakeFirst(pool, r.pattern);
      pool := taken.1;
      verdicts := verdicts + [Verdict(OfResidual, ResidualStatus(r, taken.0.Some?, run))];
    }
  }

  // ------------------------------------------------------------ the strong gate is exact

  /** The count is the expected one, or not below it where that is enough. */
  ghost predicate Reaches(c: Criterion, n: int) {
    c.expected.Some? && if c.atLeast then c.expected.value <= n else n == c.expected.value
  }

  /** The runners say that the criterion holds. */
  ghost predicate FoundTrue(c: Criterion, run: Runners) {
    && !c.scopeDefect
    && (|| (c.how == Grep && c.pattern != "" && exists n: nat :: run.grep(c.pattern, c.scope) == Occurrences(n) && Reaches(c, n))
        || (c.how == Test && c.selector != "" && run.pytest(c.selector) == Some(true))
        || (c.how == GitDiff && c.pattern != "" && run.gitDiff.Some?
            && exists n: nat :: run.gitDiff.value(c.pattern, c.scope) == Some(n) && Reaches(c, n))
        || (c.how == LedgerEvent && c.ledgerBound && run.ledger.Some? && run.ledger.value(c) == Some(true)))
  }

  /** The search ran out of time, or the test did not run. */
  ghost predicate Unheard(c: Criterion, run: Runners) {
    && !c.scopeDefect
    && (|| (c.how == Grep && c.pattern != "" && c.expected.Some? && run.grep(c.pattern, c.scope) == GrepTimedOut)
        || (c.how == Test && c.selector != "" && run.pytest(c.selector) == None))
  }

  lemma RecomputeMeans(c: Criterion, run: Runners)
    ensures Recompute(c, run) == Held(true) <==> FoundTrue(c, run)
    ensures Recompute(c, run) == NoSignal <==> Unheard(c, run)
  {
  }

  ghost predicate CriterionMet(contract: Contract, report: Report, run: Runners, i: nat)
    requires i < |contract.criteria|
  {
    Matched(Conditions(contract.criteria), report.criteria, i) == Some(true) && FoundTrue(contract.criteria[i], run)
  }

  ghost predicate RippleMet(contract: Contract, report: Report, i: nat)
    requires i < |contract.ripples|
  {
    var reported := Matched(contract.ripples, report.ripples, i);
    reported.Some? && (reported.value.Synced? || (reported.value.NotApplicable? && SaysSomething(reported.value.evidence)))
  }

  ghost predicate SaysSomething(evidence: string) {
    exists k :: 0 <= k < |evidence| && evidence[k] !in BLANKS
  }

  lemma HasTextMeans(evidence: string)
    ensures HasText(evidence) <==> SaysSomething(evidence)
  {
    forall k | 0 <= k < |evidence| ensures IsBlank(evidence[k]) <==> evidence[k] in BLANKS { BlankMeans(evidence[k]); }
  }

  /** The report names the pattern oftener than the contract does before this item. */
  ghost predicate ResidualNamed(contract: Contract, report: Report, i: nat)
    requires i < |contract.residuals|
  {
    var pattern := contract.residuals[i].pattern;
    multiset(report.residuals)[pattern] > |set j | 0 <= j < i && contract.residuals[j].pattern == pattern|
  }

  lemma {:induction false} KeyedCounts(patterns: seq<string>, key: string)
    ensures |OfKey(Keyed(patterns), key)| == multiset(patterns)[key]
  {
    if patterns != [] {
      KeyedCounts(patterns[1..], key);
      assert Keyed(patterns)[1..] == Keyed(patterns[1..]);
      assert patterns == [patterns[0]] + patterns[1..];
    }
  }

  lemma {:induction false} RankCounts(residuals: seq<Residual>, key: string, i: nat)
    requires i <= |residuals|
    ensures Rank(Patterns(residuals), key, i) == |set j | 0 <= j < i && residuals[j].pattern == key|
  {
    var earlier := set j | 0 <= j < i && residuals[j].pattern == key;
    if i > 0 {
      RankCounts(residuals, key, i - 1);
      var before := set j | 0 <= j < i - 1 && residuals[j].pattern == key;
      assert earlier == if residuals[i - 1].pattern == key then before + {i - 1} else before;
    } else {
      assert earlier == {};
    }
  }

  lemma NamedMeans(contract: Contract, report: Report, i: nat)
    requires i < |contract.residuals|
    ensures Matched(Patterns(contract.residuals), Keyed(report.residuals), i).Some? <==> ResidualNamed(contract, report, i)
  {
    KeyedCounts(report.residuals, contract.residuals[i].pattern);
    RankCounts(contract.residuals, contract.residuals[i].pattern, i);
  }

  ghost predicate ResidualGone(contract: Contract, report: Report, run: Runners, i: nat)
    requires i < |contract.residuals|
  {
    var r := contract.residuals[i];
    ResidualNamed(contract, report, i) && r.recomputable && !r.scopeDefect && run.grep(r.pattern, r.scope) == Occurrences(0)
  }

  ghost predicate AllMet(contract: Contract, report: Report, run: Runners) {
    && (forall i: nat :: i < |contract.criteria| ==> CriterionMet(contract, report, run, i))
    && (forall i: nat :: i < |contract.ripples| ==> RippleMet(contract, report, i))
    && (forall i: nat :: i < |contract.residuals| ==> ResidualGone(contract, report, run, i))
  }

  /** The strong gate passes iff every contract item is answered by a report of its own, the runners find
      every criterion true as it is reported, every ripple is synced or argued away, and every forbidden
      residual greps to zero. */
  lemma StrongGateIsExact(contract: Contract, report: Report, run: Runners)
    ensures OutcomeOf(Verdicts(contract, report, run)).strong <==> AllMet(contract, report, run)
  {
    var criteria, ripples := CriterionVerdicts(contract, report, run), RippleVerdicts(contract, report);
    var residuals := ResidualVerdicts(contract, report, run);
    StrongIffAllPassed(criteria + ripples + residuals);
    AllPassedConcat(criteria + ripples, residuals);
    AllPassedConcat(criteria, ripples);
    CriteriaPassed(contract, report, run);
    RipplesPassed(contract, report);
    ResidualsPassed(contract, report, run);
  }

  ghost predicate AllPassed(verdicts: seq<Verdict>) {
    forall k :: 0 <= k < |verdicts| ==> verdicts[k].status == Passed
  }

  lemma AllPassedConcat(a: seq<Verdict>, b: seq<Verdict>)
    ensures AllPassed(a + b) <==> AllPassed(a) && AllPassed(b)
  {
    assert forall k :: 0 <= k < |a| ==> (a + b)[k] == a[k];
    assert forall k :: 0 <= k < |b| ==> (a + b)[|a| + k] == b[k];
  }

  lemma CriteriaPassed(contract: Contract, report: Report, run: Runners)
    ensures AllPassed(CriterionVerdicts(contract, report, run))
            <==> forall i: nat :: i < |contract.criteria| ==> CriterionMet(contract, report, run, i)
  {
    var verdicts := CriterionVerdicts(contract, report, run);
    forall i: nat | i < |contract.criteria| ensures verdicts[i].status == Passed <==> CriterionMet(contract, report, run, i) {
      RecomputeMeans(contract.criteria[i], run);
    }
  }

  lemma RipplesPassed(contract: Contract, report: Report)
    ensures AllPassed(RippleVerdicts(contract, report))
            <==> forall i: nat :: i < |contract.ripples| ==> RippleMet(contract, report, i)
  {
    var verdicts := RippleVerdicts(contract, report);
    forall i: nat | i < |contract.ripples| ensures verdicts[i].status == Passed <==> RippleMet(contract, report, i) {
      RippleStatusMeaning(contract, report, i);
    }
  }

  lemma ResidualsPassed(contract: Contract, report: Report, run: Runners)
    ensures AllPassed(ResidualVerdicts(contract, report, run))
            <==> forall i: nat :: i < |contract.residuals| ==> ResidualGone(contract, report, run, i)
  {
    var verdicts := ResidualVerdicts(contract, report, run);
    forall i: nat | i < |contract.residuals| ensures verdicts[i].status == Passed <==> ResidualGone(contract, report, run, i) {
      NamedMeans(contract, report, i);
    }
  }

  lemma StrongIffAllPassed(verdicts: seq<Verdict>)
    ensures OutcomeOf(verdicts).strong <==> AllPassed(verdicts)
  {
    if !AllPassed(verdicts) {
      var k :| 0 <= k < |verdicts| && verdicts[k].status != Passed;
      assert verdicts[k].status == Failed || verdicts[k].status == NotRecomputable;
    }
  }

  // ------------------------------------------------------------ closure states and routing

  datatype ClosureState = Closed | FixInsufficient | RippleIncomplete | NewUnrelatedFindingLogged

  datatype Resolution = ConfirmedAndFixed | ConfirmedAndAccepted | Retracted | EscalatedAway | UnresolvedRisk

  datatype Routing = Routing(
    state: ClosureState, terminal: bool, reopen: bool, resolution: Option<Resolution>,
    backlogNewFinding: bool, boundedToRipple: bool)

  predicate CriterionFailed(verdicts: seq<Verdict>) {
    exists i | 0 <= i < |verdicts| :: verdicts[i] == Verdict(OfCriterion, Failed)
  }

  predicate ElsewhereFailed(verdicts: seq<Verdict>) {
    exists i | 0 <= i < |verdicts| :: verdicts[i].kind != OfCriterion && verdicts[i].status == Failed
  }

  function DeriveClosureState(outcome: Outcome, unrelated: bool): ClosureState {
    if CriterionFailed(outcome.verdicts) then FixInsufficient
    else if outcome.downgrade then FixInsufficient
    else if ElsewhereFailed(outcome.verdicts) then RippleIncomplete
    else if unrelated then NewUnrelatedFindingLogged
    else Closed
  }

  function RouteClosureState(state: ClosureState): Routing {
    if state.Closed? || state.NewUnrelatedFindingLogged? then
      Routing(state, true, false, Some(ConfirmedAndFixed), state.NewUnrelatedFindingLogged?, false)
    else
      Routing(state, false, true, None, false, state.RippleIncomplete?)
  }

  /** assert_resolution_legal does not raise. */
  predicate ResolutionLegal(routing: Routing, resolution: Resolution) {
    !routing.reopen && routing.resolution == Some(resolution)
  }

  function RouteOf(contract: Contract, report: Report, run: Runners, unrelated: bool): Routing {
    RouteClosureState(DeriveClosureState(OutcomeOf(Verdicts(contract, report, run)), unrelated))
  }

  /** A finding is routed to its end iff the strong gate passed, and then confirmed_and_fixed is the one
      resolution it may get; otherwise it may get none. */
  lemma TerminalIffStrong(verdicts: seq<Verdict>, unrelated: bool)
    ensures var outcome := OutcomeOf(verdicts);
            var routing := RouteClosureState(DeriveClosureState(outcome, unrelated));
            && (routing.terminal <==> outcome.strong) && routing.reopen == !routing.terminal
            && forall resolution :: ResolutionLegal(routing, resolution) <==> outcome.strong && resolution == ConfirmedAndFixed
  {
    FailedSomewhere(verdicts);
  }

  lemma FailedSomewhere(verdicts: seq<Verdict>)
    ensures Any(verdicts, Failed) <==> CriterionFailed(verdicts) || ElsewhereFailed(verdicts)
  {
    if Any(verdicts, Failed) {
      var i :| 0 <= i < |verdicts| && verdicts[i].status == Failed;
      assert verdicts[i] == Verdict(OfCriterion, Failed) || (verdicts[i].kind != OfCriterion && verdicts[i].status == Failed);
    }
  }

  // What an item of the contract comes to, read off contract, report and runners.

  /** Answered, but the gate has no way, or got no signal, to recompute it. */
  ghost predicate CriterionOpen(contract: Contract, report: Report, run: Runners, i: nat)
    requires i < |contract.criteria|
  {
    && Matched(Conditions(contract.criteria), report.criteria, i).Some?
    && (contract.criteria[i].how == Unrecomputable || Unheard(contract.criteria[i], run))
  }

  ghost predicate ResidualOpen(contract: Contract, report: Report, run: Runners, i: nat)
    requires i < |contract.residuals|
  {
    var r := contract.residuals[i];
    ResidualNamed(contract, report, i) && (!r.recomputable || (!r.scopeDefect && run.grep(r.pattern, r.scope).GrepTimedOut?))
  }

  ghost predicate SomeOpen(contract: Contract, report: Report, run: Runners) {
    || (exists i: nat :: i < |contract.criteria| && CriterionOpen(contract, report, run, i))
    || (exists i: nat :: i < |contract.residuals| && ResidualOpen(contract, report, run, i))
  }

  ghost predicate CriterionBroken(contract: Contract, report: Report, run: Runners, i: nat)
    requires i < |contract.criteria|
  {
    !CriterionMet(contract, report, run, i) && !CriterionOpen(contract, report, run, i)
  }

  ghost predicate SomeCriterionBroken(contract: Contract, report: Report, run: Runners) {
    exists i: nat :: i < |contract.criteria| && CriterionBroken(contract, report, run, i)
  }

  ghost predicate ResidualBroken(contract: Contract, report: Report, run: Runners, i: nat)
    requires i < |contract.residuals|
  {
    !ResidualGone(contract, report, run, i) && !ResidualOpen(contract, report, run, i)
  }

  ghost predicate RippleOrResidualBroken(contract: Contract, report: Report, run: Runners) {
    || (exists i: nat :: i < |contract.ripples| && !RippleMet(contract, report, i))
    || (exists i: nat :: i < |contract.residuals| && ResidualBroken(contract, report, run, i))
  }

  lemma CriterionStatusMeaning(contract: Contract, report: Report, run: Runners, i: nat)
    requires i < |contract.criteria|
    ensures var status := CriterionVerdict(contract, report, run, i).status;
            && (status.NotRecomputable? <==> CriterionOpen(contract, report, run, i))
            && (status.Failed? <==> CriterionBroken(contract, report, run, i))
  {
    RecomputeMeans(contract.criteria[i], run);
  }

  lemma ResidualStatusMeaning(contract: Contract, report: Report, run: Runners, i: nat)
    requires i < |contract.residuals|
    ensures var status := ResidualVerdict(contract, report, run, i).status;
            && (status.NotRecomputable? <==> ResidualOpen(contract, report, run, i))
            && (status.Failed? <==> ResidualBroken(contract, report, run, i))
  {
    NamedMeans(contract, report, i);
  }

  /** Where the verdicts on an item stand among all. */
  lemma VerdictPlaces(contract: Contract, report: Report, run: Runners)
    ensures var all, c, p := Verdicts(contract, report, run), |contract.criteria|, |contract.ripples|;
            && |all| == c + p + |contract.residuals|
            && (forall i: nat :: i < c ==> all[i] == CriterionVerdict(contract, report, run, i))
            && (forall i: nat :: i < p ==> all[c + i] == RippleVerdict(contract, report, i))
            && (forall i: nat :: i < |contract.residuals| ==> all[c + p + i] == ResidualVerdict(contract, report, run, i))
  {
  }

  lemma CriterionFailedMeans(contract: Contract, report: Report, run: Runners)
    ensures CriterionFailed(Verdicts(contract, report, run)) <==> SomeCriterionBroken(contract, report, run)
  {
    var all := Verdicts(contract, report, run);
    VerdictPlaces(contract, report, run);
    forall i: nat | i < |contract.criteria| { CriterionStatusMeaning(contract, report, run, i); }
    if i: nat :| i < |contract.criteria| && CriterionBroken(contract, report, run, i) {
      assert all[i] == Verdict(OfCriterion, Failed);
    }
    if k :| 0 <= k < |all| && all[k] == Verdict(OfCriterion, Failed) { VerdictKinds(contract, report, run, k); }
  }

  lemma VerdictKinds(contract: Contract, report: Report, run: Runners, k: nat)
    requires k < |Verdicts(contract, report, run)|
    ensures var all, c, p := Verdicts(contract, report, run), |contract.criteria|, |contract.ripples|;
            if k < c then all[k] == CriterionVerdict(contract, report, run, k)
            else if k < c + p then all[k] == RippleVerdict(contract, report, k - c)
            else k - c - p < |contract.residuals| && all[k] == ResidualVerdict(contract, report, run, k - c - p)
  {
    VerdictPlaces(contract, report, run);
  }

  lemma RippleStatusMeaning(contract: Contract, report: Report, i: nat)
    requires i < |contract.ripples|
    ensures RippleVerdict(contract, report, i).status == if RippleMet(contract, report, i) then Passed else Failed
  {
    var reported := Matched(contract.ripples, report.ripples, i);
    if reported.Some? && reported.value.NotApplicable? { HasTextMeans(reported.value.evidence); }
  }

  lemma ElsewhereFailedMeans(contract: Contract, report: Report, run: Runners)
    ensures ElsewhereFailed(Verdicts(contract, report, run)) <==> RippleOrResidualBroken(contract, report, run)
  {
    var all := Verdicts(contract, report, run);
    if RippleOrResidualBroken(contract, report, run) { BrokenFails(contract, report, run); }
    if k :| 0 <= k < |all| && all[k].kind != OfCriterion && all[k].status == Failed {
      FailsBroken(contract, report, run, k);
    }
  }

  lemma BrokenFails(contract: Contract, report: Report, run: Runners)
    requires RippleOrResidualBroken(contract, report, run)
    ensures ElsewhereFailed(Verdicts(contract, report, run))
  {
    var all, c, p := Verdicts(contract, report, run), |contract.criteria|, |contract.ripples|;
    VerdictPlaces(contract, report, run);
    if i: nat :| i < p && !RippleMet(contract, report, i) {
      RippleStatusMeaning(contract, report, i);
      assert all[c + i].kind == OfRipple && all[c + i].status == Failed;
    } else {
      var i: nat :| i < |contract.residuals| && ResidualBroken(contract, report, run, i);
      ResidualStatusMeaning(contract, report, run, i);
      assert all[c + p + i].kind == OfResidual && all[c + p + i].status == Failed;
    }
  }

  lemma FailsBroken(contract: Contract, report: Report, run: Runners, k: nat)
    requires var all := Verdicts(contract, report, run); k < |all| && all[k].kind != OfCriterion && all[k].status == Failed
    ensures RippleOrResidualBroken(contract, report, run)
  {
    var c, p := |contract.criteria|, |contract.ripples|;
    VerdictKinds(contract, report, run, k);
    if k < c + p {
      RippleStatusMeaning(contract, report, k - c);
      assert !RippleMet(contract, report, k - c);
    } else {
      ResidualStatusMeaning(contract, report, run, k - c - p);
      assert ResidualBroken(contract, report, run, k - c - p);
    }
  }

  lemma OpenMeans(contract: Contract, report: Report, run: Runners)
    ensures Any(Verdicts(contract, report, run), NotRecomputable) <==> SomeOpen(contract, report, run)
  {
    var all := Verdicts(contract, report, run);
    if SomeOpen(contract, report, run) { OpenIsSeen(contract, report, run); }
    if k :| 0 <= k < |all| && all[k].status == NotRecomputable { SeenIsOpen(contract, report, run, k); }
  }

  lemma OpenIsSeen(contract: Contract, report: Report, run: Runners)
    requires SomeOpen(contract, report, run)
    ensures Any(Verdicts(contract, report, run), NotRecomputable)
  {
    var all, c, p := Verdicts(contract, report, run), |contract.criteria|, |contract.ripples|;
    VerdictPlaces(contract, report, run);
    if i: nat :| i < c && CriterionOpen(contract, report, run, i) {
      CriterionStatusMeaning(contract, report, run, i);
      assert all[i].status == NotRecomputable;
    } else {
      var i: nat :| i < |contract.residuals| && ResidualOpen(contract, report, run, i);
      ResidualStatusMeaning(contract, report, run, i);
      assert all[c + p + i].status == NotRecomputable;
    }
  }

  lemma SeenIsOpen(contract: Contract, report: Report, run: Runners, k: nat)
    requires k < |Verdicts(contract, report, run)| && Verdicts(contract, report, run)[k].status == NotRecomputable
    ensures SomeOpen(contract, report, run)
  {
    var c, p := |contract.criteria|, |contract.ripples|;
    VerdictKinds(contract, report, run, k);
    if k < c {
      CriterionStatusMeaning(contract, report, run, k);
    } else if k >= c + p {
      ResidualStatusMeaning(contract, report, run, k - c - p);
    }
  }

  /** Which state a result is routed to, read off contract, report and runners: a broken criterion decides
      first, then a broken ripple or residual, then an item left open. */
  lemma DerivedStateMeaning(contract: Contract, report: Report, run: Runners, unrelated: bool)
    ensures var state := RouteOf(contract, report, run, unrelated).state;
            var criterion, other := SomeCriterionBroken(contract, report, run), RippleOrResidualBroken(contract, report, run);
            var open := SomeOpen(contract, report, run);
            && (state.FixInsufficient? <==> criterion || (!other && open))
            && (state.RippleIncomplete? <==> !criterion && other)
            && (state.NewUnrelatedFindingLogged? <==> !criterion && !other && !open && unrelated)
            && (state.Closed? <==> !criterion && !other && !open && !unrelated)
    ensures var routing := RouteOf(contract, report, run, unrelated);
            && routing.boundedToRipple == routing.state.RippleIncomplete?
            && routing.backlogNewFinding == routing.state.NewUnrelatedFindingLogged?
            && (routing.terminal <==> AllMet(contract, report, run))
  {
    StrongGateIsExact(contract, report, run);
    TerminalIffStrong(Verdicts(contract, report, run), unrelated);
    FailedSomewhere(Verdicts(contract, report, run));
    CriterionFailedMeans(contract, report, run);
    ElsewhereFailedMeans(contract, report, run);
    OpenMeans(contract, report, run);
  }

  /** derive_closure_state documents that a result with an item the gate cannot recompute falls back to
      fix_insufficient. The code does so iff a criterion is broken as well, or no ripple or residual is. */
  lemma UnrecomputedFallsBackIff(contract: Contract, report: Report, run: Runners, unrelated: bool)
    requires SomeOpen(contract, report, run)
    ensures RouteOf(contract, report, run, unrelated).state.FixInsufficient?
            <==> SomeCriterionBroken(contract, report, run) || !RippleOrResidualBroken(contract, report, run)
  {
    DerivedStateMeaning(contract, report, run, unrelated);
  }

  /** A contract where it does not: a manual criterion beside a ripple left pending is sent back as
      ripple_incomplete, with the next round bounded to the ripples. */
  lemma ManualCriterionSlipsThrough(condition: string, artifact: string, run: Runners, unrelated: bool)
    ensures var criterion := Criterion(condition, Unrecomputable, "", None, false, "", false, "", false);
            var contract := Contract([criterion], [artifact], []);
            var report := Report([(condition, true)], [(artifact, Pending)], []);
            var routing := RouteOf(contract, report, run, unrelated);
            Any(Verdicts(contract, report, run), NotRecomputable) && routing.state == RippleIncomplete && routing.boundedToRipple
  {
    var criterion := Criterion(condition, Unrecomputable, "", None, false, "", false, "", false);
    var contract := Contract([criterion], [artifact], []);
    var report := Report([(condition, true)], [(artifact, Pending)], []);
    var verdicts := Verdicts(contract, report, run);
    assert report.ripples[1..] == [] && report.criteria[1..] == [];
    assert OfKey(report.ripples[1..], artifact) == [] && OfKey(report.criteria[1..], condition) == [];
    assert OfKey(report.criteria, condition) == [true];
    assert OfKey(report.ripples, artifact) == [Pending];
    assert verdicts == [Verdict(OfCriterion, NotRecomputable), Verdict(OfRipple, Failed)];
    assert verdicts[0].status == NotRecomputable && verdicts[1].status == Failed;
  }
}
