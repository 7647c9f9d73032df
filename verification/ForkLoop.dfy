/** One verification fork: spawn, resume after the first crash, retry from scratch, harvest a verdict
    from a timeout. What each run of the child process does is an arbitrary stream of outcomes. */
module ForkLoop {
  import opened Prelude
  import opened VerdictLocate

  /** One run: its end, and the JSON dicts gathered from what it printed. */
  datatype Outcome =
    | TimedOut(partial: seq<Json>)
    | MemoryRefused
    | SpawnFailed
    | Exited(code: int, output: seq<Json>)

  datatype Config = Config(
    maxRetries: int, retryOnTimeout: bool, hasSession: bool,
    resultKey: string, passedKey: string, required: seq<string>)

  /** `supply` numbers the session ids that uuid4 hands out. */
  datatype Launch = Fresh(session: Option<string>) | Resume(target: string)

  datatype Result =
    | Finished(parsed: Parsed, passed: bool, retried: bool, resumed: bool, harvested: bool)
    | TimeoutRaised | MemoryRaised | SpawnRaised | ExitRaised(code: int)

  function Parse(cfg: Config, output: seq<Json>): Parsed {
    LastVerdict(output, cfg.resultKey, cfg.passedKey)
  }

  predicate Valid(cfg: Config, output: seq<Json>) {
    SchemaValid(Parse(cfg, output), cfg.passedKey, cfg.required)
  }

  function Output(o: Outcome): seq<Json> {
    match o
    case TimedOut(partial) => partial
    case Exited(_, output) => output
    case _ => []
  }

  /** The run produced a schema-valid verdict: cleanly, or before it was killed by the timeout. */
  predicate Decisive(cfg: Config, o: Outcome) {
    (o.TimedOut? || (o.Exited? && o.code == 0)) && Valid(cfg, Output(o))
  }

  /** The run died: a timeout with nothing to harvest, a failed spawn, a non-zero exit. */
  predicate Crash(cfg: Config, o: Outcome) {
    (o.TimedOut? && !Valid(cfg, o.partial)) || o.SpawnFailed? || (o.Exited? && o.code != 0)
  }

  // ------------------------------------------------------------ the loop's closed form

  predicate CrashedBefore(cfg: Config, outcomes: nat -> Outcome, i: nat) {
    exists j: nat | j < i :: Crash(cfg, outcomes(j))
  }

  predicate ResumedBy(cfg: Config, outcomes: nat -> Outcome, i: nat) {
    cfg.hasSession && CrashedBefore(cfg, outcomes, i)
  }

  /** From-scratch retries before run i: every earlier run caused one, but for the crash that was resumed. */
  function Attempt(cfg: Config, outcomes: nat -> Outcome, i: nat): (attempt: nat) {
    if ResumedBy(cfg, outcomes, i) then i - 1 else i
  }

  /** Run i is the last one. */
  predicate Stops(cfg: Config, outcomes: nat -> Outcome, i: nat) {
    var exhausted := Attempt(cfg, outcomes, i) >= cfg.maxRetries;
    match outcomes(i)
    case MemoryRefused => true
    case TimedOut(_) =>
      || Decisive(cfg, outcomes(i))
      || ((!cfg.hasSession || ResumedBy(cfg, outcomes, i)) && (exhausted || !cfg.retryOnTimeout))
    case SpawnFailed => (!cfg.hasSession || ResumedBy(cfg, outcomes, i)) && exhausted
    case Exited(code, _) =>
      if code != 0 then (!cfg.hasSession || ResumedBy(cfg, outcomes, i)) && exhausted
      else Decisive(cfg, outcomes(i)) || exhausted
  }

  predicate IsResume(cfg: Config, outcomes: nat -> Outcome, i: nat) {
    i > 0 && cfg.hasSession && Crash(cfg, outcomes(i - 1)) && !CrashedBefore(cfg, outcomes, i - 1)
  }

  /** How run i is started. */
  function LaunchAt(cfg: Config, outcomes: nat -> Outcome, supply: nat -> string, i: nat): Launch {
    var session := supply(Attempt(cfg, outcomes, i));
    if IsResume(cfg, outcomes, i) then Resume(session) else Fresh(if cfg.hasSession then Some(session) else None)
  }

  function ResultOf(cfg: Config, outcomes: nat -> Outcome, n: nat): Result {
    var attempt, resumed := Attempt(cfg, outcomes, n), ResumedBy(cfg, outcomes, n);
    match outcomes(n)
    case MemoryRefused => MemoryRaised
    case SpawnFailed => SpawnRaised
    case TimedOut(partial) =>
      if !Valid(cfg, partial) then TimeoutRaised
      else Finished(Parse(cfg, partial), Parse(cfg, partial).passed, attempt > 0, resumed, true)
    case Exited(code, output) =>
      if code != 0 then ExitRaised(code)
      else
        var parsed := Parse(cfg, output);
        Finished(parsed, Valid(cfg, output) && parsed.passed, attempt > 0, resumed, false)
  }

  ghost predicate Ran(cfg: Config, outcomes: nat -> Outcome, supply: nat -> string, result: Result, launches: seq<Launch>) {
    && |launches| > 0
    && (forall i: nat :: i < |launches| ==> launches[i] == LaunchAt(cfg, outcomes, supply, i))
    && (forall i: nat :: i < |launches| - 1 ==> !Stops(cfg, outcomes, i))
    && Stops(cfg, outcomes, |launches| - 1)
    && result == ResultOf(cfg, outcomes, |launches| - 1)
  }

  method Examine(cfg: Config, o: Outcome) returns (parsed: Parsed, valid: bool, crashed: bool)
    ensures parsed == Parse(cfg, Output(o)) && valid == Decisive(cfg, o) && crashed == Crash(cfg, o)
    ensures valid ==> parsed.Verdict?
  {
    parsed := ParseForkVerdict(Output(o), cfg.resultKey, cfg.passedKey);
    var schemaOk := SchemaValid(parsed, cfg.passedKey, cfg.required);
    match o
    case TimedOut(_) => valid, crashed := schemaOk, !schemaOk;
    case Exited(code, _) => valid, crashed := code == 0 && schemaOk, code != 0;
    case MemoryRefused => valid, crashed := false, false;
    case SpawnFailed => valid, crashed := false, true;
  }

  /** One run later, a crash has been seen iff one had been seen before or this run crashed. */
  lemma StepForward(cfg: Config, outcomes: nat -> Outcome, i: nat)
    ensures CrashedBefore(cfg, outcomes, i + 1) <==> CrashedBefore(cfg, outcomes, i) || Crash(cfg, outcomes(i))
  {
  }

  lemma AfterResume(cfg: Config, outcomes: nat -> Outcome, i: nat)
    requires Crash(cfg, outcomes(i)) && cfg.hasSession && !ResumedBy(cfg, outcomes, i)
    ensures !Stops(cfg, outcomes, i) && IsResume(cfg, outcomes, i + 1)
    ensures ResumedBy(cfg, outcomes, i + 1) && Attempt(cfg, outcomes, i + 1) == Attempt(cfg, outcomes, i)
  {
    StepForward(cfg, outcomes, i);
  }

  /** The run ended neither decisively nor in a crash that can still be resumed. */
  predicate Retries(cfg: Config, outcomes: nat -> Outcome, i: nat) {
    var o := outcomes(i);
    || (Crash(cfg, o) && (!cfg.hasSession || ResumedBy(cfg, outcomes, i)))
    || (o.Exited? && o.code == 0 && !Decisive(cfg, o))
  }

  lemma AfterRetry(cfg: Config, outcomes: nat -> Outcome, i: nat)
    requires Retries(cfg, outcomes, i)
    ensures !IsResume(cfg, outcomes, i + 1)
    ensures ResumedBy(cfg, outcomes, i + 1) == ResumedBy(cfg, outcomes, i)
    ensures Attempt(cfg, outcomes, i + 1) == Attempt(cfg, outcomes, i) + 1
    ensures Attempt(cfg, outcomes, i) < cfg.maxRetries && (outcomes(i).TimedOut? ==> cfg.retryOnTimeout) ==> !Stops(cfg, outcomes, i)
  {
    StepForward(cfg, outcomes, i);
  }

  /** The answer when run i decided nothing and no other follows. */
  function GivenUp(cfg: Config, outcomes: nat -> Outcome, i: nat): Result {
    match outcomes(i)
    case MemoryRefused => MemoryRaised
    case TimedOut(_) => TimeoutRaised
    case SpawnFailed => SpawnRaised
    case Exited(code, output) =>
      if code != 0 then ExitRaised(code)
      else Finished(Parse(cfg, output), false, Attempt(cfg, outcomes, i) > 0, ResumedBy(cfg, outcomes, i), false)
  }

  /** Run i is the last when nothing decides it and neither a resume nor a retry is open. */
  lemma AfterAll(cfg: Config, outcomes: nat -> Outcome, i: nat)
    requires !outcomes(i).MemoryRefused? && !Decisive(cfg, outcomes(i))
    requires Crash(cfg, outcomes(i)) ==> !cfg.hasSession || ResumedBy(cfg, outcomes, i)
    requires (outcomes(i).TimedOut? && !cfg.retryOnTimeout) || Attempt(cfg, outcomes, i) >= cfg.maxRetries
    ensures Stops(cfg, outcomes, i)
    ensures ResultOf(cfg, outcomes, i) == GivenUp(cfg, outcomes, i)
  {
  }

  lemma AfterVerdict(cfg: Config, outcomes: nat -> Outcome, i: nat)
    requires Decisive(cfg, outcomes(i))
    ensures var parsed := Parse(cfg, Output(outcomes(i)));
            && Stops(cfg, outcomes, i)
            && ResultOf(cfg, outcomes, i) == Finished(parsed, parsed.passed, Attempt(cfg, outcomes, i) > 0,
                                                      ResumedBy(cfg, outcomes, i), outcomes(i).TimedOut?)
  {
  }

  /** These were launched, and none of them was the last. */
  ghost predicate Underway(cfg: Config, outcomes: nat -> Outcome, supply: nat -> string, launches: seq<Launch>) {
    && (forall i: nat :: i < |launches| ==> launches[i] == LaunchAt(cfg, outcomes, supply, i))
    && (forall i: nat :: i < |launches| ==> !Stops(cfg, outcomes, i))
  }

  lemma LaunchOne(cfg: Config, outcomes: nat -> Outcome, supply: nat -> string, launches: seq<Launch>)
    requires Underway(cfg, outcomes, supply, launches)
    ensures var i := |launches|;
            var longer := launches + [LaunchAt(cfg, outcomes, supply, i)];
            if Stops(cfg, outcomes, i) then Ran(cfg, outcomes, supply, ResultOf(cfg, outcomes, i), longer)
            else Underway(cfg, outcomes, supply, longer)
  {
  }

  method SpawnLoop(cfg: Config, outcomes: nat -> Outcome, supply: nat -> string)
    returns (result: Result, launches: seq<Launch>)
    ensures Ran(cfg, outcomes, supply, result, launches)
  {
    var attempt: nat, resumed, i: nat := 0, false, 0;
    var session := if cfg.hasSession then Some(supply(0)) else None;
    var current := Fresh(session);
    launches := [];
    while true
      invariant i == |launches| && Underway(cfg, outcomes, supply, launches)
      invariant resumed == ResumedBy(cfg, outcomes, i) && attempt == Attempt(cfg, outcomes, i)
      invariant current == LaunchAt(cfg, outcomes, supply, i)
      invariant session == if cfg.hasSession then Some(supply(attempt)) else None
      decreases Max(0, cfg.maxRetries - attempt) + if resumed || session.None? then 0 else 1
    {
      LaunchOne(cfg, outcomes, supply, launches);
      launches := launches + [current];
      var o := outcomes(i);
      if o.MemoryRefused? { return MemoryRaised, launches; }
      var parsed, valid, crashed := Examine(cfg, o);
      if valid {
        AfterVerdict(cfg, outcomes, i);
        return Finished(parsed, parsed.passed, attempt > 0, resumed, o.TimedOut?), launches;
      } else if crashed && session.Some? && !resumed {
        AfterResume(cfg, outcomes, i);
        resumed := true;
        current := Resume(session.value);
      } else if (o.TimedOut? ==> cfg.retryOnTimeout) && attempt < cfg.maxRetries {
        AfterRetry(cfg, outcomes, i);
        attempt := attempt + 1;
        if session.Some? { session := Some(supply(attempt)); }
        current := Fresh(session);
      } else {
        AfterAll(cfg, outcomes, i);
        result := match o
                  case TimedOut(_) => TimeoutRaised
                  case SpawnFailed => SpawnRaised
                  case Exited(code, _) =>
                    if code != 0 then ExitRaised(code) else Finished(parsed, false, attempt > 0, resumed, false);
        return;
      }
      i := i + 1;
    }
  }

  // ------------------------------------------------------------ what every stream of outcomes gets

  /** The verdict lies in the last of the dicts that holds one, and its passed key says what is taken from it. */
  ghost predicate SaidBy(cfg: Config, output: seq<Json>, parsed: Parsed) {
    parsed.Verdict? && exists k :: ChosenFrom(output, k, parsed, cfg.resultKey, cfg.passedKey)
  }

  ghost predicate Complete(cfg: Config, verdict: Json) {
    forall key :: key in cfg.required ==> exists v :: HasEntry(verdict, key, v)
  }

  /** A run decides iff it exited cleanly or was timed out and what it printed holds a verdict with every
      required field, whether that verdict says true or false. */
  lemma DecisiveMeans(cfg: Config, o: Outcome)
    ensures var parsed := Parse(cfg, Output(o));
            && (Decisive(cfg, o) <==> (o.TimedOut? || (o.Exited? && o.code == 0)) && parsed.Verdict? && Complete(cfg, parsed.verdict))
            && (parsed.Verdict? ==> SaidBy(cfg, Output(o), parsed))
            && (parsed.Verdict? ==> forall b :: JudgedAs(parsed.verdict, cfg.passedKey, b) <==> b == parsed.passed)
  {
    var parsed := Parse(cfg, Output(o));
    SchemaIgnoresOutcome(Output(o), cfg.resultKey, cfg.passedKey, cfg.required);
    LastVerdictIsLast(Output(o), cfg.resultKey, cfg.passedKey);
    if parsed.Verdict? {
      JudgementMeans(parsed.verdict, cfg.passedKey, true);
      JudgementMeans(parsed.verdict, cfg.passedKey, false);
    }
  }

  /** The first decisive run is the last run, and its own verdict is the answer: an answer passes iff the
      verdict found in the last run's output has every required field and says true. No later outcome of the
      stream could have changed it. */
  lemma FirstDecisiveRunDecides(cfg: Config, outcomes: nat -> Outcome, supply: nat -> string, result: Result, launches: seq<Launch>)
    requires Ran(cfg, outcomes, supply, result, launches)
    ensures forall i: nat :: i < |launches| && Decisive(cfg, outcomes(i)) ==> i == |launches| - 1
    ensures var last := outcomes(|launches| - 1);
            && (Decisive(cfg, last) ==> result.Finished? && result.parsed.Verdict?)
            && (result.Finished? ==> (last.TimedOut? || (last.Exited? && last.code == 0))
                                     && (result.parsed.Verdict? ==> SaidBy(cfg, Output(last), result.parsed)))
    ensures result.Finished? ==>
              (result.passed <==> && result.parsed.Verdict? && Complete(cfg, result.parsed.verdict)
                                  && JudgedAs(result.parsed.verdict, cfg.passedKey, true))
    ensures result.Finished? && result.parsed.Verdict? ==>
              forall b :: JudgedAs(result.parsed.verdict, cfg.passedKey, b) <==> b == result.parsed.passed
  {
    forall i: nat | i < |launches| && Decisive(cfg, outcomes(i)) ensures i == |launches| - 1 {
      assert Stops(cfg, outcomes, i);
    }
    DecisiveMeans(cfg, outcomes(|launches| - 1));
  }

  lemma LaterOutcomesAreNeverSeen(cfg: Config, outcomes: nat -> Outcome, others: nat -> Outcome, supply: nat -> string,
                                  result: Result, launches: seq<Launch>)
    requires Ran(cfg, outcomes, supply, result, launches)
    requires forall i: nat :: i < |launches| ==> others(i) == outcomes(i)
    ensures Ran(cfg, others, supply, result, launches)
  {
    forall i: nat | i < |launches|
      ensures LaunchAt(cfg, others, supply, i) == LaunchAt(cfg, outcomes, supply, i)
      ensures Stops(cfg, others, i) == Stops(cfg, outcomes, i) && ResultOf(cfg, others, i) == ResultOf(cfg, outcomes, i)
    {
      SameCrashes(cfg, outcomes, others, i);
      if i > 0 { SameCrashes(cfg, outcomes, others, i - 1); }
    }
  }

  lemma SameCrashes(cfg: Config, outcomes: nat -> Outcome, others: nat -> Outcome, i: nat)
    requires forall j: nat :: j < i ==> others(j) == outcomes(j)
    ensures CrashedBefore(cfg, others, i) == CrashedBefore(cfg, outcomes, i)
  {
  }

  function RunBound(cfg: Config): nat {
    Max(0, cfg.maxRetries) + 1 + if cfg.hasSession then 1 else 0
  }

  /** At most max_retries + 2 runs, or max_retries + 1 when there is no session to resume. */
  lemma RunsAreBounded(cfg: Config, outcomes: nat -> Outcome, supply: nat -> string, result: Result, launches: seq<Launch>)
    requires Ran(cfg, outcomes, supply, result, launches)
    ensures |launches| <= RunBound(cfg)
  {
    AttemptBounded(cfg, outcomes, |launches| - 1);
  }

  lemma {:induction false} AttemptBounded(cfg: Config, outcomes: nat -> Outcome, n: nat)
    requires forall i: nat :: i < n ==> !Stops(cfg, outcomes, i)
    ensures Attempt(cfg, outcomes, n) <= Max(0, cfg.maxRetries)
  {
    if n > 0 {
      AttemptBounded(cfg, outcomes, n - 1);
      assert !Stops(cfg, outcomes, n - 1);
      if Retries(cfg, outcomes, n - 1) {
        AfterRetry(cfg, outcomes, n - 1);
      } else {
        AfterResume(cfg, outcomes, n - 1);
      }
    }
  }

  /** The bound is reached when every spawn fails. */
  lemma RunBoundIsReached(cfg: Config, outcomes: nat -> Outcome, supply: nat -> string, result: Result, launches: seq<Launch>)
    requires Ran(cfg, outcomes, supply, result, launches)
    requires forall i: nat :: outcomes(i).SpawnFailed?
    ensures |launches| == RunBound(cfg) && result.SpawnRaised?
  {
    RunsAreBounded(cfg, outcomes, supply, result, launches);
    var n := |launches| - 1;
    if n > 0 { assert Crash(cfg, outcomes(0)); }
  }

  /** At most one run is a resume; it follows a crash and continues the session of the run before it,
      which was the latest fresh spawn. */
  lemma AtMostOneResume(cfg: Config, outcomes: nat -> Outcome, supply: nat -> string, result: Result, launches: seq<Launch>)
    requires Ran(cfg, outcomes, supply, result, launches)
    ensures forall i, j :: 0 <= i < j < |launches| && launches[i].Resume? ==> launches[j].Fresh?
    ensures forall i :: 0 <= i < |launches| && launches[i].Resume? ==>
              0 < i && launches[i - 1] == Fresh(Some(launches[i].target)) && Crash(cfg, outcomes(i - 1))
  {
    forall i | 0 <= i < |launches| && launches[i].Resume?
      ensures 0 < i && launches[i - 1] == Fresh(Some(launches[i].target)) && Crash(cfg, outcomes(i - 1))
    {
      assert IsResume(cfg, outcomes, i);
      StepForward(cfg, outcomes, i - 1);
      assert !IsResume(cfg, outcomes, i - 1) by {
        if i - 1 > 0 { StepForward(cfg, outcomes, i - 2); }
      }
    }
    forall i, j | 0 <= i < j < |launches| && launches[i].Resume? ensures launches[j].Fresh? {
      assert IsResume(cfg, outcomes, i) && Crash(cfg, outcomes(i - 1));
      assert CrashedBefore(cfg, outcomes, j - 1);
    }
  }

  ghost predicate AllDistinct(supply: nat -> string) {
    forall i, j: nat :: supply(i) == supply(j) ==> i == j
  }

  /** Two fresh spawns never register the same session id. */
  lemma FreshIdsAreDistinct(cfg: Config, outcomes: nat -> Outcome, supply: nat -> string, result: Result, launches: seq<Launch>)
    requires Ran(cfg, outcomes, supply, result, launches) && AllDistinct(supply)
    ensures forall i, j :: 0 <= i < j < |launches| && launches[i].Fresh? && launches[j].Fresh? && launches[i].session.Some?
              ==> launches[i].session != launches[j].session
  {
    forall i, j | 0 <= i < j < |launches| && launches[i].Fresh? && launches[j].Fresh? && launches[i].session.Some?
      ensures launches[i].session != launches[j].session
    {
      assert launches[i] == LaunchAt(cfg, outcomes, supply, i) && launches[j] == LaunchAt(cfg, outcomes, supply, j);
      FreshRaisesAttempt(cfg, outcomes, i, j);
    }
  }

  lemma FreshRaisesAttempt(cfg: Config, outcomes: nat -> Outcome, i: nat, j: nat)
    requires i < j && cfg.hasSession && !IsResume(cfg, outcomes, j)
    ensures Attempt(cfg, outcomes, i) < Attempt(cfg, outcomes, j)
  {
    StepForward(cfg, outcomes, j - 1);
    if CrashedBefore(cfg, outcomes, i) {
      var k: nat :| k < i && Crash(cfg, outcomes(k));
      assert k < j;
    }
  }

  /** Unless it is told to, the loop never starts from scratch after a timeout. */
  lemma NoScratchRetryAfterTimeout(cfg: Config, outcomes: nat -> Outcome, supply: nat -> string, result: Result,
                                   launches: seq<Launch>, i: nat)
    requires Ran(cfg, outcomes, supply, result, launches) && !cfg.retryOnTimeout
    requires i + 1 < |launches| && outcomes(i).TimedOut?
    ensures launches[i + 1].Resume?
  {
    assert !Stops(cfg, outcomes, i);
  }

  // ------------------------------------------------------------ the journal

  datatype Record = Record(key: string, passed: bool, parsed: Parsed)

  class ForkJournal {
    var records: seq<Record>

    constructor ()
      ensures records == []
    {
      records := [];
    }

    /** The last record under the key. */
    method Lookup(key: string) returns (hit: Option<Record>)
      ensures hit == LastUnder(records, key)
    {
      hit := None;
      assert records[..|records|] == records;
      for i := 0 to |records|
        invariant hit == LastUnder(records[..i], key)
      {
        assert records[..i + 1][..i] == records[..i];
        if records[i].key == key { hit := Some(records[i]); }
      }
    }

    method Append(record: Record)
      modifies this
      ensures records == old(records) + [record]
    {
      records := records + [record];
    }
  }

  function LastUnder(records: seq<Record>, key: string): Option<Record> {
    if records == [] then None
    else
      var last := records[|records| - 1];
      if last.key == key then Some(last) else LastUnder(records[..|records| - 1], key)
  }

  /** What is written down: an end with a located verdict, valid or not. */
  predicate Journalled(result: Result) {
    result.Finished? && result.parsed.Verdict?
  }

  datatype Answer = Answer(result: Result, spawned: bool)

  function FromJournal(hit: Record): Answer {
    Answer(Finished(hit.parsed, hit.passed, false, false, false), false)
  }

  /** run_verification_fork in real mode, for one cache key. */
  method RunVerificationFork(journal: ForkJournal, key: string, cfg: Config, outcomes: nat -> Outcome, supply: nat -> string)
    returns (answer: Answer, ghost launches: seq<Launch>)
    modifies journal
    ensures var hit := LastUnder(old(journal.records), key);
            hit.Some? ==>
              && answer == Answer(Finished(hit.value.parsed, hit.value.passed, false, false, false), false)
              && launches == [] && journal.records == old(journal.records)
    ensures LastUnder(old(journal.records), key).None? ==>
              answer.spawned && Ran(cfg, outcomes, supply, answer.result, launches)
    ensures answer.spawned && answer.result.Finished? ==>
              (answer.result.passed <==> && answer.result.parsed.Verdict? && Complete(cfg, answer.result.parsed.verdict)
                                         && JudgedAs(answer.result.parsed.verdict, cfg.passedKey, true))
    ensures answer.spawned ==>
              journal.records == old(journal.records)
                + if Journalled(answer.result) then [Record(key, answer.result.passed, answer.result.parsed)] else []
  {
    var hit := journal.Lookup(key);
    if hit.Some? {
      launches := [];
      return FromJournal(hit.value), [];
    }
    var result, started := SpawnLoop(cfg, outcomes, supply);
    launches := started;
    if result.Finished? && result.parsed.Verdict? {
      journal.Append(Record(key, result.passed, result.parsed));
    }
    answer := Answer(result, true);
    FirstDecisiveRunDecides(cfg, outcomes, supply, result, launches);
  }

  /** Once an end is journalled, the key answers the same verdict from the journal, whatever the child
      processes would do now; every other end leaves the key to be run again. */
  method AskTwice(journal: ForkJournal, key: string, cfg: Config, first: nat -> Outcome, second: nat -> Outcome, supply: nat -> string)
    returns (one: Answer, two: Answer)
    requires LastUnder(journal.records, key).None?
    modifies journal
    ensures Journalled(one.result) ==>
              !two.spawned && two.result.Finished? && two.result.passed == one.result.passed && two.result.parsed == one.result.parsed
    ensures !Journalled(one.result) ==> two.spawned
  {
    ghost var launches;
    one, launches := RunVerificationFork(journal, key, cfg, first, supply);
    if Journalled(one.result) {
      LastUnderAppend(old(journal.records), Record(key, one.result.passed, one.result.parsed));
    } else {
      assert journal.records == old(journal.records);
    }
    two, launches := RunVerificationFork(journal, key, cfg, second, supply);
  }

  lemma LastUnderAppend(records: seq<Record>, record: Record)
    ensures LastUnder(records + [record], record.key) == Some(record)
  {
  }

  /** An end with a located verdict that lacks a required field is written down all the same: not passed,
      after the retries ran out. */
  lemma JournalledIsValidIffDecisive(cfg: Config, outcomes: nat -> Outcome, supply: nat -> string, result: Result, launches: seq<Launch>)
    requires Ran(cfg, outcomes, supply, result, launches) && Journalled(result)
    ensures SchemaValid(result.parsed, cfg.passedKey, cfg.required) <==> Decisive(cfg, outcomes(|launches| - 1))
    ensures !SchemaValid(result.parsed, cfg.passedKey, cfg.required) ==>
              !result.passed && Attempt(cfg, outcomes, |launches| - 1) >= cfg.maxRetries
  {
  }

  /** What the journal's comment promises: whatever the child does, only valid verdicts are written down. */
  ghost predicate JournalsOnlyValid(cfg: Config) {
    forall outcomes, supply, result, launches :: Ran(cfg, outcomes, supply, result, launches) && Journalled(result) ==>
      SchemaValid(result.parsed, cfg.passedKey, cfg.required)
  }

  predicate RequiresOnlyPassed(cfg: Config) {
    forall i :: 0 <= i < |cfg.required| ==> cfg.required[i] == cfg.passedKey
  }

  /** The promise is kept iff the caller requires no field beside the passed key. */
  lemma JournalsOnlyValidIff(cfg: Config)
    ensures JournalsOnlyValid(cfg) <==> RequiresOnlyPassed(cfg)
  {
    if RequiresOnlyPassed(cfg) {
      forall outcomes, supply, result, launches | Ran(cfg, outcomes, supply, result, launches) && Journalled(result)
        ensures SchemaValid(result.parsed, cfg.passedKey, cfg.required)
      {
        OnlyPassedIsValid(cfg, outcomes, supply, result, launches);
      }
    } else {
      var result, launches := InvalidVerdictIsJournalled(cfg, _ => Exited(0, [BareVerdict(cfg)]), _ => "");
    }
  }

  lemma OnlyPassedIsValid(cfg: Config, outcomes: nat -> Outcome, supply: nat -> string, result: Result, launches: seq<Launch>)
    requires Ran(cfg, outcomes, supply, result, launches) && Journalled(result) && RequiresOnlyPassed(cfg)
    ensures SchemaValid(result.parsed, cfg.passedKey, cfg.required)
  {
    var output := Output(outcomes(|launches| - 1));
    SchemaIgnoresOutcome(output, cfg.resultKey, cfg.passedKey, cfg.required);
    assert result.parsed == Parse(cfg, output);
    var v :| HasEntry(result.parsed.verdict, cfg.passedKey, v);
  }

  function BareVerdict(cfg: Config): Json {
    Dict([(cfg.passedKey, Bool(true))])
  }

  lemma BareVerdictParses(cfg: Config)
    ensures Parse(cfg, [BareVerdict(cfg)]) == Verdict(BareVerdict(cfg), true)
    ensures Valid(cfg, [BareVerdict(cfg)]) <==> RequiresOnlyPassed(cfg)
  {
    var judged := BareVerdict(cfg);
    assert judged.entries[1..] == [];
    forall key ensures Get(judged, key) == if key == cfg.passedKey then Some(Bool(true)) else None {
      assert Lookup(judged.entries[1..], key).None?;
    }
    assert LocateVerdict(judged, cfg.resultKey, cfg.passedKey, 0) == Some(Found(judged, true));
  }

  /** A child that prints nothing but the passed key uses up the retries, whatever other field is required,
      and its last verdict is written down. */
  lemma InvalidVerdictIsJournalled(cfg: Config, outcomes: nat -> Outcome, supply: nat -> string)
    returns (result: Result, launches: seq<Launch>)
    requires !RequiresOnlyPassed(cfg) && forall i: nat :: outcomes(i) == Exited(0, [BareVerdict(cfg)])
    ensures Ran(cfg, outcomes, supply, result, launches)
    ensures Journalled(result) && !result.passed && !SchemaValid(result.parsed, cfg.passedKey, cfg.required)
  {
    BareVerdictParses(cfg);
    var n: nat := Max(0, cfg.maxRetries);
    assert forall i: nat :: !Crash(cfg, outcomes(i));
    assert forall i: nat :: Attempt(cfg, outcomes, i) == i && (Stops(cfg, outcomes, i) <==> i >= cfg.maxRetries);
    launches := seq(n + 1, i requires 0 <= i < n + 1 => LaunchAt(cfg, outcomes, supply, i));
    result := ResultOf(cfg, outcomes, n);
  }
}
