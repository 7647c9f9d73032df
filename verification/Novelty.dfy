/** The novelty gate over the rounds of one fix: when the rounds stop bringing anything new, escalate. */
module Novelty {
  import opened Prelude

  datatype NoveltyText = Absent | Text(s: string) | Structured(delta: string, strategy: string)

  datatype Round = Round(attemptNo: int, novelty: NoveltyText)

  function Norm(s: string): string {
    Lower(Strip(s))
  }

  function Signature(n: NoveltyText): Option<string> {
    match n
    case Absent => None
    case Text(s) => if Norm(s) == "" then None else Some(Norm(s))
    case Structured(delta, strategy) =>
      if Norm(delta) == "" then None
      else if Norm(strategy) == "" then Some(Norm(delta))
      else Some(Norm(delta) + "||" + Norm(strategy))
  }

  /** The text but for blanks around it and capitals in it. */
  ghost predicate SaysJust(text: string, words: string) {
    NoCapitals(words) && Spells(text, words)
  }

  /** No signature without text, or with nothing but blanks where the text or the delta should be; otherwise
      the text, or the delta with the strategy behind it where there is one, blanks and case aside. */
  ghost predicate SignedBy(n: NoveltyText, sig: Option<string>) {
    match n
    case Absent => sig == None
    case Text(s) => if AllBlank(s) then sig == None else sig.Some? && SaysJust(s, sig.value)
    case Structured(delta, strategy) =>
      if AllBlank(delta) then sig == None
      else if AllBlank(strategy) then sig.Some? && SaysJust(delta, sig.value)
      else sig.Some? && SaysBoth(delta, strategy, sig.value)
  }

  ghost predicate SaysBoth(delta: string, strategy: string, sig: string) {
    exists d, s :: SaysJust(delta, d) && SaysJust(strategy, s) && sig == d + "||" + s
  }

  lemma NormIs(text: string, words: string)
    ensures Norm(text) == words <==> SaysJust(text, words)
  {
    NormSpells(text);
    if NoCapitals(words) { NormMeans(text, words); }
  }

  lemma SignatureMeans(n: NoveltyText, sig: Option<string>)
    ensures Signature(n) == sig <==> SignedBy(n, sig)
  {
    match n {
      case Absent =>
      case Text(s) => TextMeans(s, sig);
      case Structured(delta, strategy) => StructuredMeans(delta, strategy, sig);
    }
  }

  lemma TextMeans(s: string, sig: Option<string>)
    ensures Signature(Text(s)) == sig <==> SignedBy(Text(s), sig)
  {
    NormSpells(s);
    if sig.Some? { NormIs(s, sig.value); }
  }

  lemma BothMeans(delta: string, strategy: string, sig: string)
    ensures SaysBoth(delta, strategy, sig) <==> sig == Norm(delta) + "||" + Norm(strategy)
  {
    NormIs(delta, Norm(delta));
    NormIs(strategy, Norm(strategy));
    if d, s :| SaysJust(delta, d) && SaysJust(strategy, s) && sig == d + "||" + s {
      NormIs(delta, d);
      NormIs(strategy, s);
    }
  }

  lemma StructuredMeans(delta: string, strategy: string, sig: Option<string>)
    ensures Signature(Structured(delta, strategy)) == sig <==> SignedBy(Structured(delta, strategy), sig)
  {
    NormSpells(delta);
    NormSpells(strategy);
    if sig.Some? {
      NormIs(delta, sig.value);
      BothMeans(delta, strategy, sig.value);
    }
  }

  function Sigs(rounds: seq<Round>): (sigs: seq<Option<string>>)
    ensures |sigs| == |rounds|
  {
    seq(|rounds|, i requires 0 <= i < |rounds| => Signature(rounds[i].novelty))
  }

  // ------------------------------------------------------------ attempt order

  predicate NotLater(a: Round, b: Round) {
    a.attemptNo <= b.attemptNo
  }

  /** sorted() by attempt number. */
  function InOrder(rounds: seq<Round>): seq<Round> {
    SortBy(rounds, NotLater)
  }

  ghost predicate Ascending(rounds: seq<Round>) {
    forall i, j :: 0 <= i < j < |rounds| ==> rounds[i].attemptNo <= rounds[j].attemptNo
  }

  lemma InOrderAscends(rounds: seq<Round>)
    ensures Ascending(InOrder(rounds)) && multiset(InOrder(rounds)) == multiset(rounds)
  {
    SortByOrders(rounds, NotLater);
    SortByKeeps(rounds, NotLater);
    forall i, j | 0 <= i < j < |InOrder(rounds)| ensures InOrder(rounds)[i].attemptNo <= InOrder(rounds)[j].attemptNo {
      assert NotLater(InOrder(rounds)[i], InOrder(rounds)[j]);
    }
  }

  /** What the gate looks at: the signatures in attempt order. */
  function Lineage(rounds: seq<Round>): seq<Option<string>> {
    Sigs(InOrder(rounds))
  }

  // ------------------------------------------------------------ runs without novelty

  /** No signature, or one that an earlier round of the whole lineage already had. */
  predicate Stale(sigs: seq<Option<string>>, i: nat)
    requires i < |sigs|
  {
    sigs[i].None? || exists j: nat | j < i :: sigs[j] == sigs[i]
  }

  /** How many stale rounds in a row end just before place n. */
  function RunBefore(sigs: seq<Option<string>>, n: nat): nat
    requires n <= |sigs|
  {
    if n == 0 then 0 else if Stale(sigs, n - 1) then RunBefore(sigs, n - 1) + 1 else 0
  }

  function LongestBefore(sigs: seq<Option<string>>, n: nat): nat
    requires n <= |sigs|
  {
    if n == 0 then 0 else Max(LongestBefore(sigs, n - 1), RunBefore(sigs, n))
  }

  function LongestRun(sigs: seq<Option<string>>): nat {
    LongestBefore(sigs, |sigs|)
  }

  datatype Verdict = Verdict(escalate: bool, consecutive: nat)

  /** None where the code raises ValueError. */
  method EvaluateNoveltyGate(rounds: seq<Round>, threshold: int) returns (verdict: Option<Verdict>)
    ensures verdict.None? <==> rounds == [] || threshold < 1
    ensures verdict.Some? ==> verdict.value.consecutive == LongestRun(Lineage(rounds))
                              && (verdict.value.escalate <==> LongestRun(Lineage(rounds)) >= threshold)
  {
    if rounds == [] || threshold < 1 { return None; }
    var ordered := InOrder(rounds);
    var longest := LongestStale(ordered);
    verdict := Some(Verdict(longest >= threshold, longest));
  }

  method LongestStale(ordered: seq<Round>) returns (longest: nat)
    ensures longest == LongestRun(Sigs(ordered))
  {
    ghost var sigs := Sigs(ordered);
    var consecutive: nat := 0;
    var seen: set<string> := {};
    longest := 0;
    for i := 0 to |ordered|
      invariant consecutive == RunBefore(sigs, i) && longest == LongestBefore(sigs, i)
      invariant seen == Signatures(sigs, i)
    {
      StaleMeans(sigs, i);
      var sig := Signature(ordered[i].novelty);
      if sig.None? || sig.value in seen {
        consecutive := consecutive + 1;
        longest := Max(longest, consecutive);
      } else {
        consecutive := 0;
      }
      if sig.Some? { seen := seen + {sig.value}; }
    }
  }

  ghost predicate StaleRun(sigs: seq<Option<string>>, from: nat, length: nat) {
    from + length <= |sigs| && forall i: nat :: from <= i < from + length ==> Stale(sigs, i)
  }

  lemma {:induction false} RunBeforeIsRun(sigs: seq<Option<string>>, n: nat)
    requires n <= |sigs|
    ensures RunBefore(sigs, n) <= n && StaleRun(sigs, n - RunBefore(sigs, n), RunBefore(sigs, n))
  {
    if n > 0 { RunBeforeIsRun(sigs, n - 1); }
  }

  lemma {:induction false} RunBeforeIsLongest(sigs: seq<Option<string>>, n: nat, length: nat)
    requires length <= n <= |sigs| && StaleRun(sigs, n - length, length)
    ensures length <= RunBefore(sigs, n)
  {
    if length > 0 {
      assert Stale(sigs, n - 1);
      RunBeforeIsLongest(sigs, n - 1, length - 1);
    }
  }

  lemma {:induction false} LongestBeforeBounds(sigs: seq<Option<string>>, n: nat, m: nat)
    requires m <= n <= |sigs|
    ensures RunBefore(sigs, m) <= LongestBefore(sigs, n)
    decreases n
  {
    if m < n { LongestBeforeBounds(sigs, n - 1, m); }
  }

  lemma {:induction false} LongestBeforeReached(sigs: seq<Option<string>>, n: nat) returns (m: nat)
    requires n <= |sigs|
    ensures m <= n && RunBefore(sigs, m) == LongestBefore(sigs, n)
  {
    if n == 0 || RunBefore(sigs, n) == LongestBefore(sigs, n) { m := n; } else { m := LongestBeforeReached(sigs, n - 1); }
  }

  /** The count that decides is the length of the longest block of consecutive stale rounds. */
  lemma LongestRunIsLongest(sigs: seq<Option<string>>)
    ensures exists from: nat :: StaleRun(sigs, from, LongestRun(sigs))
    ensures forall from: nat, length: nat :: StaleRun(sigs, from, length) ==> length <= LongestRun(sigs)
  {
    var m := LongestBeforeReached(sigs, |sigs|);
    RunBeforeIsRun(sigs, m);
    assert StaleRun(sigs, m - LongestRun(sigs), LongestRun(sigs));
    forall from: nat, length: nat | StaleRun(sigs, from, length) ensures length <= LongestRun(sigs) {
      RunBeforeIsLongest(sigs, from + length, length);
      LongestBeforeBounds(sigs, |sigs|, from + length);
    }
  }

  // ------------------------------------------------------------ the pigeonhole bound

  /** The distinct signatures of the first n rounds. */
  function Signatures(sigs: seq<Option<string>>, n: nat): set<string>
    requires n <= |sigs|
  {
    if n == 0 then {}
    else
      var sig := sigs[n - 1];
      Signatures(sigs, n - 1) + if sig.Some? then {sig.value} else {}
  }

  lemma {:induction false} SignaturesMembers(sigs: seq<Option<string>>, n: nat, s: string)
    requires n <= |sigs|
    ensures s in Signatures(sigs, n) <==> exists j: nat | j < n :: sigs[j] == Some(s)
  {
    if n > 0 { SignaturesMembers(sigs, n - 1, s); }
  }

  lemma StaleMeans(sigs: seq<Option<string>>, n: nat)
    requires n < |sigs|
    ensures Stale(sigs, n) <==> sigs[n].None? || sigs[n].value in Signatures(sigs, n)
  {
    if sigs[n].Some? { SignaturesMembers(sigs, n, sigs[n].value); }
  }

  /** Every fresh round adds one signature, a stale one none. */
  lemma SignaturesStep(sigs: seq<Option<string>>, n: nat)
    requires n < |sigs|
    ensures |Signatures(sigs, n + 1)| == |Signatures(sigs, n)| + if Stale(sigs, n) then 0 else 1
  {
    StaleMeans(sigs, n);
    if Stale(sigs, n) { assert Signatures(sigs, n + 1) == Signatures(sigs, n); }
  }

  lemma {:induction false} SpreadOut(sigs: seq<Option<string>>, n: nat, longest: nat)
    requires n <= |sigs| && forall m: nat :: m <= |sigs| ==> RunBefore(sigs, m) <= longest
    ensures n - |Signatures(sigs, n)| <= |Signatures(sigs, n)| * longest + RunBefore(sigs, n)
  {
    if n > 0 {
      SpreadOut(sigs, n - 1, longest);
      SignaturesStep(sigs, n - 1);
      OneMore(|Signatures(sigs, n - 1)|, longest);
    }
  }

  lemma OneMore(k: nat, longest: nat)
    ensures (k + 1) * longest == k * longest + longest
  {
  }

  /** n rounds with k distinct signatures hold a stale run of at least (n - k) / (k + 1), rounded up. */
  lemma PigeonholeBound(sigs: seq<Option<string>>)
    ensures var n, k := |sigs|, |Signatures(sigs, |sigs|)|;
            n - k <= (k + 1) * LongestRun(sigs)
  {
    var longest := LongestRun(sigs);
    forall m: nat | m <= |sigs| ensures RunBefore(sigs, m) <= longest { LongestBeforeBounds(sigs, |sigs|, m); }
    SpreadOut(sigs, |sigs|, longest);
    OneMore(|Signatures(sigs, |sigs|)|, longest);
  }

  /** A round added at the end lengthens the current run iff it brings no new signature. */
  lemma AppendRound(sigs: seq<Option<string>>, sig: Option<string>)
    ensures var longer, n := sigs + [sig], |sigs|;
            var run := if sig.None? || sig.value in Signatures(sigs, n) then RunBefore(sigs, n) + 1 else 0;
            && RunBefore(longer, n + 1) == run && LongestRun(longer) == Max(LongestRun(sigs), run)
            && Signatures(longer, n + 1) == Signatures(sigs, n) + if sig.Some? then {sig.value} else {}
  {
    PrefixKeeps(sigs, [sig], |sigs|);
    PrefixSignatures(sigs, [sig], |sigs|);
    StaleMeans(sigs + [sig], |sigs|);
  }

  lemma {:induction false} PrefixSignatures(sigs: seq<Option<string>>, more: seq<Option<string>>, n: nat)
    requires n <= |sigs|
    ensures Signatures(sigs + more, n) == Signatures(sigs, n)
  {
    if n > 0 {
      PrefixSignatures(sigs, more, n - 1);
      assert (sigs + more)[n - 1] == sigs[n - 1];
    }
  }

  function Word(n: nat): string {
    seq(n, _ => 'a')
  }

  ghost predicate Spread(sigs: seq<Option<string>>, k: nat, run: nat, longest: nat) {
    && Signatures(sigs, |sigs|) == (set i | 1 <= i <= k :: Word(i))
    && RunBefore(sigs, |sigs|) == run && LongestRun(sigs) == longest
  }

  lemma {:induction false} AddStale(sigs: seq<Option<string>>, k: nat, run: nat, longest: nat, count: nat) returns (longer: seq<Option<string>>)
    requires Spread(sigs, k, run, longest)
    ensures |longer| == |sigs| + count && Spread(longer, k, run + count, if count == 0 then longest else Max(longest, run + count))
    decreases count
  {
    longer := sigs;
    if count > 0 {
      longer := AddStale(sigs, k, run, longest, count - 1);
      AppendRound(longer, None);
      longer := longer + [None];
    }
  }

  /** The bound is reached: for every k and m there are k + (k + 1) m rounds with k distinct signatures
      whose longest stale run is just m. */
  lemma {:induction false} BoundIsReached(k: nat, m: nat) returns (sigs: seq<Option<string>>)
    ensures |sigs| == k + (k + 1) * m && Spread(sigs, k, m, m)
  {
    if k == 0 {
      assert (set i | 1 <= i <= 0 :: Word(i)) == {};
      sigs := AddStale([], 0, 0, 0, m);
    } else {
      sigs := BoundIsReached(k - 1, m);
      OneMore(k, m);
      NewWord(k);
      AppendRound(sigs, Some(Word(k)));
      sigs := sigs + [Some(Word(k))];
      sigs := AddStale(sigs, k, 0, m, m);
    }
  }

  lemma NewWord(k: nat)
    requires k > 0
    ensures Word(k) !in (set i | 1 <= i <= k - 1 :: Word(i))
    ensures (set i | 1 <= i <= k :: Word(i)) == (set i | 1 <= i <= k - 1 :: Word(i)) + {Word(k)}
  {
    assert forall i :: 1 <= i <= k - 1 ==> |Word(i)| == i;
    assert |Word(k)| == k;
  }

  /** So escalation is certain once n - k > (k + 1)(threshold - 1). */
  lemma EscalationIsCertain(rounds: seq<Round>, threshold: int)
    requires threshold >= 1
    requires var sigs := Lineage(rounds);
             var k := |Signatures(sigs, |sigs|)|;
             |sigs| - k > (k + 1) * (threshold - 1)
    ensures LongestRun(Lineage(rounds)) >= threshold
  {
    var sigs := Lineage(rounds);
    PigeonholeBound(sigs);
    var k, longest := |Signatures(sigs, |sigs|)|, LongestRun(sigs);
    if longest <= threshold - 1 {
      MulMono(k + 1, longest, threshold - 1);
      assert false;
    }
  }

  lemma MulMono(k: nat, a: int, b: int)
    requires a <= b
    ensures k * a <= k * b
  {
  }

  // ------------------------------------------------------------ later rounds

  lemma {:induction false} PrefixKeeps(sigs: seq<Option<string>>, more: seq<Option<string>>, n: nat)
    requires n <= |sigs|
    ensures RunBefore(sigs + more, n) == RunBefore(sigs, n) && LongestBefore(sigs + more, n) == LongestBefore(sigs, n)
  {
    if n > 0 {
      PrefixKeeps(sigs, more, n - 1);
      assert Stale(sigs + more, n - 1) == Stale(sigs, n - 1) by {
        assert forall i: nat :: i < n ==> (sigs + more)[i] == sigs[i];
      }
    }
  }

  lemma {:induction false} LongestGrows(sigs: seq<Option<string>>, m: nat, n: nat)
    requires m <= n <= |sigs|
    ensures LongestBefore(sigs, m) <= LongestBefore(sigs, n)
    decreases n
  {
    if m < n { LongestGrows(sigs, m, n - 1); }
  }

  predicate NotBefore(r: Round, rounds: seq<Round>) {
    forall i :: 0 <= i < |rounds| ==> rounds[i].attemptNo <= r.attemptNo
  }

  lemma {:induction false} InsertBehind(front: seq<Round>, back: seq<Round>, r: Round)
    requires NotBefore(r, front)
    ensures InsertBy(front + back, r, NotLater) == front + InsertBy(back, r, NotLater)
  {
    if back == [] {
      assert front + back == front && front + [r] == front + ([] + [r]);
    } else if back[|back| - 1].attemptNo <= r.attemptNo {
      assert (front + back) + [r] == front + (back + [r]);
    } else {
      assert (front + back)[..|front + back| - 1] == front + back[..|back| - 1];
      InsertBehind(front, back[..|back| - 1], r);
    }
  }

  lemma StillNotBefore(r: Round, rounds: seq<Round>)
    requires NotBefore(r, rounds)
    ensures NotBefore(r, InOrder(rounds))
  {
    InOrderAscends(rounds);
    forall i | 0 <= i < |InOrder(rounds)| ensures InOrder(rounds)[i].attemptNo <= r.attemptNo {
      assert InOrder(rounds)[i] in multiset(rounds);
    }
  }

  ghost predicate AllLater(later: seq<Round>, rounds: seq<Round>) {
    forall r :: r in later ==> NotBefore(r, rounds)
  }

  lemma {:induction false} LaterRoundsFollow(rounds: seq<Round>, later: seq<Round>)
    requires AllLater(later, rounds)
    ensures InOrder(rounds + later) == InOrder(rounds) + InOrder(later)
  {
    if later == [] {
      assert rounds + later == rounds;
    } else {
      var front, r := later[..|later| - 1], later[|later| - 1];
      assert r in later && forall x :: x in front ==> x in later;
      LaterRoundsFollow(rounds, front);
      StillNotBefore(r, rounds);
      FollowStep(rounds, front, r, later);
    }
  }

  lemma FollowStep(rounds: seq<Round>, front: seq<Round>, r: Round, later: seq<Round>)
    requires InOrder(rounds + front) == InOrder(rounds) + InOrder(front) && NotBefore(r, InOrder(rounds))
    requires later == front + [r]
    ensures InOrder(rounds + later) == InOrder(rounds) + InOrder(later)
  {
    assert rounds + later == (rounds + front) + [r];
    InOrderPush(rounds + front, r);
    InOrderPush(front, r);
    InsertBehind(InOrder(rounds), InOrder(front), r);
  }

  lemma InOrderPush(rounds: seq<Round>, r: Round)
    ensures InOrder(rounds + [r]) == InsertBy(InOrder(rounds), r, NotLater)
  {
    assert (rounds + [r])[..|rounds|] == rounds;
  }

  /** Once escalated, rounds that are not earlier than any so far never undo it. */
  lemma LaterRoundsNeverUndo(rounds: seq<Round>, later: seq<Round>)
    requires AllLater(later, rounds)
    ensures LongestRun(Lineage(rounds)) <= LongestRun(Lineage(rounds + later))
  {
    LaterRoundsFollow(rounds, later);
    var sigs, more := Lineage(rounds), Lineage(later);
    assert Lineage(rounds + later) == sigs + more;
    PrefixKeeps(sigs, more, |sigs|);
    LongestGrows(sigs + more, |sigs|, |sigs + more|);
  }

  // ------------------------------------------------------------ one more round, of any number

  /** The new round has numbers on both sides of it, an equal one counting as before. */
  predicate InTheMiddle(nos: seq<int>, a: int) {
    exists i, j :: 0 <= i < |nos| && 0 <= j < |nos| && nos[i] <= a < nos[j]
  }

  /** Rounds with these numbers and any novelty texts. */
  ghost predicate Numbered(rounds: seq<Round>, nos: seq<int>) {
    |rounds| == |nos| && forall i :: 0 <= i < |nos| ==> rounds[i].attemptNo == nos[i]
  }

  /** Whatever the rounds said, one more round with that number leaves an escalation standing. */
  ghost predicate NeverUndoes(nos: seq<int>, a: int) {
    forall rounds, r: Round :: Numbered(rounds, nos) && r.attemptNo == a ==> Keeps(rounds, r)
  }

  ghost predicate Keeps(rounds: seq<Round>, r: Round) {
    LongestRun(Lineage(rounds)) <= LongestRun(Lineage(rounds + [r]))
  }

  function PutAt(rounds: seq<Round>, r: Round, p: nat): seq<Round>
    requires p <= |rounds|
  {
    rounds[..p] + [r] + rounds[p..]
  }

  lemma PutBefore(front: seq<Round>, last: Round, r: Round, p: nat)
    requires p <= |front|
    ensures PutAt(front, r, p) + [last] == PutAt(front + [last], r, p)
  {
    assert (front + [last])[..p] == front[..p];
    assert (front + [last])[p..] == front[p..] + [last];
  }

  /** Where a round is put among rounds in order. */
  lemma {:induction false} InsertPlace(rounds: seq<Round>, r: Round) returns (p: nat)
    requires Ascending(rounds)
    ensures p <= |rounds| && InsertBy(rounds, r, NotLater) == PutAt(rounds, r, p)
    ensures forall i :: 0 <= i < p ==> rounds[i].attemptNo <= r.attemptNo
    ensures forall i :: p <= i < |rounds| ==> rounds[i].attemptNo > r.attemptNo
  {
    if rounds == [] || NotLater(rounds[|rounds| - 1], r) {
      p := |rounds|;
    } else {
      var front, last := rounds[..|rounds| - 1], rounds[|rounds| - 1];
      p := InsertPlace(front, r);
      PutBefore(front, last, r, p);
      assert rounds == front + [last];
    }
  }

  lemma {:induction false} FirstRoundKeeps(sigs: seq<Option<string>>, sig: Option<string>, n: nat)
    requires n <= |sigs|
    ensures RunBefore(sigs, n) <= RunBefore([sig] + sigs, n + 1)
    ensures LongestBefore(sigs, n) <= LongestBefore([sig] + sigs, n + 1)
  {
    if n > 0 {
      FirstRoundKeeps(sigs, sig, n - 1);
      var longer := [sig] + sigs;
      assert longer[n] == sigs[n - 1];
      if Stale(sigs, n - 1) && sigs[n - 1].Some? {
        var j: nat :| j < n - 1 && sigs[j] == sigs[n - 1];
        assert longer[j + 1] == longer[n];
      }
    }
  }

  /** A new round breaks a run of rounds without any signature where it lands between them. */
  lemma SplitRun(sigs: seq<Option<string>>, p: nat)
    requires 0 < p < |sigs| - 1 && sigs[p].Some?
    requires forall i :: 0 <= i < |sigs| && i != p ==> sigs[i].None?
    ensures LongestRun(sigs) < |sigs| - 1
  {
    LongestRunIsLongest(sigs);
    var from: nat :| StaleRun(sigs, from, LongestRun(sigs));
    assert !Stale(sigs, p);
  }

  lemma SilentRun(sigs: seq<Option<string>>)
    requires forall i :: 0 <= i < |sigs| ==> sigs[i].None?
    ensures LongestRun(sigs) >= |sigs|
  {
    LongestRunIsLongest(sigs);
    assert StaleRun(sigs, 0, |sigs|);
  }

  lemma OrderKeepsPlaces(rounds: seq<Round>, i: nat) returns (k: nat)
    requires i < |rounds|
    ensures k < |InOrder(rounds)| && InOrder(rounds)[k] == rounds[i]
  {
    InOrderAscends(rounds);
    assert rounds[i] in multiset(InOrder(rounds));
    k :| k < |InOrder(rounds)| && InOrder(rounds)[k] == rounds[i];
  }

  /** A round with anything new to say, put between rounds that said nothing, undoes their escalation. */
  lemma MiddleRoundUndoes(rounds: seq<Round>, r: Round, i: nat, j: nat)
    requires forall k :: 0 <= k < |rounds| ==> Signature(rounds[k].novelty).None?
    requires Signature(r.novelty).Some? && i < |rounds| && j < |rounds|
    requires rounds[i].attemptNo <= r.attemptNo < rounds[j].attemptNo
    ensures LongestRun(Lineage(rounds)) >= |rounds| > LongestRun(Lineage(rounds + [r]))
  {
    AllSilent(rounds);
    SilentRun(Lineage(rounds));
    var p := MiddlePlace(rounds, r, i, j);
    AllSilent(rounds);
    SplitRun(Lineage(rounds + [r]), p);
  }

  lemma AllSilent(rounds: seq<Round>)
    requires forall k :: 0 <= k < |rounds| ==> Signature(rounds[k].novelty).None?
    ensures |InOrder(rounds)| == |rounds|
    ensures forall k :: 0 <= k < |InOrder(rounds)| ==> Signature(InOrder(rounds)[k].novelty).None?
  {
    var ordered := InOrder(rounds);
    InOrderAscends(rounds);
    assert |multiset(ordered)| == |multiset(rounds)|;
    forall k | 0 <= k < |ordered| ensures Signature(ordered[k].novelty).None? {
      assert ordered[k] in multiset(rounds);
    }
  }

  lemma MiddlePlace(rounds: seq<Round>, r: Round, i: nat, j: nat) returns (p: nat)
    requires i < |rounds| && j < |rounds| && rounds[i].attemptNo <= r.attemptNo < rounds[j].attemptNo
    ensures var ordered := InOrder(rounds);
            0 < p < |ordered| && InOrder(rounds + [r]) == PutAt(ordered, r, p)
  {
    InOrderAscends(rounds);
    p := InsertPlace(InOrder(rounds), r);
    var before := OrderKeepsPlaces(rounds, i);
    var behind := OrderKeepsPlaces(rounds, j);
    InOrderPush(rounds, r);
  }

  lemma OrderKeepsAfter(rounds: seq<Round>, r: Round)
    requires forall i :: 0 <= i < |rounds| ==> rounds[i].attemptNo > r.attemptNo
    ensures forall i :: 0 <= i < |InOrder(rounds)| ==> InOrder(rounds)[i].attemptNo > r.attemptNo
  {
    InOrderAscends(rounds);
    forall i | 0 <= i < |InOrder(rounds)| ensures InOrder(rounds)[i].attemptNo > r.attemptNo {
      assert InOrder(rounds)[i] in multiset(rounds);
    }
  }

  lemma {:induction false} InsertFirst(rounds: seq<Round>, r: Round)
    requires forall i :: 0 <= i < |rounds| ==> rounds[i].attemptNo > r.attemptNo
    ensures InsertBy(rounds, r, NotLater) == [r] + rounds
  {
    if rounds != [] {
      InsertFirst(rounds[..|rounds| - 1], r);
      assert rounds == rounds[..|rounds| - 1] + [rounds[|rounds| - 1]];
    }
  }

  lemma SigsPush(rounds: seq<Round>, r: Round)
    ensures Sigs([r] + rounds) == [Signature(r.novelty)] + Sigs(rounds)
  {
  }

  lemma FirstPlaceKeeps(rounds: seq<Round>, r: Round)
    requires forall i :: 0 <= i < |rounds| ==> rounds[i].attemptNo > r.attemptNo
    ensures Keeps(rounds, r)
  {
    OrderKeepsAfter(rounds, r);
    InsertFirst(InOrder(rounds), r);
    InOrderPush(rounds, r);
    SigsPush(InOrder(rounds), r);
    FirstRoundKeeps(Lineage(rounds), Signature(r.novelty), |Lineage(rounds)|);
  }

  lemma EndRoundKeeps(rounds: seq<Round>, r: Round, nos: seq<int>)
    requires Numbered(rounds, nos) && !InTheMiddle(nos, r.attemptNo)
    ensures Keeps(rounds, r)
  {
    if j :| 0 <= j < |rounds| && rounds[j].attemptNo > r.attemptNo {
      forall i | 0 <= i < |rounds| ensures rounds[i].attemptNo > r.attemptNo {
        assert nos[j] > r.attemptNo && rounds[i].attemptNo == nos[i];
      }
      FirstPlaceKeeps(rounds, r);
    } else {
      assert NotBefore(r, rounds);
      LaterRoundsNeverUndo(rounds, [r]);
    }
  }

  /** Exactly a number with another on either side can undo an escalation. */
  lemma UndoesIffInTheMiddle(nos: seq<int>, a: int)
    ensures NeverUndoes(nos, a) <==> !InTheMiddle(nos, a)
  {
    if InTheMiddle(nos, a) {
      var i, j :| 0 <= i < |nos| && 0 <= j < |nos| && nos[i] <= a < nos[j];
      var silent := seq(|nos|, k requires 0 <= k < |nos| => Round(nos[k], Absent));
      var r := Round(a, Text("a"));
      assert Signature(r.novelty).Some? by { NormOfA(); }
      MiddleRoundUndoes(silent, r, i, j);
      assert Numbered(silent, nos) && !Keeps(silent, r);
    } else {
      forall rounds, r: Round | Numbered(rounds, nos) && r.attemptNo == a ensures Keeps(rounds, r) {
        EndRoundKeeps(rounds, r, nos);
      }
    }
  }

  lemma NormOfA()
    ensures Norm("a") == "a"
  {
  }

  // ------------------------------------------------------------ the comparison the docstring names

  /** The docstring compares a round with its current run only: the stale rounds just before it and the
      new one that opened them. */
  predicate StaleInRun(sigs: seq<Option<string>>, i: nat)
    requires i < |sigs|
    decreases i, 1
  {
    sigs[i].None? || exists j: nat | j < i && j + 1 + RunInRun(sigs, i) >= i :: sigs[j] == sigs[i]
  }

  function RunInRun(sigs: seq<Option<string>>, n: nat): nat
    requires n <= |sigs|
    decreases n, 0
  {
    if n == 0 then 0 else if StaleInRun(sigs, n - 1) then RunInRun(sigs, n - 1) + 1 else 0
  }

  /** A signature comes back across a round that brought a new one. */
  ghost predicate ComesBack(sigs: seq<Option<string>>, i: nat, k: nat, j: nat) {
    i < k < j < |sigs| && sigs[i].Some? && sigs[i] == sigs[j] && !Stale(sigs, k)
  }

  /** What is stale by the docstring is stale by the code, so the code escalates at least as soon. */
  lemma {:induction false} CodeRunsAreLonger(sigs: seq<Option<string>>, n: nat)
    requires n <= |sigs|
    ensures RunInRun(sigs, n) <= RunBefore(sigs, n)
  {
    if n > 0 { CodeRunsAreLonger(sigs, n - 1); }
  }

  /** The round that opened the run ending just before n was new. */
  lemma {:induction false} RunOpens(sigs: seq<Option<string>>, n: nat)
    requires n <= |sigs| && RunBefore(sigs, n) < n
    ensures !Stale(sigs, n - 1 - RunBefore(sigs, n))
  {
    if Stale(sigs, n - 1) { RunOpens(sigs, n - 1); }
  }

  lemma {:induction false} NothingNewSince(sigs: seq<Option<string>>, n: nat, k: nat)
    requires k < n <= |sigs| && !Stale(sigs, k)
    ensures RunBefore(sigs, n) <= n - 1 - k
  {
    if k < n - 1 { NothingNewSince(sigs, n - 1, k); }
  }

  lemma {:induction false} RunsAgree(sigs: seq<Option<string>>, n: nat)
    requires n <= |sigs| && forall i: nat, k: nat, j: nat :: !ComesBack(sigs, i, k, j)
    ensures RunInRun(sigs, n) == RunBefore(sigs, n)
    ensures n > 0 ==> StaleInRun(sigs, n - 1) == Stale(sigs, n - 1)
  {
    if n > 0 {
      RunsAgree(sigs, n - 1);
      if sigs[n - 1].Some? && Stale(sigs, n - 1) {
        var j: nat :| j < n - 1 && sigs[j] == sigs[n - 1];
        var run := RunBefore(sigs, n - 1);
        if j + 1 + run < n - 1 {
          RunOpens(sigs, n - 1);
          assert ComesBack(sigs, j, n - 2 - run, n - 1);
          assert false;
        }
      }
    }
  }

  /** The first return of a signature across a new round is where the two comparisons part. */
  lemma {:induction false} ReturnParts(sigs: seq<Option<string>>, i: nat, k: nat, j: nat) returns (at: nat)
    requires ComesBack(sigs, i, k, j)
    ensures at < |sigs| && Stale(sigs, at) && !StaleInRun(sigs, at)
    decreases j
  {
    if m: nat :| k < m < j && sigs[m] == sigs[j] {
      at := ReturnParts(sigs, i, k, m);
    } else {
      at := j;
      CodeRunsAreLonger(sigs, j);
      NothingNewSince(sigs, j, k);
      assert sigs[k] != sigs[j];
    }
  }

  /** Code and docstring judge every round alike iff no signature comes back across a round that brought
      a new one. */
  lemma DocstringAgreesIff(sigs: seq<Option<string>>)
    ensures (forall n: nat :: n < |sigs| ==> StaleInRun(sigs, n) == Stale(sigs, n))
            <==> forall i: nat, k: nat, j: nat :: !ComesBack(sigs, i, k, j)
  {
    if i: nat, k: nat, j: nat :| ComesBack(sigs, i, k, j) {
      var at := ReturnParts(sigs, i, k, j);
    } else {
      forall n: nat | n < |sigs| ensures StaleInRun(sigs, n) == Stale(sigs, n) { RunsAgree(sigs, n + 1); }
    }
  }

  /** A first strategy, another one, and the first again: stale for the code, new for the docstring. */
  lemma ReturnIsStaleForTheCodeOnly(a: string, b: string)
    requires a != b
    ensures var sigs := [Some(a), Some(b), Some(a)]; Stale(sigs, 2) && !StaleInRun(sigs, 2)
  {
    var sigs := [Some(a), Some(b), Some(a)];
    assert sigs[0] == sigs[2];
    CodeRunsAreLonger(sigs, 2);
    assert !Stale(sigs, 1);
  }
}
