/** The claim directory with its reaper. Every operation is atomic here; a crash may leave a claim at
    any of the three points between its system calls. Everything is stated for one slug, because two
    task ids that differ only in their slashes share their files. */
module ClaimFiles {
  import opened Prelude

  /** A .claim file: unparsable text, JSON that is no claim, a claim that names no claimant, or a claim. */
  datatype ClaimFile =
    | Unparsable
    | Foreign
    | Anonymous(token: nat, ts: real, taskId: string)
    | Held(claimant: string, token: nat, ts: real, taskId: string)

  /** What renew and release answer; the reader raises on JSON that has no claimant. */
  datatype Answer = Done | Refused | Raised

  function AnswerFor(slot: Slot, claimant: string): Answer {
    if slot.claim.Some? && (slot.claim.value.Foreign? || slot.claim.value.Anonymous?) then Raised else if HeldBy(slot, claimant) then Done else Refused
  }

  datatype FenceFile = Absent | Garbled | Count(n: nat)

  /** What the directory holds for one slug. */
  datatype Slot = Slot(claim: Option<ClaimFile>, fence: FenceFile)

  datatype ReapedClaim =
    | Stale(taskId: string, claimant: string, token: nat, age: real)
    | Malformed(slug: string)

  function Slug(taskId: string): (s: string)
    ensures |s| == |taskId|
  {
    seq(|taskId|, i requires 0 <= i < |taskId| => if taskId[i] == '/' || taskId[i] == '\\' then '_' else taskId[i])
  }

  /** Two task ids with the same files: they agree but for slashes, backslashes and underscores. */
  ghost predicate SameButSlashes(a: string, b: string) {
    |a| == |b| && forall i :: 0 <= i < |a| ==> a[i] == b[i] || (a[i] in {'/', '\\', '_'} && b[i] in {'/', '\\', '_'})
  }

  lemma SlugsAgreeIff(a: string, b: string)
    ensures Slug(a) == Slug(b) <==> SameButSlashes(a, b)
  {
    if Slug(a) == Slug(b) {
      forall i | 0 <= i < |a| ensures a[i] == b[i] || (a[i] in {'/', '\\', '_'} && b[i] in {'/', '\\', '_'}) {
        assert Slug(a)[i] == Slug(b)[i];
      }
    }
  }

  function ReadFence(f: FenceFile): nat {
    if f.Count? then f.n else 0
  }

  predicate Verified(slot: Slot, token: int) {
    slot.fence.Count? && token == slot.fence.n
  }

  predicate HeldBy(slot: Slot, claimant: string) {
    slot.claim.Some? && slot.claim.value.Held? && slot.claim.value.claimant == claimant
  }

  function ClaimSlot(slot: Slot, taskId: string, claimant: string, now: real): Slot {
    if slot.claim.Some? then slot
    else
      var token := ReadFence(slot.fence) + 1;
      Slot(Some(Held(claimant, token, now, taskId)), Count(token))
  }

  function RenewSlot(slot: Slot, taskId: string, claimant: string, now: real): Slot {
    if HeldBy(slot, claimant) then slot.(claim := Some(Held(claimant, slot.claim.value.token, now, taskId))) else slot
  }

  function ReleaseSlot(slot: Slot, claimant: string): Slot {
    if HeldBy(slot, claimant) then slot.(claim := None) else slot
  }

  /** The reaper takes what is no claim at once, a claim only when old and not live. */
  predicate Reapable(file: ClaimFile, now: real, staleAfter: real, live: set<string>) {
    file.Held? || file.Anonymous? ==> now - file.ts > staleAfter && file.taskId !in live
  }

  function ReapSlot(slot: Slot, now: real, staleAfter: real, live: set<string>): Slot {
    if slot.claim.Some? && Reapable(slot.claim.value, now, staleAfter, live) then slot.(claim := None) else slot
  }

  class ClaimDir {
    var claims: map<string, ClaimFile>
    var fences: map<string, FenceFile>

    ghost function At(slug: string): Slot
      reads this
    {
      Slot(if slug in claims then Some(claims[slug]) else None, if slug in fences then fences[slug] else Absent)
    }

    constructor ()
      ensures forall slug :: At(slug) == Slot(None, Absent)
    {
      claims, fences := map[], map[];
    }

    method ClaimTask(taskId: string, claimant: string, now: real) returns (token: Option<nat>)
      modifies this
      ensures At(Slug(taskId)) == ClaimSlot(old(At(Slug(taskId))), taskId, claimant, now)
      ensures forall slug :: slug != Slug(taskId) ==> At(slug) == old(At(slug))
      ensures token.Some? == old(At(Slug(taskId))).claim.None?
      ensures token.Some? ==> Verified(At(Slug(taskId)), token.value)
    {
      var slug := Slug(taskId);
      if slug in claims { return None; }
      claims := claims[slug := Unparsable];
      var next := NextToken(slug);
      claims := claims[slug := Held(claimant, next, now, taskId)];
      return Some(next);
    }

    method NextToken(slug: string) returns (next: nat)
      modifies this`fences
      ensures next == ReadFence(old(At(slug)).fence) + 1
      ensures fences == old(fences)[slug := Count(next)]
    {
      var cur := if slug in fences then ReadFence(fences[slug]) else 0;
      next := cur + 1;
      fences := fences[slug := Count(next)];
    }

    method RenewClaim(taskId: string, claimant: string, now: real) returns (answer: Answer)
      modifies this`claims
      ensures At(Slug(taskId)) == RenewSlot(old(At(Slug(taskId))), taskId, claimant, now)
      ensures forall slug :: slug != Slug(taskId) ==> At(slug) == old(At(slug))
      ensures answer == AnswerFor(old(At(Slug(taskId))), claimant)
    {
      var slug := Slug(taskId);
      if slug !in claims || claims[slug].Unparsable? { return Refused; }
      if claims[slug].Foreign? || claims[slug].Anonymous? { return Raised; }
      if claims[slug].claimant != claimant { return Refused; }
      claims := claims[slug := Held(claimant, claims[slug].token, now, taskId)];
      return Done;
    }

    method ReleaseClaim(taskId: string, claimant: string) returns (answer: Answer)
      modifies this`claims
      ensures At(Slug(taskId)) == ReleaseSlot(old(At(Slug(taskId))), claimant)
      ensures forall slug :: slug != Slug(taskId) ==> At(slug) == old(At(slug))
      ensures answer == AnswerFor(old(At(Slug(taskId))), claimant)
    {
      var slug := Slug(taskId);
      if slug !in claims || claims[slug].Unparsable? { return Refused; }
      if claims[slug].Foreign? || claims[slug].Anonymous? { return Raised; }
      if claims[slug].claimant != claimant { return Refused; }
      claims := claims - {slug};
      return Done;
    }

    method VerifyFencingToken(taskId: string, token: int) returns (ok: bool)
      ensures ok == Verified(At(Slug(taskId)), token)
    {
      var slug := Slug(taskId);
      ok := slug in fences && fences[slug].Count? && token == fences[slug].n;
    }

    /** `listing` is the directory listing, in whatever order it comes. */
    method ReapStaleClaims(listing: seq<string>, now: real, staleAfter: real, live: set<string>)
      returns (reaped: seq<ReapedClaim>)
      requires Lists(listing, claims)
      modifies this`claims
      ensures fences == old(fences) && claims == Survivors(old(claims), old(claims).Keys, now, staleAfter, live)
      ensures forall slug :: At(slug) == ReapSlot(old(At(slug)), now, staleAfter, live)
      ensures reaped == Sorted(Records(listing, old(claims), now, staleAfter, live))
      ensures forall r :: r in reaped <==> exists slug :: slug in old(claims) && slug !in claims && Tells(r, slug, old(claims)[slug], now)
      ensures forall slug :: slug in claims <==> slug in old(claims) && !Overstays(old(claims)[slug], now, staleAfter, live)
    {
      ghost var was := claims;
      ghost var seen: set<string> := {};
      var records: seq<ReapedClaim> := [];
      SurvivorsNone(was, now, staleAfter, live);
      for i := 0 to |listing|
        invariant seen == Members(listing[..i])
        invariant claims == Survivors(was, seen, now, staleAfter, live)
        invariant records == Records(listing[..i], was, now, staleAfter, live)
      {
        MembersStep(listing, i, was);
        SurvivorsStep(was, seen, listing[i], now, staleAfter, live);
        RecordsStep(listing, i, was, now, staleAfter, live);
        var record := ReapOne(listing[i], now, staleAfter, live);
        records := records + record;
        seen := seen + {listing[i]};
      }
      assert listing[..|listing|] == listing;
      MembersAll(listing, was);
      RecordsTell(listing, was, now, staleAfter, live);
      SortedMembers(records);
      reaped := Sorted(records);
    }

    method ReapOne(slug: string, now: real, staleAfter: real, live: set<string>) returns (record: seq<ReapedClaim>)
      requires slug in claims
      modifies this`claims
      ensures claims == if Reapable(old(claims)[slug], now, staleAfter, live) then old(claims) - {slug} else old(claims)
      ensures record == RecordOf(slug, old(claims)[slug], now, staleAfter, live)
    {
      record := [];
      match claims[slug] {
        case Held(claimant, token, ts, taskId) =>
          if now - ts > staleAfter && taskId !in live {
            claims := claims - {slug};
            record := [Stale(taskId, claimant, token, now - ts)];
          }
        case Anonymous(token, ts, taskId) =>
          if now - ts > staleAfter && taskId !in live {
            claims := claims - {slug};
            record := [Stale(taskId, "", token, now - ts)];
          }
        case _ =>
          claims := claims - {slug};
          record := [Malformed(slug)];
      }
    }
  }

  ghost function Members(listing: seq<string>): set<string> {
    set slug | slug in listing
  }

  /** The listing names every claim file once. */
  predicate Lists(listing: seq<string>, claims: map<string, ClaimFile>) {
    && (forall i :: 0 <= i < |listing| ==> listing[i] in claims)
    && (forall slug :: slug in claims ==> slug in listing)
    && (forall i, j :: 0 <= i < j < |listing| ==> listing[i] != listing[j])
  }

  lemma MembersStep(listing: seq<string>, i: nat, claims: map<string, ClaimFile>)
    requires i < |listing| && Lists(listing, claims)
    ensures Members(listing[..i + 1]) == Members(listing[..i]) + {listing[i]}
    ensures listing[i] in claims && listing[i] !in Members(listing[..i])
  {
    assert listing[..i + 1] == listing[..i] + [listing[i]];
  }

  lemma MembersAll(listing: seq<string>, claims: map<string, ClaimFile>)
    requires Lists(listing, claims)
    ensures Members(listing) == claims.Keys
  {
    forall slug | slug in listing ensures slug in claims {
      var i :| 0 <= i < |listing| && listing[i] == slug;
    }
  }

  ghost function Survivors(was: map<string, ClaimFile>, seen: set<string>, now: real, staleAfter: real, live: set<string>)
    : map<string, ClaimFile>
  {
    map slug | slug in was && !(slug in seen && Reapable(was[slug], now, staleAfter, live)) :: was[slug]
  }

  lemma SurvivorsStep(was: map<string, ClaimFile>, seen: set<string>, slug: string, now: real, staleAfter: real, live: set<string>)
    requires slug in was && slug !in seen
    ensures var before := Survivors(was, seen, now, staleAfter, live);
            && slug in before && before[slug] == was[slug]
            && Survivors(was, seen + {slug}, now, staleAfter, live)
               == if Reapable(was[slug], now, staleAfter, live) then before - {slug} else before
  {
  }

  lemma SurvivorsNone(was: map<string, ClaimFile>, now: real, staleAfter: real, live: set<string>)
    ensures Survivors(was, {}, now, staleAfter, live) == was
  {
  }

  function TaskOf(record: ReapedClaim): string {
    match record
    case Stale(taskId, _, _, _) => taskId
    case Malformed(slug) => slug
  }

  predicate TaskNotLater(a: ReapedClaim, b: ReapedClaim) {
    LexLe(TaskOf(a), TaskOf(b))
  }

  /** sorted() by task id. */
  function Sorted(records: seq<ReapedClaim>): seq<ReapedClaim> {
    SortBy(records, TaskNotLater)
  }

  ghost predicate InOrder(a: ReapedClaim, b: ReapedClaim) {
    LexBefore(if a.Malformed? then a.slug else a.taskId, if b.Malformed? then b.slug else b.taskId)
  }

  /** The records come ordered by task id, none lost or doubled. */
  lemma SortedSorts(records: seq<ReapedClaim>)
    ensures forall i, j :: 0 <= i < j < |records| ==> j < |Sorted(records)| && InOrder(Sorted(records)[i], Sorted(records)[j])
    ensures multiset(Sorted(records)) == multiset(records)
  {
    forall a, b: ReapedClaim ensures TaskNotLater(a, b) || TaskNotLater(b, a) { LexTotal(TaskOf(a), TaskOf(b)); }
    forall a, b: ReapedClaim, c: ReapedClaim | TaskNotLater(a, b) && TaskNotLater(b, c) ensures TaskNotLater(a, c) {
      LexTransitive(TaskOf(a), TaskOf(b), TaskOf(c));
    }
    SortByOrders(records, TaskNotLater);
    SortByKeeps(records, TaskNotLater);
    assert |multiset(Sorted(records))| == |multiset(records)|;
    forall i, j | 0 <= i < j < |records| ensures InOrder(Sorted(records)[i], Sorted(records)[j]) {
      LexMeans(TaskOf(Sorted(records)[i]), TaskOf(Sorted(records)[j]));
    }
  }

  function RecordOf(slug: string, file: ClaimFile, now: real, staleAfter: real, live: set<string>): seq<ReapedClaim> {
    if !Reapable(file, now, staleAfter, live) then []
    else
      match file
      case Held(claimant, token, ts, taskId) => [Stale(taskId, claimant, token, now - ts)]
      case Anonymous(token, ts, taskId) => [Stale(taskId, "", token, now - ts)]
      case _ => [Malformed(slug)]
  }

  /** One record per claim that was taken, in listing order. */
  function Records(listing: seq<string>, was: map<string, ClaimFile>, now: real, staleAfter: real, live: set<string>): seq<ReapedClaim>
    requires forall slug :: slug in listing ==> slug in was
  {
    if listing == [] then []
    else
      var last := |listing| - 1;
      Records(listing[..last], was, now, staleAfter, live) + RecordOf(listing[last], was[listing[last]], now, staleAfter, live)
  }

  /** The record says what the claim file said, or that it said nothing readable. */
  ghost predicate Tells(r: ReapedClaim, slug: string, file: ClaimFile, now: real) {
    match file
    case Held(claimant, token, ts, taskId) => r == Stale(taskId, claimant, token, now - ts)
    case Anonymous(token, ts, taskId) => r == Stale(taskId, "", token, now - ts)
    case _ => r == Malformed(slug)
  }

  /** No claim, or one whose last heartbeat is too long ago and whose task nobody vouches for. */
  ghost predicate Overstays(file: ClaimFile, now: real, staleAfter: real, live: set<string>) {
    file == Unparsable || file == Foreign || (file.ts < now - staleAfter && file.taskId !in live)
  }

  lemma {:induction false} RecordsTell(listing: seq<string>, was: map<string, ClaimFile>, now: real, staleAfter: real, live: set<string>)
    requires forall slug :: slug in listing ==> slug in was
    ensures forall r :: r in Records(listing, was, now, staleAfter, live)
              <==> exists slug :: slug in listing && Overstays(was[slug], now, staleAfter, live) && Tells(r, slug, was[slug], now)
  {
    if listing != [] {
      var last := |listing| - 1;
      RecordsTell(listing[..last], was, now, staleAfter, live);
      assert listing == listing[..last] + [listing[last]];
      RecordTells(listing[last], was[listing[last]], now, staleAfter, live);
    }
  }

  lemma RecordTells(slug: string, file: ClaimFile, now: real, staleAfter: real, live: set<string>)
    ensures forall r :: r in RecordOf(slug, file, now, staleAfter, live) <==> Overstays(file, now, staleAfter, live) && Tells(r, slug, file, now)
  {
  }

  lemma SortedMembers(records: seq<ReapedClaim>)
    ensures forall r :: r in Sorted(records) <==> r in records
  {
    SortedSorts(records);
    forall r ensures r in Sorted(records) <==> r in records {
      assert r in Sorted(records) <==> r in multiset(Sorted(records));
    }
  }

  lemma RecordsStep(listing: seq<string>, i: nat, was: map<string, ClaimFile>, now: real, staleAfter: real, live: set<string>)
    requires i < |listing| && forall slug :: slug in listing ==> slug in was
    ensures Records(listing[..i + 1], was, now, staleAfter, live)
         == Records(listing[..i], was, now, staleAfter, live) + RecordOf(listing[i], was[listing[i]], now, staleAfter, live)
  {
    assert listing[..i + 1][..i] == listing[..i];
  }

  datatype Op =
    | Claim(taskId: string, claimant: string, now: real)
    | Renew(taskId: string, claimant: string, now: real)
    | Release(taskId: string, claimant: string)
    | Reap(now: real, staleAfter: real, live: set<string>)
    | CrashCreated(taskId: string)                  // died after creating the claim file
    | CrashTruncated(taskId: string)                // died after opening the fence file for writing
    | CrashFenced(taskId: string)                   // died after writing the fence file
    | CrashRenewed(taskId: string, claimant: string)  // died after opening the own claim file for writing

  datatype Event = Won(token: nat) | Stranded | Freed

  /** One slug's slot, every token written to its fence file, and its history. */
  datatype State = State(slot: Slot, drawn: seq<nat>, log: seq<Event>)

  const Start := State(Slot(None, Absent), [], [])

  function Step(slug: string, s: State, op: Op): State {
    if !op.Reap? && Slug(op.taskId) != slug then s
    else
      match op
      case Claim(taskId, claimant, now) =>
        if s.slot.claim.Some? then s
        else
          var token := ReadFence(s.slot.fence) + 1;
          State(ClaimSlot(s.slot, taskId, claimant, now), s.drawn + [token], s.log + [Won(token)])
      case Renew(taskId, claimant, now) => s.(slot := RenewSlot(s.slot, taskId, claimant, now))
      case Release(_, claimant) => Free(s, ReleaseSlot(s.slot, claimant))
      case Reap(now, staleAfter, live) => Free(s, ReapSlot(s.slot, now, staleAfter, live))
      case CrashCreated(_) => Strand(s, s.slot.fence, s.drawn)
      case CrashTruncated(_) => Strand(s, Garbled, s.drawn)
      case CrashFenced(_) =>
        var token := ReadFence(s.slot.fence) + 1;
        Strand(s, Count(token), s.drawn + [token])
      case CrashRenewed(_, claimant) => if HeldBy(s.slot, claimant) then s.(slot := s.slot.(claim := Some(Unparsable))) else s
  }

  function Free(s: State, slot: Slot): State {
    State(slot, s.drawn, if s.slot.claim.Some? && slot.claim.None? then s.log + [Freed] else s.log)
  }

  function Strand(s: State, fence: FenceFile, drawn: seq<nat>): State {
    if s.slot.claim.Some? then s else State(Slot(Some(Unparsable), fence), drawn, s.log + [Stranded])
  }

  function Run(slug: string, s: State, ops: seq<Op>): State
    decreases |ops|
  {
    if ops == [] then s else Run(slug, Step(slug, s, ops[0]), ops[1..])
  }

  // ------------------------------------------------------------ fencing over whole runs

  /** A claim takes the slot, a release or a reap frees it; the two alternate. */
  ghost predicate Alternates(s: State) {
    && (forall i :: 0 <= i < |s.log| ==> s.log[i].Freed? == (i % 2 == 1))
    && s.slot.claim.Some? == (|s.log| % 2 == 1)
  }

  ghost predicate CountsUp(s: State) {
    && (forall i :: 0 <= i < |s.drawn| ==> s.drawn[i] == i + 1)
    && s.slot.fence == (if s.drawn == [] then Absent else Count(|s.drawn|))
    && (s.slot.claim.Some? && s.slot.claim.value.Held? ==> s.slot.claim.value.token == |s.drawn|)
  }

  ghost predicate WinsIncrease(s: State) {
    && (forall i :: 0 <= i < |s.log| && s.log[i].Won? ==> s.log[i].token <= |s.drawn|)
    && (forall i, j :: 0 <= i < j < |s.log| && s.log[i].Won? && s.log[j].Won? ==> s.log[i].token < s.log[j].token)
  }

  predicate NoTruncation(ops: seq<Op>) {
    forall i :: 0 <= i < |ops| ==> !ops[i].CrashTruncated?
  }

  predicate NoCrash(ops: seq<Op>) {
    forall i :: 0 <= i < |ops| ==> !ops[i].CrashCreated? && !ops[i].CrashTruncated? && !ops[i].CrashFenced?
  }

  lemma {:induction false} RunAlternates(slug: string, s: State, ops: seq<Op>)
    requires Alternates(s)
    ensures Alternates(Run(slug, s, ops))
    decreases |ops|
  {
    if ops != [] { RunAlternates(slug, Step(slug, s, ops[0]), ops[1..]); }
  }

  lemma {:induction false} RunCountsUp(slug: string, s: State, ops: seq<Op>)
    requires CountsUp(s) && WinsIncrease(s) && NoTruncation(ops)
    ensures CountsUp(Run(slug, s, ops)) && WinsIncrease(Run(slug, s, ops))
    decreases |ops|
  {
    if ops != [] { RunCountsUp(slug, Step(slug, s, ops[0]), ops[1..]); }
  }

  /** Every run from an empty directory that does not crash inside the fence write: the i-th token drawn
      is i + 1, winners get strictly increasing tokens, a slot is freed between any two takings, and
      exactly the newest drawn token verifies. */
  lemma FencingHolds(slug: string, ops: seq<Op>)
    requires NoTruncation(ops)
    ensures var s := Run(slug, Start, ops);
            && (forall i :: 0 <= i < |s.drawn| ==> s.drawn[i] == i + 1)
            && WinsIncrease(s) && Alternates(s)
            && (forall t :: Verified(s.slot, t) <==> t == |s.drawn| > 0)
  {
    RunAlternates(slug, Start, ops);
    RunCountsUp(slug, Start, ops);
  }

  /** Without crashes the whole history is win 1, free, win 2, free, ... */
  lemma HistoryWithoutCrashes(slug: string, ops: seq<Op>)
    requires NoCrash(ops)
    ensures var s := Run(slug, Start, ops);
            forall i :: 0 <= i < |s.log| ==> s.log[i] == if i % 2 == 0 then Won(i / 2 + 1) else Freed
  {
    RunHistory(slug, Start, ops);
  }

  ghost predicate PlainHistory(s: State) {
    && CountsUp(s) && Alternates(s) && |s.drawn| == (|s.log| + 1) / 2
    && (forall i :: 0 <= i < |s.log| ==> s.log[i] == if i % 2 == 0 then Won(i / 2 + 1) else Freed)
  }

  lemma {:induction false} RunHistory(slug: string, s: State, ops: seq<Op>)
    requires PlainHistory(s) && NoCrash(ops)
    ensures PlainHistory(Run(slug, s, ops))
    decreases |ops|
  {
    if ops != [] { RunHistory(slug, Step(slug, s, ops[0]), ops[1..]); }
  }

  /** A token below the newest drawn one verifies in no later state. */
  lemma SupersededStaysDead(slug: string, ops: seq<Op>, more: seq<Op>, t: nat)
    requires NoTruncation(ops) && NoTruncation(more)
    requires t < |Run(slug, Start, ops).drawn|
    ensures !Verified(Run(slug, Start, ops + more).slot, t)
  {
    RunConcat(slug, Start, ops, more);
    RunGrows(slug, Run(slug, Start, ops), more);
    FencingHolds(slug, ops + more);
  }

  lemma {:induction false} RunConcat(slug: string, s: State, first: seq<Op>, second: seq<Op>)
    ensures Run(slug, s, first + second) == Run(slug, Run(slug, s, first), second)
    decreases |first|
  {
    if first == [] {
      assert first + second == second;
    } else {
      assert (first + second)[1..] == first[1..] + second;
      RunConcat(slug, Step(slug, s, first[0]), first[1..], second);
    }
  }

  lemma {:induction false} RunGrows(slug: string, s: State, ops: seq<Op>)
    ensures s.drawn <= Run(slug, s, ops).drawn && s.log <= Run(slug, s, ops).log
    decreases |ops|
  {
    if ops != [] { RunGrows(slug, Step(slug, s, ops[0]), ops[1..]); }
  }

  // ------------------------------------------------------------ the fence truncation window

  predicate Increasing(tokens: seq<nat>) {
    forall i, j :: 0 <= i < j < |tokens| ==> tokens[i] < tokens[j]
  }

  predicate AllPositive(tokens: seq<nat>) {
    forall i :: 0 <= i < |tokens| ==> tokens[i] > 0
  }

  /** The next draw starts again at 1: the fence does not parse although tokens were drawn from it. */
  predicate WouldReset(s: State) {
    s.slot.claim.None? && s.slot.fence.Garbled? && s.drawn != []
  }

  predicate Draws(slug: string, op: Op) {
    (op.Claim? || op.CrashFenced?) && Slug(op.taskId) == slug
  }

  predicate NeverResets(slug: string, s: State, ops: seq<Op>)
    decreases |ops|
  {
    ops == [] || (!(WouldReset(s) && Draws(slug, ops[0])) && NeverResets(slug, Step(slug, s, ops[0]), ops[1..]))
  }

  ghost predicate Fresh(s: State) {
    && Increasing(s.drawn) && AllPositive(s.drawn)
    && (s.drawn == [] ==> s.slot.fence == Absent || s.slot.fence == Garbled)
    && (s.drawn != [] ==> s.slot.fence == Garbled || s.slot.fence == Count(s.drawn[|s.drawn| - 1]))
  }

  /** With crashes of every kind, tokens increase iff nobody draws from an unparsable fence that has
      already handed tokens out. */
  lemma TokensIncreaseIffNeverReset(slug: string, ops: seq<Op>)
    ensures Increasing(Run(slug, Start, ops).drawn) <==> NeverResets(slug, Start, ops)
  {
    IncreaseIffNeverReset(slug, Start, ops);
  }

  lemma {:induction false} IncreaseIffNeverReset(slug: string, s: State, ops: seq<Op>)
    requires Fresh(s)
    ensures Increasing(Run(slug, s, ops).drawn) <==> NeverResets(slug, s, ops)
    decreases |ops|
  {
    if ops == [] {
    } else {
      var s' := Step(slug, s, ops[0]);
      if WouldReset(s) && Draws(slug, ops[0]) {
        var n := |s.drawn|;
        assert s'.drawn[n - 1] >= s'.drawn[n] == 1;
        RunGrows(slug, s', ops[1..]);
      } else {
        FreshKept(slug, s, ops[0]);
        IncreaseIffNeverReset(slug, s', ops[1..]);
      }
    }
  }

  lemma FreshKept(slug: string, s: State, op: Op)
    requires Fresh(s) && !(WouldReset(s) && Draws(slug, op))
    ensures Fresh(Step(slug, s, op))
  {
  }

  /** The failing family: after any run that drew a token and left the slot free, a crash in the
      truncation window, a reap and a claim hand out token 1 again. */
  lemma TruncationReissues(slug: string, ops: seq<Op>, taskId: string, claimant: string, now: real)
    requires Slug(taskId) == slug
    requires Run(slug, Start, ops).slot.claim.None? && Run(slug, Start, ops).drawn != []
    ensures var s := Run(slug, Start, ops + [CrashTruncated(taskId), Reap(now, 0.0, {}), Claim(taskId, claimant, now)]);
            s.slot.claim == Some(Held(claimant, 1, now, taskId)) && !Increasing(s.drawn)
  {
    var crash, reap, claim := CrashTruncated(taskId), Reap(now, 0.0, {}), Claim(taskId, claimant, now);
    var s := Run(slug, Start, ops);
    RunConcat(slug, Start, ops, [crash, reap, claim]);
    assert [crash, reap, claim][1..] == [reap, claim] && [reap, claim][1..] == [claim] && [claim][1..] == [];
    var c := Step(slug, s, crash);
    var r := Step(slug, c, reap);
    var t := Step(slug, r, claim);
    assert Run(slug, s, [crash, reap, claim]) == Run(slug, c, [reap, claim]) == Run(slug, r, [claim]) == Run(slug, t, []) == t;
    RunDrawnPositive(slug, Start, ops);
    assert t.drawn[0] >= t.drawn[|s.drawn|];
  }

  lemma {:induction false} RunDrawnPositive(slug: string, s: State, ops: seq<Op>)
    requires AllPositive(s.drawn)
    ensures AllPositive(Run(slug, s, ops).drawn)
    decreases |ops|
  {
    if ops != [] { RunDrawnPositive(slug, Step(slug, s, ops[0]), ops[1..]); }
  }

  // ------------------------------------------------------------ heartbeats and the reaper

  /** The holder does not release or die renewing, and no reaper call comes more than its threshold after
      the last heartbeat, unless the task is live. */
  predicate KeptAlive(slug: string, held: ClaimFile, ops: seq<Op>)
    requires held.Held?
    decreases |ops|
  {
    if ops == [] then true
    else
      match ops[0]
      case Renew(taskId, claimant, now) =>
        var mine := Slug(taskId) == slug && claimant == held.claimant;
        KeptAlive(slug, if mine then Held(held.claimant, held.token, now, taskId) else held, ops[1..])
      case Release(taskId, claimant) =>
        !(Slug(taskId) == slug && claimant == held.claimant) && KeptAlive(slug, held, ops[1..])
      case Reap(now, staleAfter, live) =>
        (now - held.ts <= staleAfter || held.taskId in live) && KeptAlive(slug, held, ops[1..])
      case CrashRenewed(taskId, claimant) =>
        !(Slug(taskId) == slug && claimant == held.claimant) && KeptAlive(slug, held, ops[1..])
      case _ => KeptAlive(slug, held, ops[1..])
  }

  /** A claim outlives a run, with its token and claimant, exactly when it is kept alive; whatever else
      other processes try, they cannot take or change it. */
  lemma {:induction false} SurvivesIffKeptAlive(slug: string, s: State, ops: seq<Op>)
    requires s.slot.claim.Some? && s.slot.claim.value.Held?
    ensures var end := Run(slug, s, ops);
            KeptAlive(slug, s.slot.claim.value, ops) <==> end.log == s.log && end.slot.claim.Some? && end.slot.claim.value.Held?
    ensures KeptAlive(slug, s.slot.claim.value, ops) ==>
              var end := Run(slug, s, ops).slot;
              && HeldBy(end, s.slot.claim.value.claimant)
              && end.claim.value.token == s.slot.claim.value.token && end.fence == s.slot.fence
    decreases |ops|
  {
    if ops != [] {
      var s' := Step(slug, s, ops[0]);
      if s'.slot.claim.Some? && s'.slot.claim.value.Held? {
        SurvivesIffKeptAlive(slug, s', ops[1..]);
      } else if s'.slot.claim.Some? {
        SpoiltStays(slug, s', ops[1..]);
      } else {
        RunGrows(slug, s', ops[1..]);
      }
    }
  }

  /** A file that is no claim stays as it is until the slot is freed. */
  lemma {:induction false} SpoiltStays(slug: string, s: State, ops: seq<Op>)
    requires s.slot.claim.Some? && !s.slot.claim.value.Held?
    ensures Run(slug, s, ops).log == s.log ==> Run(slug, s, ops).slot.claim == s.slot.claim
    decreases |ops|
  {
    if ops != [] {
      var s' := Step(slug, s, ops[0]);
      if s'.slot.claim.Some? { SpoiltStays(slug, s', ops[1..]); } else { RunGrows(slug, s', ops[1..]); }
    }
  }

  /** No claim is stranded for good: a crash that left a claim file, followed by a reap that is late
      enough, frees the slot, and the next claim wins a token never drawn before. */
  lemma StrandedIsRecovered(slug: string, ops: seq<Op>, reap: Op, claim: Op)
    requires NoTruncation(ops) && reap.Reap? && claim.Claim? && Slug(claim.taskId) == slug
    requires var file := Run(slug, Start, ops).slot.claim;
             file.Some? ==> Reapable(file.value, reap.now, reap.staleAfter, reap.live)
    ensures var before := Run(slug, Start, ops);
            var after := Run(slug, Start, ops + [reap, claim]);
            after.slot.claim == Some(Held(claim.claimant, |before.drawn| + 1, claim.now, claim.taskId))
            && |before.drawn| + 1 !in before.drawn
  {
    RunConcat(slug, Start, ops, [reap, claim]);
    assert [reap, claim][1..] == [claim] && [claim][1..] == [];
    var s := Run(slug, Start, ops);
    RunCountsUp(slug, Start, ops);
    var r := Step(slug, s, reap);
    assert Run(slug, s, [reap, claim]) == Run(slug, r, [claim]) == Run(slug, Step(slug, r, claim), []);
  }

  /** The claim of a task, made after the run, wins. */
  predicate Wins(ops: seq<Op>, taskId: string, claimant: string, now: real) {
    var before := Run(Slug(taskId), Start, ops);
    Run(Slug(taskId), Start, ops + [Claim(taskId, claimant, now)]).log == before.log + [Won(ReadFence(before.slot.fence) + 1)]
  }

  /** Whatever has happened: while one task is taken, nobody gets another whose own slot is free iff the two
      ids differ at most in slashes and underscores; and no claim changes the slot that is taken. */
  lemma ExcludesIffSameSlug(ops: seq<Op>, held: string, wanted: string, claimant: string, now: real)
    requires Run(Slug(held), Start, ops).slot.claim.Some?
    requires !SameButSlashes(held, wanted) ==> Run(Slug(wanted), Start, ops).slot.claim.None?
    ensures !Wins(ops, wanted, claimant, now) <==> SameButSlashes(held, wanted)
    ensures Run(Slug(held), Start, ops + [Claim(wanted, claimant, now)]) == Run(Slug(held), Start, ops)
  {
    SlugsAgreeIff(held, wanted);
    RunOneMore(Slug(held), ops, Claim(wanted, claimant, now));
    RunOneMore(Slug(wanted), ops, Claim(wanted, claimant, now));
  }

  lemma RunOneMore(slug: string, ops: seq<Op>, op: Op)
    ensures Run(slug, Start, ops + [op]) == Step(slug, Run(slug, Start, ops), op)
  {
    RunConcat(slug, Start, ops, [op]);
    assert [op][1..] == [];
  }
}
