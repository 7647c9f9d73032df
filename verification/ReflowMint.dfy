/** How often a stuck worktree may mint a recovery finding: the in-flight marker paces, the shared count
    caps, and the cap raises one escalation. Three detection paths visit worktrees in the same way. */
module ReflowMint {
  import opened Prelude

  datatype Marker = BrokenMarker | Written(at: real)

  datatype CountText = BrokenCount | Count(n: nat)

  /** The three files kept for one worktree. */
  datatype Slot = Slot(marker: Option<Marker>, count: Option<CountText>, escalated: bool)

  const NoFiles := Slot(None, None, false)

  datatype Outcome = InFlight | Minted | MintRefused | Escalated | EscalationRefused | Silent

  /** A readable marker younger than staleAfter: the fix may still be at work. */
  predicate Fresh(slot: Slot, now: real, staleAfter: real) {
    slot.marker.Some? && slot.marker.value.Written? && now - slot.marker.value.at < staleAfter
  }

  function MintCount(slot: Slot): nat {
    if slot.count.Some? && slot.count.value.Count? then slot.count.value.n else 0
  }

  /** One visit; `accepted` says whether the emission it may attempt goes through. */
  function Visit(slot: Slot, now: real, staleAfter: real, cap: int, accepted: bool): (Slot, Outcome) {
    if Fresh(slot, now, staleAfter) then (slot, InFlight)
    else if MintCount(slot) >= cap then
      if slot.escalated then (slot, Silent)
      else if accepted then (slot.(escalated := true), Escalated)
      else (slot, EscalationRefused)
    else if accepted then
      (Slot(Some(Written(now)), Some(Count(MintCount(slot) + 1)), slot.escalated), Minted)
    else (slot, MintRefused)
  }

  /** The marker stays: what is forgotten is the count and the escalation. */
  function Cleared(slot: Slot): Slot {
    Slot(slot.marker, None, false)
  }

  class Dispatched {
    var markers: map<string, Marker>
    var counts: map<string, CountText>
    var escalated: set<string>

    ghost function At(worktree: string): Slot
      reads this
    {
      Slot(if worktree in markers then Some(markers[worktree]) else None,
           if worktree in counts then Some(counts[worktree]) else None, worktree in escalated)
    }

    constructor ()
      ensures forall worktree :: At(worktree) == NoFiles
    {
      markers, counts, escalated := map[], map[], {};
    }

    /** The part that the stranded, conflict and triage paths share. */
    method VisitWorktree(worktree: string, now: real, staleAfter: real, cap: int, accepted: bool) returns (outcome: Outcome)
      modifies this
      ensures (At(worktree), outcome) == Visit(old(At(worktree)), now, staleAfter, cap, accepted)
      ensures forall other :: other != worktree ==> At(other) == old(At(other))
    {
      if worktree in markers && markers[worktree].Written? && now - markers[worktree].at < staleAfter { return InFlight; }
      var mintCount := if worktree in counts && counts[worktree].Count? then counts[worktree].n else 0;
      if mintCount >= cap {
        if worktree in escalated { return Silent; }
        if !accepted { return EscalationRefused; }
        escalated := escalated + {worktree};
        return Escalated;
      }
      if !accepted { return MintRefused; }
      markers := markers[worktree := Written(now)];
      counts := counts[worktree := Count(mintCount + 1)];
      return Minted;
    }

    method EmitStrandedReflowFindings(stranded: seq<string>, now: real, staleAfter: real, cap: int, gate: set<string>)
      returns (emitted: seq<string>)
      modifies this
      ensures forall worktree :: Tracks(old(At(worktree)), At(worktree), worktree in emitted,
                                        Occurrences(stranded, worktree), now, staleAfter, cap, worktree in gate)
    {
      emitted := [];
      assert stranded[..|stranded|] == stranded;
      for i := 0 to |stranded|
        invariant forall worktree :: Tracks(old(At(worktree)), At(worktree), worktree in emitted,
                                            Occurrences(stranded[..i], worktree), now, staleAfter, cap, worktree in gate)
      {
        assert stranded[..i + 1][..i] == stranded[..i];
        var outcome := VisitWorktree(stranded[i], now, staleAfter, cap, stranded[i] in gate);
        if outcome.Minted? { emitted := emitted + [stranded[i]]; }
      }
    }

    /** Conflict markers whose worktree is gone, or whose fix has landed, are passed over. */
    method ReconcileBlockedReflows(conflicts: seq<string>, onDisk: set<string>, resolved: set<string>,
                                   now: real, staleAfter: real, cap: int, gate: set<string>)
      returns (emitted: seq<string>)
      requires forall i, j :: 0 <= i < j < |conflicts| ==> conflicts[i] != conflicts[j]
      modifies this
      ensures forall worktree :: At(worktree) ==
                if worktree in conflicts && worktree in onDisk && worktree !in resolved
                then Visit(old(At(worktree)), now, staleAfter, cap, worktree in gate).0 else old(At(worktree))
      ensures forall worktree :: worktree in emitted
                <==> worktree in conflicts && worktree in onDisk && worktree !in resolved
                     && Visit(old(At(worktree)), now, staleAfter, cap, worktree in gate).1.Minted?
    {
      emitted := [];
      assert conflicts[..|conflicts|] == conflicts;
      for i := 0 to |conflicts|
        invariant forall worktree :: At(worktree) ==
                    if worktree in conflicts[..i] && worktree in onDisk && worktree !in resolved
                    then Visit(old(At(worktree)), now, staleAfter, cap, worktree in gate).0 else old(At(worktree))
        invariant forall worktree :: worktree in emitted
                    <==> worktree in conflicts[..i] && worktree in onDisk && worktree !in resolved
                         && Visit(old(At(worktree)), now, staleAfter, cap, worktree in gate).1.Minted?
      {
        assert conflicts[..i + 1] == conflicts[..i] + [conflicts[i]];
        assert conflicts[i] !in conflicts[..i];
        if conflicts[i] in onDisk && conflicts[i] !in resolved {
          var outcome := VisitWorktree(conflicts[i], now, staleAfter, cap, conflicts[i] in gate);
          if outcome.Minted? { emitted := emitted + [conflicts[i]]; }
        }
      }
    }

    method ClearReflowConflictMintState(worktree: string)
      modifies this
      ensures At(worktree) == Cleared(old(At(worktree)))
      ensures forall other :: other != worktree ==> At(other) == old(At(other))
    {
      counts := counts - {worktree};
      escalated := escalated - {worktree};
    }
  }

  function Occurrences(worktrees: seq<string>, worktree: string): nat {
    if worktrees == [] then 0
    else Occurrences(worktrees[..|worktrees| - 1], worktree) + if worktrees[|worktrees| - 1] == worktree then 1 else 0
  }

  function Repeat(slot: Slot, times: nat, now: real, staleAfter: real, cap: int, accepted: bool): Slot {
    if times == 0 then slot
    else Visit(Repeat(slot, times - 1, now, staleAfter, cap, accepted), now, staleAfter, cap, accepted).0
  }

  predicate EverMints(slot: Slot, times: nat, now: real, staleAfter: real, cap: int, accepted: bool) {
    times > 0
    && (EverMints(slot, times - 1, now, staleAfter, cap, accepted)
        || Visit(Repeat(slot, times - 1, now, staleAfter, cap, accepted), now, staleAfter, cap, accepted).1.Minted?)
  }

  /** A worktree listed `times` times was visited as often, and is reported iff one of the visits minted. */
  predicate Tracks(was: Slot, slot: Slot, reported: bool, times: nat, now: real, staleAfter: real, cap: int, accepted: bool) {
    slot == Repeat(was, times, now, staleAfter, cap, accepted) && reported == EverMints(was, times, now, staleAfter, cap, accepted)
  }

  // ------------------------------------------------------------ one worktree over a whole run

  datatype Op = VisitAt(now: real, accepted: bool) | Clear

  /** All minting times; how many since the last clear; escalations since the last clear; the clock. */
  datatype State = State(slot: Slot, mints: seq<real>, sinceClear: nat, escalations: nat, clock: real)

  function Start(clock: real): State {
    State(NoFiles, [], 0, 0, clock)
  }

  /** A visit that would turn the clock back does not happen. */
  function Step(s: State, op: Op, staleAfter: real, cap: int): State {
    match op
    case Clear => State(Cleared(s.slot), s.mints, 0, 0, s.clock)
    case VisitAt(now, accepted) =>
      if now < s.clock then s
      else
        var visit := Visit(s.slot, now, staleAfter, cap, accepted);
        match visit.1
        case Minted => State(visit.0, s.mints + [now], s.sinceClear + 1, s.escalations, now)
        case Escalated => State(visit.0, s.mints, s.sinceClear, s.escalations + 1, now)
        case _ => s.(slot := visit.0, clock := now)
  }

  function Run(s: State, ops: seq<Op>, staleAfter: real, cap: int): State {
    if ops == [] then s else Step(Run(s, ops[..|ops| - 1], staleAfter, cap), ops[|ops| - 1], staleAfter, cap)
  }

  predicate Spaced(times: seq<real>, gap: real) {
    forall i | 0 <= i < |times| - 1 :: times[i + 1] - times[i] >= gap
  }

  ghost predicate Inv(s: State, staleAfter: real, cap: int) {
    && MintCount(s.slot) == s.sinceClear <= cap && s.sinceClear <= |s.mints|
    && s.escalations == (if s.slot.escalated then 1 else 0)
    && (s.escalations == 1 ==> s.sinceClear == cap)
    && s.slot.marker == (if s.mints == [] then None else Some(Written(s.mints[|s.mints| - 1])))
    && Spaced(s.mints, staleAfter)
    && (s.mints != [] ==> s.mints[|s.mints| - 1] <= s.clock)
  }

  lemma StepKeepsInv(s: State, op: Op, staleAfter: real, cap: int)
    requires cap >= 1 && Inv(s, staleAfter, cap)
    ensures Inv(Step(s, op, staleAfter, cap), staleAfter, cap)
  {
  }

  /** For any visits from any path, any failed emissions and any clears: two consecutive findings are
      always at least staleAfter apart, even across a clear; between clears there are at most cap
      findings and one escalation, and the escalation comes only after all cap of them. */
  lemma {:induction false} MintingIsBounded(clock: real, ops: seq<Op>, staleAfter: real, cap: int)
    requires cap >= 1
    ensures var s := Run(Start(clock), ops, staleAfter, cap);
            && Spaced(s.mints, staleAfter) && s.sinceClear <= cap && s.escalations <= 1
            && (s.escalations == 1 ==> s.sinceClear == cap)
            && Inv(s, staleAfter, cap)
  {
    if ops != [] {
      MintingIsBounded(clock, ops[..|ops| - 1], staleAfter, cap);
      StepKeepsInv(Run(Start(clock), ops[..|ops| - 1], staleAfter, cap), ops[|ops| - 1], staleAfter, cap);
    }
  }

  predicate ClearFree(ops: seq<Op>) {
    forall i :: 0 <= i < |ops| ==> ops[i].VisitAt?
  }

  /** All visits lie in the window that starts at `from`. */
  predicate InWindow(ops: seq<Op>, from: real, length: real) {
    forall i :: 0 <= i < |ops| && ops[i].VisitAt? ==> from <= ops[i].now <= from + length
  }

  /** What a stretch minted comes on top of what was minted before, within the window. */
  ghost predicate Grown(s: State, s': State, from: real, length: real) {
    && s.mints <= s'.mints && s'.sinceClear == s.sinceClear + (|s'.mints| - |s.mints|)
    && forall i :: |s.mints| <= i < |s'.mints| ==> from <= s'.mints[i] <= from + length
  }

  lemma VisitGrows(s: State, before: State, op: Op, staleAfter: real, cap: int, from: real, length: real)
    requires Grown(s, before, from, length) && op.VisitAt? && from <= op.now <= from + length
    ensures Grown(s, Step(before, op, staleAfter, cap), from, length)
  {
  }

  lemma {:induction false} StretchGrows(s: State, ops: seq<Op>, staleAfter: real, cap: int, from: real, length: real)
    requires cap >= 1 && Inv(s, staleAfter, cap) && ClearFree(ops) && InWindow(ops, from, length)
    ensures Inv(Run(s, ops, staleAfter, cap), staleAfter, cap) && Grown(s, Run(s, ops, staleAfter, cap), from, length)
  {
    if ops != [] {
      var before := Run(s, ops[..|ops| - 1], staleAfter, cap);
      StretchGrows(s, ops[..|ops| - 1], staleAfter, cap, from, length);
      StepKeepsInv(before, ops[|ops| - 1], staleAfter, cap);
      VisitGrows(s, before, ops[|ops| - 1], staleAfter, cap, from, length);
    }
  }

  lemma {:induction false} SpacedApart(times: seq<real>, gap: real, i: nat, j: nat)
    requires Spaced(times, gap) && i <= j < |times|
    ensures times[j] - times[i] >= (j - i) as real * gap
    decreases j
  {
    if i < j {
      SpacedApart(times, gap, i, j - 1);
      OneGapMore(j - 1 - i, gap);
      assert times[j - 1 + 1] - times[j - 1] >= gap;
    }
  }

  lemma OneGapMore(n: nat, gap: real)
    ensures (n + 1) as real * gap == n as real * gap + gap
  {
  }

  /** A clear-free window of length T holds at most min(cap, floor(T / staleAfter) + 1) findings. */
  lemma WindowBound(s: State, ops: seq<Op>, staleAfter: real, cap: int, from: real, length: real)
    requires staleAfter > 0.0 && length >= 0.0 && cap >= 1
    requires Inv(s, staleAfter, cap) && ClearFree(ops) && InWindow(ops, from, length)
    ensures |Run(s, ops, staleAfter, cap).mints| - |s.mints| <= Min(cap, (length / staleAfter).Floor + 1)
  {
    var s' := Run(s, ops, staleAfter, cap);
    StretchGrows(s, ops, staleAfter, cap, from, length);
    SpacedInWindow(s'.mints, |s.mints|, staleAfter, from, length);
  }

  lemma SpacedInWindow(times: seq<real>, first: nat, gap: real, from: real, length: real)
    requires gap > 0.0 && length >= 0.0 && Spaced(times, gap) && first <= |times|
    requires forall i :: first <= i < |times| ==> from <= times[i] <= from + length
    ensures |times| - first <= (length / gap).Floor + 1
  {
    if first < |times| {
      SpacedApart(times, gap, first, |times| - 1);
      FitsWindow(|times| - 1 - first, gap, length);
    } else {
      FitsWindow(0, gap, length);
    }
  }

  lemma FitsWindow(gaps: nat, staleAfter: real, length: real)
    requires staleAfter > 0.0 && gaps as real * staleAfter <= length
    ensures gaps <= (length / staleAfter).Floor
  {
    var q := length / staleAfter;
    assert q * staleAfter == length;
    if gaps as real > q {
      Scale(q, gaps as real, staleAfter);
      assert false;
    }
  }

  lemma Scale(a: real, b: real, c: real)
    requires a < b && c > 0.0
    ensures a * c < b * c
  {
  }

  /** Once escalated, a worktree stays silent until it is cleared. */
  lemma {:induction false} SilentAfterEscalation(s: State, ops: seq<Op>, staleAfter: real, cap: int)
    requires cap >= 1 && Inv(s, staleAfter, cap) && s.slot.escalated && ClearFree(ops)
    ensures var s' := Run(s, ops, staleAfter, cap); s'.mints == s.mints && s'.escalations == s.escalations && s'.slot == s.slot
  {
    if ops != [] { SilentAfterEscalation(s, ops[..|ops| - 1], staleAfter, cap); }
  }

  /** The bound is reached, and the escalation does come: visits spaced by staleAfter mint cap findings
      and then escalate. */
  lemma {:induction false} CapIsReached(n: nat, staleAfter: real, cap: nat) returns (ops: seq<Op>)
    requires staleAfter > 0.0 && cap >= 1 && n <= cap + 1
    ensures var s := Run(Start(0.0), ops, staleAfter, cap);
            && ClearFree(ops) && Inv(s, staleAfter, cap)
            && |s.mints| == s.sinceClear == (if n <= cap then n else cap)
            && s.escalations == (if n <= cap then 0 else 1)
  {
    if n == 0 {
      ops := [];
    } else {
      var before := CapIsReached(n - 1, staleAfter, cap);
      var s := Run(Start(0.0), before, staleAfter, cap);
      var visit := VisitAt(s.clock + staleAfter, true);
      ops := before + [visit];
      assert ops[..|ops| - 1] == before;
      StepKeepsInv(s, visit, staleAfter, cap);
    }
  }
}
