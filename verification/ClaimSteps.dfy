/** The claim protocol at the grain of single file operations, for one slug and any number of
    processes, with no reaper. Every step is one system call; a process that stops taking steps has
    crashed. */
module ClaimSteps {
  import opened Prelude

  /** The claim file's text: empty between truncation and write, else a JSON body. */
  datatype Text = Blank | Body(claimant: string, token: nat)

  /** The directory entry: which inode the path names, and its text. */
  datatype ClaimFile = ClaimFile(inode: nat, text: Text)

  datatype FenceFile = Absent | Empty | Count(n: nat)

  /** Where a process is inside claim_task, renew_claim or release_claim. */
  datatype Pc =
    | Idle
    | Created(inode: nat)
    | GotFence(inode: nat, cur: nat)
    | Truncated(inode: nat, cur: nat)
    | Fenced(inode: nat, token: nat)
    | RenewRead(token: nat)
    | RenewOpen(inode: nat, token: nat)
    | Releasing

  datatype Event = Won(pid: nat, token: nat) | Freed(pid: nat)

  /** `drawn` and `events` only record history; no step looks at them. */
  datatype State = State(
    claim: Option<ClaimFile>, fence: FenceFile, nextInode: nat, pcs: map<nat, Pc>,
    drawn: nat, events: seq<Event>)

  const Start := State(None, Absent, 0, map[], 0, [])

  function PcOf(s: State, p: nat): Pc {
    if p in s.pcs then s.pcs[p] else Idle
  }

  function Goto(s: State, p: nat, pc: Pc): State {
    s.(pcs := s.pcs[p := pc])
  }

  /** A write through an open descriptor reaches the path only while the path names that inode. */
  function WriteInode(s: State, inode: nat, text: Text): State {
    if s.claim.Some? && s.claim.value.inode == inode then s.(claim := Some(ClaimFile(inode, text))) else s
  }

  function ReadFence(f: FenceFile): nat {
    if f.Count? then f.n else 0
  }

  predicate Verify(s: State, token: int) {
    s.fence.Count? && token == s.fence.n
  }

  /** The claim on disk is readable and carries the caller's name. */
  predicate HeldAs(s: State, who: string) {
    s.claim.Some? && s.claim.value.text.Body? && s.claim.value.text.claimant == who
  }

  datatype Step = Claim(pid: nat) | Renew(pid: nat) | Release(pid: nat) | Advance(pid: nat)

  /** Claim, Renew and Release make the first system call of an idle process; Advance makes the next
      one. A call that fails, or a step that is not enabled, changes nothing. */
  function Next(name: nat -> string, s: State, step: Step): State {
    var p := step.pid;
    match step
    case Claim(_) =>
      if PcOf(s, p).Idle? && s.claim.None? then
        Goto(s.(claim := Some(ClaimFile(s.nextInode, Blank)), nextInode := s.nextInode + 1), p, Created(s.nextInode))
      else s
    case Renew(_) =>
      if PcOf(s, p).Idle? && HeldAs(s, name(p)) then Goto(s, p, RenewRead(s.claim.value.text.token)) else s
    case Release(_) =>
      if PcOf(s, p).Idle? && HeldAs(s, name(p)) then Goto(s, p, Releasing) else s
    case Advance(_) =>
      match PcOf(s, p)
      case Idle => s
      case Created(i) => Goto(s, p, GotFence(i, ReadFence(s.fence)))
      case GotFence(i, cur) => Goto(s.(fence := Empty), p, Truncated(i, cur))
      case Truncated(i, cur) => Goto(s.(fence := Count(cur + 1), drawn := s.drawn + 1), p, Fenced(i, cur + 1))
      case Fenced(i, token) =>
        Goto(WriteInode(s, i, Body(name(p), token)), p, Idle).(events := s.events + [Won(p, token)])
      case RenewRead(token) =>
        // the open truncates the file the path names, and creates one when there is none
        if s.claim.Some? then Goto(WriteInode(s, s.claim.value.inode, Blank), p, RenewOpen(s.claim.value.inode, token))
        else Goto(s.(claim := Some(ClaimFile(s.nextInode, Blank)), nextInode := s.nextInode + 1), p, RenewOpen(s.nextInode, token))
      case RenewOpen(i, token) => Goto(WriteInode(s, i, Body(name(p), token)), p, Idle)
      case Releasing => Goto(s.(claim := None), p, Idle).(events := s.events + [Freed(p)])
  }

  function FollowedBy(name: nat -> string, s: State, p: nat, calls: nat): State {
    if calls == 0 then s else Next(name, FollowedBy(name, s, p, calls - 1), Advance(p))
  }

  /** Left alone, the five system calls of a claim are the claim: on a free slot the process wins with the
      token after the one in the fence file, which the fence file then holds; on a taken one nothing happens.
      On the way the claim file is blank until the last call, and the fence file empty after the third. */
  lemma ClaimUndisturbed(name: nat -> string, s: State, p: nat)
    requires PcOf(s, p) == Idle
    ensures var s' := FollowedBy(name, Next(name, s, Claim(p)), p, 4);
            if s.claim.Some? then s' == s
            else
              var token := (match s.fence case Count(n) => n + 1 case _ => 1);
              && s'.claim == Some(ClaimFile(s.nextInode, Body(name(p), token))) && s'.fence == Count(token)
              && s'.drawn == s.drawn + 1 && s'.events == s.events + [Won(p, token)]
              && s'.nextInode > s.nextInode && (forall q: nat :: PcOf(s', q) == PcOf(s, q))
              && FollowedBy(name, Next(name, s, Claim(p)), p, 2).fence == Empty
              && FollowedBy(name, Next(name, s, Claim(p)), p, 3).claim == Some(ClaimFile(s.nextInode, Blank))
  {
    var s1 := Next(name, s, Claim(p));
    var s2 := Next(name, s1, Advance(p));
    var s3 := Next(name, s2, Advance(p));
    var s4 := Next(name, s3, Advance(p));
    assert FollowedBy(name, s1, p, 1) == s2;
    assert FollowedBy(name, s1, p, 2) == s3;
    assert FollowedBy(name, s1, p, 3) == s4;
  }

  /** Left alone, renewing an own claim blanks the file and writes it back as it was, and releasing it frees
      the slot; neither does anything to a claim under another name. */
  lemma RenewReleaseUndisturbed(name: nat -> string, s: State, p: nat)
    requires PcOf(s, p) == Idle
    ensures var renewed, released := FollowedBy(name, Next(name, s, Renew(p)), p, 2), FollowedBy(name, Next(name, s, Release(p)), p, 1);
            if s.claim.Some? && s.claim.value.text.Body? && s.claim.value.text.claimant == name(p) then
              && FollowedBy(name, Next(name, s, Renew(p)), p, 1).claim == Some(ClaimFile(s.claim.value.inode, Blank))
              && renewed == s.(pcs := renewed.pcs)
              && released == s.(claim := None, pcs := released.pcs, events := s.events + [Freed(p)])
              && forall q: nat :: PcOf(renewed, q) == PcOf(s, q) && PcOf(released, q) == PcOf(s, q)
            else renewed == s && released == s
  {
    var s1 := Next(name, s, Renew(p));
    assert FollowedBy(name, s1, p, 1) == Next(name, s1, Advance(p));
  }

  function Run(name: nat -> string, s: State, steps: seq<Step>): State {
    if steps == [] then s else Next(name, Run(name, s, steps[..|steps| - 1]), steps[|steps| - 1])
  }

  ghost predicate Injective(name: nat -> string) {
    forall p, q :: name(p) == name(q) ==> p == q
  }

  /** The tokens returned so far, oldest first. */
  function Wins(events: seq<Event>): seq<nat> {
    if events == [] then []
    else
      var before := Wins(events[..|events| - 1]);
      var last := events[|events| - 1];
      if last.Won? then before + [last.token] else before
  }

  lemma WinsAppend(before: seq<Event>, last: Event)
    ensures Wins(before + [last]) == Wins(before) + if last.Won? then [last.token] else []
  {
    assert (before + [last])[..|before|] == before;
  }

  ghost predicate Steady(s: State) {
    s.fence == if s.drawn == 0 then Absent else Count(s.drawn)
  }

  predicate InClaim(pc: Pc) {
    pc.Created? || pc.GotFence? || pc.Truncated? || pc.Fenced?
  }

  /** What the process that owns the claim file sees at each point of its program. */
  ghost predicate OwnerInv(name: nat -> string, s: State, p: nat)
    requires s.claim.Some?
  {
    var file := s.claim.value;
    match PcOf(s, p)
    case Idle => file.text == Body(name(p), s.drawn) && Steady(s)
    case Created(i) => file == ClaimFile(i, Blank) && Steady(s)
    case GotFence(i, cur) => file == ClaimFile(i, Blank) && Steady(s) && cur == s.drawn
    case Truncated(i, cur) => file == ClaimFile(i, Blank) && s.fence == Empty && cur == s.drawn
    case Fenced(i, token) => file == ClaimFile(i, Blank) && Steady(s) && token == s.drawn
    case RenewRead(token) => file.text == Body(name(p), s.drawn) && Steady(s) && token == s.drawn
    case RenewOpen(i, token) => file == ClaimFile(i, Blank) && Steady(s) && token == s.drawn
    case Releasing => file.text == Body(name(p), s.drawn) && Steady(s)
  }

  /** Every other process is idle, and the file, if there is one, belongs to `owner`. */
  ghost predicate Owned(name: nat -> string, s: State, owner: Option<nat>) {
    && (forall p: nat :: owner != Some(p) ==> PcOf(s, p).Idle?)
    && s.claim.Some? == owner.Some?
    && (if owner.Some? then OwnerInv(name, s, owner.value) else Steady(s))
  }

  /** Wins and releases alternate, the i-th win got token i, and exactly the drawn tokens were returned,
      but for one that its owner is about to return. */
  ghost predicate History(s: State, owner: Option<nat>) {
    && (forall i :: 0 <= i < |s.events| ==> s.events[i].Won? == (i % 2 == 0))
    && (forall i :: 0 <= i < |Wins(s.events)| ==> Wins(s.events)[i] == i + 1)
    && |s.events| % 2 == (if owner.Some? && !InClaim(PcOf(s, owner.value)) then 1 else 0)
    && s.drawn == |Wins(s.events)| + (if owner.Some? && PcOf(s, owner.value).Fenced? then 1 else 0)
  }

  ghost predicate Inv(name: nat -> string, s: State) {
    exists owner :: Owned(name, s, owner) && History(s, owner)
  }

  function OwnerAfter(name: nat -> string, s: State, owner: Option<nat>, step: Step): Option<nat> {
    var s' := Next(name, s, step);
    if s'.claim.None? then None else if owner.None? then Some(step.pid) else owner
  }

  lemma OwnedKept(name: nat -> string, s: State, owner: Option<nat>, step: Step)
    requires Injective(name) && Owned(name, s, owner)
    ensures Owned(name, Next(name, s, step), OwnerAfter(name, s, owner, step))
  {
    if owner != Some(step.pid) {
      assert PcOf(s, step.pid).Idle?;
      if owner.Some? && HeldAs(s, name(step.pid)) {
        assert false;
      }
    }
  }

  lemma HistoryKept(name: nat -> string, s: State, owner: Option<nat>, step: Step)
    requires Injective(name) && Owned(name, s, owner) && History(s, owner)
    ensures History(Next(name, s, step), OwnerAfter(name, s, owner, step))
  {
    if owner == Some(step.pid) {
      OwnHistoryKept(name, s, step);
    } else {
      assert PcOf(s, step.pid).Idle?;
      OthersHistoryKept(name, s, owner, step);
    }
  }

  lemma WinKeepsHistory(s: State, s': State, p: nat)
    requires History(s, Some(p)) && PcOf(s, p).Fenced? && PcOf(s', p).Idle?
    requires s'.events == s.events + [Won(p, s.drawn)] && s'.drawn == s.drawn
    ensures History(s', Some(p))
  {
    WinsAppend(s.events, Won(p, s.drawn));
  }

  lemma ReleaseKeepsHistory(s: State, s': State, p: nat)
    requires History(s, Some(p)) && PcOf(s, p).Releasing?
    requires s'.events == s.events + [Freed(p)] && s'.drawn == s.drawn
    ensures History(s', None)
  {
    WinsAppend(s.events, Freed(p));
  }

  /** A step of the owner logs nothing, or the one event that its program counter announces. */
  lemma OwnHistoryKept(name: nat -> string, s: State, step: Step)
    requires Owned(name, s, Some(step.pid)) && History(s, Some(step.pid))
    ensures History(Next(name, s, step), OwnerAfter(name, s, Some(step.pid), step))
  {
    var pc := PcOf(s, step.pid);
    var s' := Next(name, s, step);
    if step.Advance? && pc.Fenced? {
      WinKeepsHistory(s, s', step.pid);
    } else if step.Advance? && pc.Releasing? {
      ReleaseKeepsHistory(s, s', step.pid);
    } else {
      assert s'.events == s.events;
    }
  }

  /** A step of an idle process that does not own the file logs nothing. */
  lemma OthersHistoryKept(name: nat -> string, s: State, owner: Option<nat>, step: Step)
    requires Injective(name) && Owned(name, s, owner) && History(s, owner)
    requires owner != Some(step.pid) && PcOf(s, step.pid).Idle?
    ensures History(Next(name, s, step), OwnerAfter(name, s, owner, step))
  {
    var s' := Next(name, s, step);
    assert s'.events == s.events && s'.drawn == s.drawn;
    if owner.Some? && HeldAs(s, name(step.pid)) {
      assert false;
    }
  }

  lemma {:induction false} RunInv(name: nat -> string, steps: seq<Step>)
    requires Injective(name)
    ensures Inv(name, Run(name, Start, steps))
  {
    if steps == [] {
      assert Owned(name, Start, None) && History(Start, None);
    } else {
      var before := Run(name, Start, steps[..|steps| - 1]);
      RunInv(name, steps[..|steps| - 1]);
      var owner :| Owned(name, before, owner) && History(before, owner);
      OwnedKept(name, before, owner, steps[|steps| - 1]);
      HistoryKept(name, before, owner, steps[|steps| - 1]);
    }
  }

  /** Fencing, for every interleaving of any number of differently named processes: successful claims
      return 1, 2, 3, ...; between two successes somebody released; only the newest drawn token can
      verify, and it does whenever no claim is in the middle of drawing one. */
  lemma FencingHolds(name: nat -> string, steps: seq<Step>)
    requires Injective(name)
    ensures var s := Run(name, Start, steps);
            && (forall i :: 0 <= i < |Wins(s.events)| ==> Wins(s.events)[i] == i + 1)
            && (forall i :: 0 <= i < |s.events| ==> s.events[i].Won? == (i % 2 == 0))
            && |Wins(s.events)| <= s.drawn <= |Wins(s.events)| + 1
            && (forall t :: Verify(s, t) ==> t == s.drawn)
            && ((forall p: nat :: !InClaim(PcOf(s, p))) && s.drawn > 0 ==> Verify(s, |Wins(s.events)|))
  {
    var s := Run(name, Start, steps);
    RunInv(name, steps);
    var owner :| Owned(name, s, owner) && History(s, owner);
  }

  /** Once a token has been superseded it verifies in no later state. */
  lemma {:induction false} SupersededStaysDead(name: nat -> string, steps: seq<Step>, more: seq<Step>, t: nat)
    requires Injective(name) && t < Run(name, Start, steps).drawn
    ensures !Verify(Run(name, Start, steps + more), t)
  {
    DrawnGrows(name, steps, more);
    FencingHolds(name, steps + more);
  }

  lemma {:induction false} DrawnGrows(name: nat -> string, steps: seq<Step>, more: seq<Step>)
    ensures Run(name, Start, steps).drawn <= Run(name, Start, steps + more).drawn
  {
    if more == [] {
      assert steps + more == steps;
    } else {
      var all := steps + more;
      assert all[..|all| - 1] == steps + more[..|more| - 1];
      DrawnGrows(name, steps, more[..|more| - 1]);
    }
  }

  ghost predicate TokensUnique(name: nat -> string, steps: seq<Step>) {
    var wins := Wins(Run(name, Start, steps).events);
    forall i, j :: 0 <= i < j < |wins| ==> wins[i] != wins[j]
  }

  /** Tokens are unique in every interleaving iff no two processes share a claimant name. */
  lemma UniqueIffNamesDistinct(name: nat -> string)
    ensures (forall steps :: TokensUnique(name, steps)) <==> Injective(name)
  {
    if Injective(name) {
      forall steps ensures TokensUnique(name, steps) { FencingHolds(name, steps); }
    } else {
      var p, q :| name(p) == name(q) && p != q;
      var steps := TwinsCollide(name, p, q);
      assert !TokensUnique(name, steps);
    }
  }

  /** Two processes that go by one name can both be handed token 2: q's release has read p's old claim,
      and unlinks the new one, so both are inside claim_task when they read the fence. */
  lemma TwinsCollide(name: nat -> string, p: nat, q: nat) returns (steps: seq<Step>)
    requires name(p) == name(q) && p != q
    ensures !TokensUnique(name, steps)
  {
    steps := FirstWin(name, p);
    steps := TwinsReleaseTwice(name, p, q, steps);
    steps := TwinsBothInside(name, p, q, steps);
    steps := TwinsBothDraw(name, p, q, steps);
    TwinWins(p, q);
    var wins := Wins(Run(name, Start, steps).events);
    assert Run(name, Start, steps).events == [Won(p, 1), Freed(p), Freed(q), Won(q, 2), Won(p, 2)];
    assert wins[1] == wins[2];
  }

  lemma TwinWins(p: nat, q: nat)
    ensures Wins([Won(p, 1), Freed(p), Freed(q), Won(q, 2), Won(p, 2)]) == [1, 2, 2]
  {
    WinsAppend([], Won(p, 1));
    assert [] + [Won(p, 1)] == [Won(p, 1)];
    WinsAppend([Won(p, 1)], Freed(p));
    assert [Won(p, 1)] + [Freed(p)] == [Won(p, 1), Freed(p)];
    WinsAppend([Won(p, 1), Freed(p)], Freed(q));
    assert [Won(p, 1), Freed(p)] + [Freed(q)] == [Won(p, 1), Freed(p), Freed(q)];
    WinsAppend([Won(p, 1), Freed(p), Freed(q)], Won(q, 2));
    assert [Won(p, 1), Freed(p), Freed(q)] + [Won(q, 2)] == [Won(p, 1), Freed(p), Freed(q), Won(q, 2)];
    WinsAppend([Won(p, 1), Freed(p), Freed(q), Won(q, 2)], Won(p, 2));
    assert [Won(p, 1), Freed(p), Freed(q), Won(q, 2)] + [Won(p, 2)] == [Won(p, 1), Freed(p), Freed(q), Won(q, 2), Won(p, 2)];
  }

  lemma After(name: nat -> string, steps: seq<Step>, step: Step) returns (longer: seq<Step>)
    ensures Run(name, Start, longer) == Next(name, Run(name, Start, steps), step)
  {
    longer := steps + [step];
    assert longer[..|longer| - 1] == steps;
  }

  lemma FirstWin(name: nat -> string, p: nat) returns (steps: seq<Step>)
    ensures var s := Run(name, Start, steps);
            && s.claim.Some? && s.claim.value.text == Body(name(p), 1) && s.fence == Count(1)
            && (forall r: nat :: PcOf(s, r).Idle?) && s.events == [Won(p, 1)]
  {
    steps := After(name, [], Claim(p));
    steps := After(name, steps, Advance(p));
    steps := After(name, steps, Advance(p));
    steps := After(name, steps, Advance(p));
    steps := After(name, steps, Advance(p));
  }

  lemma TwinsReleaseTwice(name: nat -> string, p: nat, q: nat, before: seq<Step>) returns (steps: seq<Step>)
    requires name(p) == name(q) && p != q
    requires var s := Run(name, Start, before);
             && s.claim.Some? && s.claim.value.text == Body(name(p), 1) && s.fence == Count(1)
             && (forall r: nat :: PcOf(s, r).Idle?)
    ensures var s := Run(name, Start, steps);
            && s.claim.None? && s.fence == Count(1) && PcOf(s, p).Idle? && PcOf(s, q).Releasing?
            && s.events == Run(name, Start, before).events + [Freed(p)]
  {
    assert PcOf(Run(name, Start, before), p).Idle? && PcOf(Run(name, Start, before), q).Idle?;
    steps := After(name, before, Release(p));
    assert PcOf(Run(name, Start, steps), q).Idle?;
    steps := After(name, steps, Release(q));
    steps := After(name, steps, Advance(p));
  }

  lemma TwinsBothInside(name: nat -> string, p: nat, q: nat, before: seq<Step>) returns (steps: seq<Step>)
    requires p != q
    requires var s := Run(name, Start, before);
             s.claim.None? && s.fence == Count(1) && PcOf(s, p).Idle? && PcOf(s, q).Releasing?
    ensures var s := Run(name, Start, steps);
            && PcOf(s, p).GotFence? && PcOf(s, q).GotFence? && PcOf(s, p).cur == PcOf(s, q).cur == 1
            && s.events == Run(name, Start, before).events + [Freed(q)]
  {
    steps := After(name, before, Claim(p));
    steps := After(name, steps, Advance(p));
    steps := After(name, steps, Advance(q));
    steps := After(name, steps, Claim(q));
    steps := After(name, steps, Advance(q));
  }

  lemma TwinsBothDraw(name: nat -> string, p: nat, q: nat, before: seq<Step>) returns (steps: seq<Step>)
    requires p != q
    requires var s := Run(name, Start, before);
             PcOf(s, p).GotFence? && PcOf(s, q).GotFence? && PcOf(s, p).cur == PcOf(s, q).cur == 1
    ensures Run(name, Start, steps).events == Run(name, Start, before).events + [Won(q, 2), Won(p, 2)]
  {
    steps := TwinDraws(name, q, before);
    assert PcOf(Run(name, Start, steps), p) == PcOf(Run(name, Start, before), p);
    steps := TwinDraws(name, p, steps);
  }

  lemma TwinDraws(name: nat -> string, p: nat, before: seq<Step>) returns (steps: seq<Step>)
    requires PcOf(Run(name, Start, before), p).GotFence? && PcOf(Run(name, Start, before), p).cur == 1
    ensures Run(name, Start, steps).events == Run(name, Start, before).events + [Won(p, 2)]
    ensures forall other: nat :: other != p ==> PcOf(Run(name, Start, steps), other) == PcOf(Run(name, Start, before), other)
  {
    steps := After(name, before, Advance(p));
    steps := After(name, steps, Advance(p));
    steps := After(name, steps, Advance(p));
  }
}
