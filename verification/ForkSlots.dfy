/** The concurrency cap on verification forks: a semaphore, and beside it a counter that is changed in a
    step of its own. Any number of processes interleave. */
module ForkSlots {

  datatype Pc = Outside | Permitted | Counted | Uncounted

  /** `permits` are what is left of the semaphore. */
  datatype State = State(permits: int, inFlight: int, pcs: map<nat, Pc>)

  function Start(cap: nat): State {
    State(cap, 0, map[])
  }

  function PcOf(s: State, p: nat): Pc {
    if p in s.pcs then s.pcs[p] else Outside
  }

  datatype Step = Acquire(p: nat) | Enter(p: nat) | Exit(p: nat) | Release(p: nat)

  /** A step that is not enabled, such as acquiring without a permit left, does not happen. */
  function Next(s: State, step: Step): State {
    var pc := PcOf(s, step.p);
    match step
    case Acquire(p) =>
      if pc.Outside? && s.permits > 0 then State(s.permits - 1, s.inFlight, s.pcs[p := Permitted]) else s
    case Enter(p) => if pc.Permitted? then State(s.permits, s.inFlight + 1, s.pcs[p := Counted]) else s
    case Exit(p) => if pc.Counted? then State(s.permits, s.inFlight - 1, s.pcs[p := Uncounted]) else s
    case Release(p) => if pc.Uncounted? then State(s.permits + 1, s.inFlight, s.pcs[p := Outside]) else s
  }

  function Run(cap: nat, steps: seq<Step>): State {
    if steps == [] then Start(cap) else Next(Run(cap, steps[..|steps| - 1]), steps[|steps| - 1])
  }

  function Inside(s: State): set<nat> {
    set p | p in s.pcs && s.pcs[p].Counted?
  }

  function Holding(s: State): set<nat> {
    set p | p in s.pcs && !s.pcs[p].Outside?
  }

  ghost predicate Inv(cap: nat, s: State) {
    s.permits >= 0 && s.permits + |Holding(s)| == cap && s.inFlight == |Inside(s)|
  }

  lemma StepKeepsInv(cap: nat, s: State, step: Step)
    requires Inv(cap, s)
    ensures Inv(cap, Next(s, step))
  {
    match step {
      case Acquire(p) => if Next(s, step) != s { Gains(s, p); }
      case Enter(p) => if Next(s, step) != s { Enters(s, p); }
      case Exit(p) => if Next(s, step) != s { Leaves(s, p); }
      case Release(p) => if Next(s, step) != s { Loses(s, p); }
    }
  }

  lemma Gains(s: State, p: nat)
    requires PcOf(s, p).Outside? && s.permits > 0
    ensures |Holding(Next(s, Acquire(p)))| == |Holding(s)| + 1 && Inside(Next(s, Acquire(p))) == Inside(s)
  {
    assert Holding(Next(s, Acquire(p))) == Holding(s) + {p} && p !in Holding(s);
  }

  lemma Enters(s: State, p: nat)
    requires PcOf(s, p).Permitted?
    ensures |Inside(Next(s, Enter(p)))| == |Inside(s)| + 1 && Holding(Next(s, Enter(p))) == Holding(s)
  {
    assert Inside(Next(s, Enter(p))) == Inside(s) + {p} && p !in Inside(s);
  }

  lemma Leaves(s: State, p: nat)
    requires PcOf(s, p).Counted?
    ensures |Inside(Next(s, Exit(p)))| == |Inside(s)| - 1 && Holding(Next(s, Exit(p))) == Holding(s)
  {
    assert Inside(Next(s, Exit(p))) == Inside(s) - {p} && p in Inside(s);
  }

  lemma Loses(s: State, p: nat)
    requires PcOf(s, p).Uncounted?
    ensures |Holding(Next(s, Release(p)))| == |Holding(s)| - 1 && Inside(Next(s, Release(p))) == Inside(s)
  {
    assert Holding(Next(s, Release(p))) == Holding(s) - {p} && p in Holding(s);
  }

  /** At no moment of any interleaving are more than cap forks inside; the counter is always their number,
      and what it leaves available is never less than the permits that are left. */
  lemma {:induction false} CapHolds(cap: nat, steps: seq<Step>)
    ensures var s := Run(cap, steps);
            && Inv(cap, s) && s.inFlight == |Inside(s)| <= cap
            && 0 <= s.permits <= cap - s.inFlight
            && (cap - s.inFlight == s.permits <==> Holding(s) == Inside(s))
  {
    if steps == [] {
      assert Holding(Start(cap)) == {} && Inside(Start(cap)) == {};
    } else {
      CapHolds(cap, steps[..|steps| - 1]);
      StepKeepsInv(cap, Run(cap, steps[..|steps| - 1]), steps[|steps| - 1]);
    }
    var s := Run(cap, steps);
    assert Inside(s) <= Holding(s);
    PartSize(Inside(s), Holding(s));
  }

  lemma PartSize(part: set<nat>, whole: set<nat>)
    requires part <= whole
    ensures |part| <= |whole| && (|part| == |whole| <==> whole == part)
  {
    assert whole == part + (whole - part);
  }
}
