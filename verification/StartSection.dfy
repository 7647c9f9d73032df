/** Starting a session for a plan or task: any number of processes interleave entering the critical
    section, scanning for the key, acquiring and leaving, while others reap, release and beat. */
module StartSection {
  import opened SessionLock

  datatype Entry = Entry(key: string, file: LockFile)

  datatype Pc =
    | Outside
    | Inside(key: string)
    | Scanned(key: string, clear: bool)
    | Started(key: string)
    | Touching(sid: string, seen: Entry)

  /** `locks` are the lock files with the key their session works on; `held` is who holds each flock. */
  datatype State = State(locks: map<string, Entry>, held: map<string, nat>, pcs: map<nat, Pc>)

  const Start := State(map[], map[], map[])

  datatype Step =
    | Enter(p: nat, key: string)
    | Scan(p: nat, now: real, staleAfter: real, deadPids: set<int>)
    | Acquire(p: nat, sid: string, pid: int, now: real, staleAfter: real, deadPids: set<int>)
    | Leave(p: nat)                                   // also what a crash does: the system drops the flock
    | Reap(now: real, staleAfter: real, deadPids: set<int>)
    | Release(sid: string)
    | Touch(sid: string, now: real)
    | TouchRead(p: nat, sid: string)                  // the two halves of a heartbeat
    | TouchWrite(p: nat, now: real)

  function PcOf(s: State, p: nat): Pc {
    if p in s.pcs then s.pcs[p] else Outside
  }

  function Goto(s: State, p: nat, pc: Pc): State {
    s.(pcs := s.pcs[p := pc])
  }

  function Sweep(s: State, now: real, staleAfter: real, deadPids: set<int>): State {
    s.(locks := map sid | sid in s.locks && !Reapable(s.locks[sid].file, now, staleAfter, deadPids) :: s.locks[sid])
  }

  predicate HasSession(s: State, key: string) {
    exists sid | sid in s.locks :: s.locks[sid].key == key
  }

  predicate InSection(pc: Pc) { pc.Inside? || pc.Scanned? || pc.Started? }

  function Beat(e: Entry, now: real): Entry {
    if e.file.Lock? then e.(file := Lock(e.file.info.(touched := now.Floor))) else e
  }

  /** `guard` names the flock file of a key; keys may share one. */
  function Next(guard: string -> string, s: State, step: Step): State {
    match step
    case Enter(p, key) =>
      if PcOf(s, p).Outside? && guard(key) !in s.held then Goto(s.(held := s.held[guard(key) := p]), p, Inside(key)) else s
    case Scan(p, now, staleAfter, deadPids) =>
      if !PcOf(s, p).Inside? then s
      else
        var swept := Sweep(s, now, staleAfter, deadPids);
        var key := PcOf(s, p).key;
        Goto(swept, p, Scanned(key, !HasSession(swept, key)))
    case Acquire(p, sid, pid, now, staleAfter, deadPids) =>
      if !PcOf(s, p).Scanned? || !PcOf(s, p).clear then s
      else
        var swept := Sweep(s, now, staleAfter, deadPids);
        if sid in swept.locks then swept
        else
          var key := PcOf(s, p).key;
          Goto(swept.(locks := swept.locks[sid := Entry(key, Lock(Info(sid, pid, now.Floor)))]), p, Started(key))
    case Leave(p) =>
      if InSection(PcOf(s, p)) then Goto(s.(held := s.held - {guard(PcOf(s, p).key)}), p, Outside) else s
    case Reap(now, staleAfter, deadPids) => Sweep(s, now, staleAfter, deadPids)
    case Release(sid) => s.(locks := s.locks - {sid})
    case Touch(sid, now) => if sid in s.locks then s.(locks := s.locks[sid := Beat(s.locks[sid], now)]) else s
    case TouchRead(p, sid) =>
      if PcOf(s, p).Outside? && sid in s.locks then Goto(s, p, Touching(sid, s.locks[sid])) else s
    case TouchWrite(p, now) =>
      if !PcOf(s, p).Touching? then s
      else Goto(s.(locks := s.locks[PcOf(s, p).sid := Beat(PcOf(s, p).seen, now)]), p, Outside)
  }

  function Run(guard: string -> string, s: State, steps: seq<Step>): State {
    if steps == [] then s else Next(guard, Run(guard, s, steps[..|steps| - 1]), steps[|steps| - 1])
  }

  ghost predicate OnePerKey(s: State) {
    forall a, b :: a in s.locks && b in s.locks && s.locks[a].key == s.locks[b].key ==> a == b
  }

  predicate SameFile(s: State, sid: string, key: string) {
    sid in s.locks && s.locks[sid].key == key
  }

  // ------------------------------------------------------------ exactly when there is one session per key

  /** Before the n-th step. */
  function At(guard: string -> string, steps: seq<Step>, n: nat): State
    requires n <= |steps|
  {
    Run(guard, Start, steps[..n])
  }

  /** The late half of a heartbeat lands while another file carries the key it has seen. */
  predicate WritesBeside(s: State, step: Step) {
    && step.TouchWrite? && PcOf(s, step.p).Touching?
    && exists sid | sid in s.locks :: sid != PcOf(s, step.p).sid && s.locks[sid].key == PcOf(s, step.p).seen.key
  }

  /** The k-th step is the late half of a heartbeat, and leaves this file with this key. */
  predicate WritesBack(guard: string -> string, steps: seq<Step>, k: nat, sid: string, key: string)
    requires k < |steps|
  {
    var pc := if steps[k].TouchWrite? then PcOf(At(guard, steps, k), steps[k].p) else Outside;
    pc.Touching? && pc.sid == sid && pc.seen.key == key
  }

  predicate WrittenBack(guard: string -> string, steps: seq<Step>, n: nat, sid: string, key: string)
    requires n <= |steps|
  {
    exists k: nat | k < n :: WritesBack(guard, steps, k, sid, key)
  }

  /** The i-th step starts a session after a clear scan, beside a file of its key that a heartbeat wrote
      back and the acquire's own sweep leaves. */
  predicate StartsBeside(guard: string -> string, steps: seq<Step>, i: nat)
    requires i < |steps|
  {
    var s, step := At(guard, steps, i), steps[i];
    && step.Acquire? && PcOf(s, step.p).Scanned? && PcOf(s, step.p).clear
    && var swept := Sweep(s, step.now, step.staleAfter, step.deadPids);
    && step.sid !in swept.locks
    && exists sid | sid in swept.locks ::
         swept.locks[sid].key == PcOf(s, step.p).key && WrittenBack(guard, steps, i, sid, PcOf(s, step.p).key)
  }

  /** A process that has found its key clear meets only files of that key that were written back. */
  ghost predicate OnlyWrittenBack(guard: string -> string, steps: seq<Step>, n: nat, s: State, p: nat)
    requires n <= |steps|
  {
    PcOf(s, p).Scanned? && PcOf(s, p).clear ==>
      forall sid :: SameFile(s, sid, PcOf(s, p).key) ==> WrittenBack(guard, steps, n, sid, PcOf(s, p).key)
  }

  /** Inside the section a process holds its flock. */
  ghost predicate Holds(guard: string -> string, s: State, p: nat) {
    InSection(PcOf(s, p)) ==> guard(PcOf(s, p).key) in s.held && s.held[guard(PcOf(s, p).key)] == p
  }

  ghost predicate History(guard: string -> string, steps: seq<Step>, n: nat)
    requires n <= |steps|
  {
    var s := At(guard, steps, n);
    forall p: nat :: Holds(guard, s, p) && OnlyWrittenBack(guard, steps, n, s, p)
  }

  lemma AtNext(guard: string -> string, steps: seq<Step>, n: nat)
    requires n < |steps|
    ensures At(guard, steps, n + 1) == Next(guard, At(guard, steps, n), steps[n])
  {
    assert steps[..n + 1][..n] == steps[..n];
  }

  lemma HoldsNext(guard: string -> string, s: State, step: Step, p: nat)
    requires forall q: nat :: Holds(guard, s, q)
    ensures Holds(guard, Next(guard, s, step), p)
  {
    assert Holds(guard, s, p);
    match step
    case Leave(q) => assert Holds(guard, s, q);
    case Enter(q, _) => assert Holds(guard, s, q);
    case _ =>
  }

  /** A file with this key was there before, or was just started or written back. */
  lemma KeyCameFrom(guard: string -> string, s: State, step: Step, sid: string, key: string)
    requires SameFile(Next(guard, s, step), sid, key)
    ensures || SameFile(s, sid, key)
            || (step.Acquire? && PcOf(s, step.p).Scanned? && key == PcOf(s, step.p).key
                && PcOf(Next(guard, s, step), step.p).Started?)
            || (step.TouchWrite? && PcOf(s, step.p).Touching? && sid == PcOf(s, step.p).sid && key == PcOf(s, step.p).seen.key)
  {
  }

  /** A clear scan was made just now, or it was there before this step. */
  lemma ScannedCameFrom(guard: string -> string, s: State, step: Step, p: nat)
    requires PcOf(Next(guard, s, step), p).Scanned? && PcOf(Next(guard, s, step), p).clear
    ensures PcOf(s, p) == PcOf(Next(guard, s, step), p) || !HasSession(Next(guard, s, step), PcOf(Next(guard, s, step), p).key)
  {
  }

  lemma HistoryNext(guard: string -> string, steps: seq<Step>, n: nat)
    requires n < |steps| && History(guard, steps, n)
    ensures History(guard, steps, n + 1)
  {
    var s, s', step := At(guard, steps, n), At(guard, steps, n + 1), steps[n];
    AtNext(guard, steps, n);
    forall p: nat ensures Holds(guard, s', p) && OnlyWrittenBack(guard, steps, n + 1, s', p) {
      HoldsNext(guard, s, step, p);
      if PcOf(s', p).Scanned? && PcOf(s', p).clear {
        ScannedCameFrom(guard, s, step, p);
        var key := PcOf(s', p).key;
        forall sid | SameFile(s', sid, key) ensures WrittenBack(guard, steps, n + 1, sid, key) {
          FileIsWrittenBack(guard, steps, n, p, sid, key);
        }
      }
    }
  }

  lemma FileIsWrittenBack(guard: string -> string, steps: seq<Step>, n: nat, p: nat, sid: string, key: string)
    requires n < |steps| && History(guard, steps, n)
    requires var s' := Next(guard, At(guard, steps, n), steps[n]);
             && PcOf(s', p) == Scanned(key, true) && SameFile(s', sid, key)
             && (PcOf(At(guard, steps, n), p) == PcOf(s', p) || !HasSession(s', key))
    ensures WrittenBack(guard, steps, n + 1, sid, key)
  {
    var s, step := At(guard, steps, n), steps[n];
    KeyCameFrom(guard, s, step, sid, key);
    var starter := if step.Acquire? then step.p else p;
    assert Holds(guard, s, p) && Holds(guard, s, starter) && OnlyWrittenBack(guard, steps, n, s, p);
    if SameFile(s, sid, key) {
      assert WrittenBack(guard, steps, n, sid, key);
      var k: nat :| k < n && WritesBack(guard, steps, k, sid, key);
    } else if step.TouchWrite? {
      assert WritesBack(guard, steps, n, sid, key);
    }
  }

  lemma {:induction false} HistoryHolds(guard: string -> string, steps: seq<Step>, n: nat)
    requires n <= |steps|
    ensures History(guard, steps, n)
  {
    if n == 0 {
      assert steps[..0] == [];
      assert forall p: nat :: PcOf(Start, p).Outside?;
    } else {
      HistoryHolds(guard, steps, n - 1);
      HistoryNext(guard, steps, n - 1);
    }
  }

  lemma WriteSplitsIff(guard: string -> string, s: State, step: Step)
    requires OnePerKey(s) && step.TouchWrite? && PcOf(s, step.p).Touching?
    ensures OnePerKey(Next(guard, s, step)) <==> !WritesBeside(s, step)
  {
    var s', sid := Next(guard, s, step), PcOf(s, step.p).sid;
    assert s'.locks[sid].key == PcOf(s, step.p).seen.key;
    if other :| other in s.locks && other != sid && s.locks[other].key == PcOf(s, step.p).seen.key {
      assert other in s'.locks && s'.locks[other].key == s'.locks[sid].key;
    }
  }

  predicate FindsFile(s: State, step: Step) {
    && step.Acquire? && PcOf(s, step.p).Scanned? && PcOf(s, step.p).clear
    && step.sid !in Sweep(s, step.now, step.staleAfter, step.deadPids).locks
    && HasSession(Sweep(s, step.now, step.staleAfter, step.deadPids), PcOf(s, step.p).key)
  }

  lemma AcquireSplitsIff(guard: string -> string, s: State, step: Step)
    requires OnePerKey(s) && step.Acquire?
    ensures OnePerKey(Next(guard, s, step)) <==> !FindsFile(s, step)
  {
    if PcOf(s, step.p).Scanned? && PcOf(s, step.p).clear {
      var s', key := Next(guard, s, step), PcOf(s, step.p).key;
      var swept := Sweep(s, step.now, step.staleAfter, step.deadPids);
      if step.sid !in swept.locks && HasSession(swept, key) {
        var other :| other in swept.locks && swept.locks[other].key == key;
        assert other in s'.locks && s'.locks[other].key == s'.locks[step.sid].key;
      }
    }
  }

  lemma OtherStepsKeep(guard: string -> string, s: State, step: Step)
    requires OnePerKey(s) && !step.Acquire? && !(step.TouchWrite? && PcOf(s, step.p).Touching?)
    ensures OnePerKey(Next(guard, s, step))
  {
    var s' := Next(guard, s, step);
    assert forall sid :: sid in s'.locks ==> SameFile(s, sid, s'.locks[sid].key);
  }

  /** What a clear acquire can still find was written back. */
  lemma FoundIsWrittenBack(guard: string -> string, steps: seq<Step>, i: nat)
    requires i < |steps| && History(guard, steps, i)
    ensures FindsFile(At(guard, steps, i), steps[i]) <==> StartsBeside(guard, steps, i)
  {
    var s, step := At(guard, steps, i), steps[i];
    if FindsFile(s, step) {
      var swept, key := Sweep(s, step.now, step.staleAfter, step.deadPids), PcOf(s, step.p).key;
      var sid :| sid in swept.locks && swept.locks[sid].key == key;
      assert OnlyWrittenBack(guard, steps, i, s, step.p) && SameFile(s, sid, key);
      assert WrittenBack(guard, steps, i, sid, key);
    }
  }

  lemma StepSplitsIff(guard: string -> string, steps: seq<Step>, i: nat)
    requires i < |steps| && OnePerKey(At(guard, steps, i))
    ensures OnePerKey(At(guard, steps, i + 1)) <==> !WritesBeside(At(guard, steps, i), steps[i]) && !StartsBeside(guard, steps, i)
  {
    var s, step := At(guard, steps, i), steps[i];
    AtNext(guard, steps, i);
    HistoryHolds(guard, steps, i);
    FoundIsWrittenBack(guard, steps, i);
    if step.Acquire? {
      AcquireSplitsIff(guard, s, step);
    } else if step.TouchWrite? && PcOf(s, step.p).Touching? {
      WriteSplitsIff(guard, s, step);
    } else {
      OtherStepsKeep(guard, s, step);
    }
  }

  ghost predicate AlwaysOnePerKey(guard: string -> string, steps: seq<Step>) {
    forall n: nat :: n <= |steps| ==> OnePerKey(At(guard, steps, n))
  }

  ghost predicate NothingBeside(guard: string -> string, steps: seq<Step>) {
    forall i: nat :: i < |steps| ==> !WritesBeside(At(guard, steps, i), steps[i]) && !StartsBeside(guard, steps, i)
  }

  lemma {:induction false} OneUpTo(guard: string -> string, steps: seq<Step>, n: nat)
    requires NothingBeside(guard, steps) && n <= |steps|
    ensures OnePerKey(At(guard, steps, n))
  {
    if n == 0 {
      assert steps[..0] == [];
    } else {
      OneUpTo(guard, steps, n - 1);
      StepSplitsIff(guard, steps, n - 1);
    }
  }

  /** At no moment of an interleaving are there two sessions for one key iff no late half of a heartbeat
      lands beside a file of the key it has seen, and none writes a file back under the eyes of a process
      that has found its key clear and then starts. */
  lemma OneSessionPerKey(guard: string -> string, steps: seq<Step>)
    ensures AlwaysOnePerKey(guard, steps) <==> NothingBeside(guard, steps)
  {
    if AlwaysOnePerKey(guard, steps) {
      forall i: nat | i < |steps| ensures !WritesBeside(At(guard, steps, i), steps[i]) && !StartsBeside(guard, steps, i) {
        StepSplitsIff(guard, steps, i);
      }
    }
    if NothingBeside(guard, steps) {
      forall n: nat | n <= |steps| ensures OnePerKey(At(guard, steps, n)) { OneUpTo(guard, steps, n); }
    }
  }

  predicate WholeBeats(steps: seq<Step>) {
    forall i :: 0 <= i < |steps| ==> !steps[i].TouchWrite?
  }

  /** So heartbeats in one piece are safe, whatever else interleaves. */
  lemma WholeBeatsAreSafe(guard: string -> string, steps: seq<Step>)
    requires WholeBeats(steps)
    ensures AlwaysOnePerKey(guard, steps)
  {
    OneSessionPerKey(guard, steps);
  }

  // ------------------------------------------------------------ the heartbeat that comes too late

  lemma After(guard: string -> string, steps: seq<Step>, step: Step) returns (longer: seq<Step>)
    ensures Run(guard, Start, longer) == Next(guard, Run(guard, Start, steps), step)
  {
    longer := steps + [step];
    assert longer[..|longer| - 1] == steps;
  }

  /** A session's command reads its file just before another process finds it stale, takes the key over
      and writes it back just after: two sessions for one key, whatever the key and the threshold. */
  lemma LateBeatDoubles(guard: string -> string, key: string, first: string, second: string, staleAfter: nat)
    returns (steps: seq<Step>)
    requires first != second
    ensures !OnePerKey(Run(guard, Start, steps))
  {
    steps := StartsAlone(guard, key, first, staleAfter);
    assert PcOf(Run(guard, Start, steps), 1).Outside? && PcOf(Run(guard, Start, steps), 2).Outside?;
    steps := After(guard, steps, TouchRead(2, first));
    assert PcOf(Run(guard, Start, steps), 1).Outside?;
    steps := TakesOver(guard, key, first, second, staleAfter, steps);
    steps := After(guard, steps, TouchWrite(2, staleAfter as real));
    assert first in Run(guard, Start, steps).locks && second in Run(guard, Start, steps).locks;
  }

  lemma StartsAlone(guard: string -> string, key: string, sid: string, staleAfter: nat) returns (steps: seq<Step>)
    ensures var s := Run(guard, Start, steps);
            && s.locks == map[sid := Entry(key, Lock(Info(sid, 0, 0)))] && s.held == map[]
            && forall p: nat :: PcOf(s, p).Outside?
  {
    steps := After(guard, [], Enter(1, key));
    steps := After(guard, steps, Scan(1, 0.0, staleAfter as real, {}));
    steps := After(guard, steps, Step.Acquire(1, sid, 0, 0.0, staleAfter as real, {}));
    steps := After(guard, steps, Leave(1));
  }

  lemma TakesOver(guard: string -> string, key: string, first: string, second: string, staleAfter: nat, before: seq<Step>)
    returns (steps: seq<Step>)
    requires first != second
    requires var s := Run(guard, Start, before);
             && s.locks == map[first := Entry(key, Lock(Info(first, 0, 0)))] && s.held == map[]
             && PcOf(s, 1).Outside? && PcOf(s, 2) == Touching(first, s.locks[first])
    ensures var s := Run(guard, Start, steps);
            second in s.locks && s.locks[second].key == key
            && PcOf(s, 2) == Touching(first, Entry(key, Lock(Info(first, 0, 0))))
  {
    var late := staleAfter as real + 1.0;
    steps := After(guard, before, Enter(1, key));
    steps := After(guard, steps, Scan(1, late, staleAfter as real, {}));
    assert Run(guard, Start, steps).locks == map[];
    assert !HasSession(Run(guard, Start, steps), key);
    steps := After(guard, steps, Step.Acquire(1, second, 0, late, staleAfter as real, {}));
  }
}
