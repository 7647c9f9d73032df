/** The per-session lock files and their heartbeats. */
module SessionLock {
  import opened Prelude

  /** `touched` is the last heartbeat in whole seconds; pid 0 says that no process stays alive behind
      the session. */
  datatype Info = Info(sid: string, pid: int, touched: int)

  datatype LockFile = Malformed | Lock(info: Info)

  type Locks = map<string, LockFile>

  /** Dead process, or no heartbeat for longer than staleAfter. */
  predicate IsStale(info: Info, now: real, staleAfter: real, deadPids: set<int>) {
    (info.pid > 0 && info.pid in deadPids) || now - info.touched as real > staleAfter
  }

  predicate Reapable(file: LockFile, now: real, staleAfter: real, deadPids: set<int>) {
    file.Lock? ==> IsStale(file.info, now, staleAfter, deadPids)
  }

  function Reaped(locks: Locks, now: real, staleAfter: real, deadPids: set<int>): Locks {
    map sid | sid in locks && !Reapable(locks[sid], now, staleAfter, deadPids) :: locks[sid]
  }

  /** The file names a session whose process is not known dead and whose heartbeat is young enough. */
  ghost predicate Lives(file: LockFile, now: real, staleAfter: real, deadPids: set<int>) {
    && file != Malformed
    && (file.info.pid <= 0 || file.info.pid !in deadPids)
    && now <= file.info.touched as real + staleAfter
  }

  /** What a reaped file is recorded as: the session it names, or its own name when it names none. */
  function NameOf(path: string, file: LockFile): string {
    if file.Lock? then file.info.sid else path
  }

  const CAPITALS := "ABCDEFGHIJKLMNOPQRSTUVWXYZ"
  const SMALL := "abcdefghijklmnopqrstuvwxyz"
  const DIGITS := "0123456789"
  const ALLOWED := CAPITALS + SMALL + DIGITS + "_-"

  predicate ValidSessionId(sid: string) {
    sid != "" && forall i | 0 <= i < |sid| :: sid[i] in ALLOWED
  }

  ghost predicate WordCharacter(c: char) {
    'A' <= c <= 'Z' || 'a' <= c <= 'z' || '0' <= c <= '9' || c == '_' || c == '-'
  }

  lemma CapitalMeans(c: char)
    ensures c in CAPITALS <==> 'A' <= c <= 'Z'
  {
    if 'A' <= c <= 'Z' { assert CAPITALS[c as int - 65] == c; }
  }

  lemma SmallMeans(c: char)
    ensures c in SMALL <==> 'a' <= c <= 'z'
  {
    if 'a' <= c <= 'z' { assert SMALL[c as int - 97] == c; }
  }

  lemma DigitMeans(c: char)
    ensures c in DIGITS <==> '0' <= c <= '9'
  {
    if '0' <= c <= '9' { assert DIGITS[c as int - 48] == c; }
  }

  lemma AllowedMeans(c: char)
    ensures c in ALLOWED <==> WordCharacter(c)
  {
    CapitalMeans(c);
    SmallMeans(c);
    DigitMeans(c);
    assert c in ALLOWED <==> c in CAPITALS || c in SMALL || c in DIGITS || c in "_-";
  }

  lemma ValidMeans(sid: string)
    ensures ValidSessionId(sid) <==> sid != "" && forall i :: 0 <= i < |sid| ==> WordCharacter(sid[i])
  {
    forall i | 0 <= i < |sid| ensures sid[i] in ALLOWED <==> WordCharacter(sid[i]) { AllowedMeans(sid[i]); }
  }

  datatype Resolved = Session(info: Info) | NoSession | UnknownSession | AmbiguousSessions

  datatype Acquired = Acquired | InvalidId | DuplicateSession

  /** The file's content names the session. */
  predicate Carries(locks: Locks, path: string, sid: string) {
    path in locks && locks[path].Lock? && locks[path].info.sid == sid
  }

  /** The order of the directory listing. */
  predicate PathLe(a: string, b: string) {
    LexLe(a + ".json", b + ".json")
  }

  /** The first file of the listing that names the session. */
  predicate FirstCarrier(locks: Locks, path: string, sid: string) {
    && Carries(locks, path, sid)
    && forall other | other in locks :: Carries(locks, other, sid) ==> LexLe(path + ".json", other + ".json")
  }

  datatype Command =
    | Resolve(explicit: Option<string>, now: real, deadPids: set<int>)
    | Acquire(sid: string, pid: int, startedAt: int, now: real, deadPids: set<int>)
    | Release(sid: string)
    | Reap(now: real, deadPids: set<int>)

  /** The lock files after a command. Resolving refreshes the file under the resolved session's name,
      which need not be the file that names it. */
  ghost function After(locks: Locks, c: Command, staleAfter: real): Locks {
    match c
    case Release(sid) => locks - {sid}
    case Reap(now, deadPids) => Reaped(locks, now, staleAfter, deadPids)
    case Acquire(sid, pid, startedAt, now, deadPids) =>
      var live := Reaped(locks, now, staleAfter, deadPids);
      if !ValidSessionId(sid) then locks else if sid in live then live else live[sid := Lock(Info(sid, pid, startedAt))]
    case Resolve(explicit, now, deadPids) =>
      var live := Reaped(locks, now, staleAfter, deadPids);
      if explicit.Some? then if exists path :: Carries(live, path, explicit.value) then Touched(live, explicit.value, now) else live
      else if path :| live.Keys == {path} then Touched(live, live[path].info.sid, now)
      else live
  }

  class Registry {
    var locks: Locks

    constructor ()
      ensures locks == map[]
    {
      locks := map[];
    }

    method ReapStale(now: real, staleAfter: real, deadPids: set<int>) returns (reaped: set<string>)
      modifies this
      ensures locks == After(old(locks), Command.Reap(now, deadPids), staleAfter)
      ensures forall path :: path in locks <==> path in old(locks) && Lives(old(locks)[path], now, staleAfter, deadPids)
      ensures forall name :: name in reaped <==>
                exists path :: path in old(locks) && path !in locks
                               && name == (match old(locks)[path] case Malformed => path case Lock(info) => info.sid)
    {
      ghost var was := locks;
      var todo := locks.Keys;
      reaped := {};
      while todo != {}
        invariant todo <= was.Keys
        invariant locks == map path | path in was && (path in todo || !Reapable(was[path], now, staleAfter, deadPids)) :: was[path]
        invariant forall name :: name in reaped <==> exists path :: path in was && path !in locks && name == NameOf(path, was[path])
        decreases |todo|
      {
        var path :| path in todo;
        todo := todo - {path};
        if locks[path].Malformed? || IsStale(locks[path].info, now, staleAfter, deadPids) {
          reaped := reaped + {NameOf(path, locks[path])};
          locks := locks - {path};
        }
      }
    }

    method Acquire(sid: string, pid: int, startedAt: int, now: real, staleAfter: real, deadPids: set<int>)
      returns (acquired: Acquired)
      modifies this
      ensures locks == After(old(locks), Command.Acquire(sid, pid, startedAt, now, deadPids), staleAfter)
      ensures acquired.InvalidId? <==> sid == "" || exists i :: 0 <= i < |sid| && !WordCharacter(sid[i])
      ensures acquired.DuplicateSession? ==> sid in locks && sid in Reaped(old(locks), now, staleAfter, deadPids)
      ensures acquired.Acquired? ==> sid in locks && sid !in Reaped(old(locks), now, staleAfter, deadPids)
    {
      ValidMeans(sid);
      if !ValidSessionId(sid) { return InvalidId; }
      var _ := ReapStale(now, staleAfter, deadPids);
      if sid in locks { return DuplicateSession; }
      locks := locks[sid := Lock(Info(sid, pid, startedAt))];
      return Acquired.Acquired;
    }

    method Touch(sid: string, now: real)
      modifies this
      ensures locks == Touched(old(locks), sid, now)
    {
      if sid in locks && locks[sid].Lock? {
        locks := locks[sid := Lock(locks[sid].info.(touched := now.Floor))];
      }
    }

    method FirstThatNames(sid: string) returns (path: Option<string>)
      ensures path.Some? ==> FirstCarrier(locks, path.value, sid)
      ensures path.None? ==> forall other :: !Carries(locks, other, sid)
    {
      path := None;
      var todo := locks.Keys;
      while todo != {}
        invariant todo <= locks.Keys
        invariant path.Some? ==> FirstCarrier(locks - todo, path.value, sid)
        invariant path.None? ==> forall other :: !Carries(locks - todo, other, sid)
        decreases |todo|
      {
        var next :| next in todo;
        if locks[next].Lock? && locks[next].info.sid == sid {
          if path.None? || !PathLe(path.value, next) {
            FirstOfMore(locks - todo, path, next, sid);
            path := Some(next);
          }
        }
        ghost var seen := locks - todo;
        todo := todo - {next};
        assert forall other :: Carries(locks - todo, other, sid) ==> other == next || Carries(seen, other, sid);
      }
      assert locks - todo == locks;
    }

    /** An explicit id resolves to the first live file that names it, or to nothing; without one, only a
        single live session is taken. The resolved session gets a heartbeat. */
    method Resolve(explicit: Option<string>, now: real, staleAfter: real, deadPids: set<int>) returns (r: Resolved)
      modifies this
      ensures locks == After(old(locks), Command.Resolve(explicit, now, deadPids), staleAfter)
      ensures var live := Reaped(old(locks), now, staleAfter, deadPids);
              match r
              case Session(info) =>
                exists path :: path in live && live[path] == Lock(info)
                  && if explicit.Some? then FirstCarrier(live, path, explicit.value) else live.Keys == {path}
              case NoSession => explicit.None? && live == map[]
              case UnknownSession => explicit.Some? && forall path :: !Carries(live, path, explicit.value)
              case AmbiguousSessions => explicit.None? && |live| > 1
    {
      var _ := ReapStale(now, staleAfter, deadPids);
      if explicit.Some? {
        var path := FirstThatNames(explicit.value);
        if path.None? { return UnknownSession; }
        r := Session(locks[path.value].info);
        Touch(explicit.value, now);
        return;
      }
      if locks.Keys == {} { return NoSession; }
      if |locks.Keys| > 1 {
        assert |locks| == |locks.Keys|;
        return AmbiguousSessions;
      }
      var path :| path in locks.Keys;
      OnlyMember(locks.Keys, path);
      r := Session(locks[path].info);
      Touch(locks[path].info.sid, now);
    }

    method Release(sid: string) returns (existed: bool)
      modifies this
      ensures existed == (sid in old(locks)) && locks == After(old(locks), Command.Release(sid), 0.0)
    {
      existed := sid in locks;
      locks := locks - {sid};
    }
  }

  function Touched(locks: Locks, sid: string, now: real): Locks {
    if sid in locks && locks[sid].Lock? then locks[sid := Lock(locks[sid].info.(touched := now.Floor))] else locks
  }

  lemma FirstOfMore(locks: Locks, first: Option<string>, next: string, sid: string)
    requires if first.Some? then FirstCarrier(locks, first.value, sid) && !PathLe(first.value, next)
             else forall other :: !Carries(locks, other, sid)
    ensures forall other :: Carries(locks, other, sid) ==> LexLe(next + ".json", other + ".json")
    ensures LexLe(next + ".json", next + ".json")
  {
    LexTotal(next + ".json", next + ".json");
    if first.Some? {
      LexTotal(first.value + ".json", next + ".json");
      forall other | Carries(locks, other, sid) ensures LexLe(next + ".json", other + ".json") {
        LexTransitive(next + ".json", first.value + ".json", other + ".json");
      }
    }
  }

  lemma OnlyMember(keys: set<string>, sid: string)
    requires sid in keys && |keys| <= 1
    ensures keys == {sid}
  {
    assert |keys - {sid}| == |keys| - 1;
    assert keys - {sid} == {};
  }

  // ------------------------------------------------------------ heartbeats

  /** A heartbeat at time `at` protects a living session against a reap `gap` later. */
  predicate Protects(at: real, gap: real, staleAfter: real) {
    !((at + gap) - at.Floor as real > staleAfter)
  }

  /** The heartbeat is cut to whole seconds: a gap is safe after every heartbeat iff it is at most
      staleAfter - 1. A gap of staleAfter itself is not, unless the heartbeat fell on a whole second. */
  lemma GapSafeIff(gap: real, staleAfter: real)
    ensures (forall at: real :: at >= 0.0 ==> Protects(at, gap, staleAfter)) <==> gap <= staleAfter - 1.0
  {
    if gap <= staleAfter - 1.0 {
      forall at: real | at >= 0.0 ensures Protects(at, gap, staleAfter) {
        assert at - at.Floor as real < 1.0;
      }
    } else {
      // the fraction lies between staleAfter - gap and 1
      var fraction := if gap > staleAfter then 0.0 else (staleAfter - gap + 1.0) / 2.0;
      assert 0.0 <= fraction < 1.0 && fraction + gap > staleAfter;
      assert fraction.Floor == 0;
      assert !Protects(fraction, gap, staleAfter);
    }
  }

  ghost function Run(locks: Locks, commands: seq<Command>, staleAfter: real): Locks
    decreases |commands|
  {
    if commands == [] then locks else Run(After(locks, commands[0], staleAfter), commands[1..], staleAfter)
  }

  /** Every command that reaps, the session's own included, comes at most `gap` after the session's last
      heartbeat and never finds its process dead; nobody releases it. */
  predicate Attended(sid: string, pid: int, last: real, commands: seq<Command>, gap: real)
    decreases |commands|
  {
    commands == [] ||
    if commands[0].Release? then commands[0].sid != sid && Attended(sid, pid, last, commands[1..], gap)
    else
      && 0.0 <= last <= commands[0].now <= last + gap && (pid <= 0 || pid !in commands[0].deadPids)
      && Attended(sid, pid, if commands[0] == Command.Resolve(Some(sid), commands[0].now, commands[0].deadPids)
                            then commands[0].now else last, commands[1..], gap)
  }

  /** The session's own file is there, and is as young as its last heartbeat, cut to whole seconds. */
  predicate Beats(locks: Locks, sid: string, pid: int, last: real) {
    Carries(locks, sid, sid) && locks[sid].info.pid == pid && locks[sid].info.touched >= last.Floor
  }

  lemma BeatsOn(locks: Locks, c: Command, sid: string, pid: int, last: real, staleAfter: real)
    requires Beats(locks, sid, pid, last) && Attended(sid, pid, last, [c], staleAfter - 1.0)
    ensures Beats(After(locks, c, staleAfter), sid, pid, last)
    ensures c.Resolve? && c.explicit == Some(sid) ==> Beats(After(locks, c, staleAfter), sid, pid, c.now)
  {
    if !c.Release? {
      assert last - last.Floor as real < 1.0;
      assert !IsStale(locks[sid].info, c.now, staleAfter, c.deadPids);
      assert Carries(Reaped(locks, c.now, staleAfter, c.deadPids), sid, sid);
    }
  }

  lemma {:induction false} BeatsThroughout(locks: Locks, commands: seq<Command>, sid: string, pid: int, last: real, staleAfter: real)
    requires Beats(locks, sid, pid, last) && Attended(sid, pid, last, commands, staleAfter - 1.0)
    ensures Carries(Run(locks, commands, staleAfter), sid, sid)
    decreases |commands|
  {
    if commands != [] {
      var c := commands[0];
      assert [c][1..] == [];
      BeatsOn(locks, c, sid, pid, last, staleAfter);
      var beat := c.Resolve? && c.explicit == Some(sid);
      BeatsThroughout(After(locks, c, staleAfter), commands[1..], sid, pid, if beat then c.now else last, staleAfter);
    }
  }

  ghost predicate AlwaysSurvives(gap: real, staleAfter: real) {
    forall locks, commands, sid, pid, last ::
      Beats(locks, sid, pid, last) && Attended(sid, pid, last, commands, gap) ==> Carries(Run(locks, commands, staleAfter), sid, sid)
  }

  /** Every session that is attended within the gap, and whose process lives or was never named, keeps its
      file through all commands of all sessions iff the gap is at most staleAfter - 1. */
  lemma BeatingSessionSurvives(gap: real, staleAfter: real)
    requires gap >= 0.0
    ensures AlwaysSurvives(gap, staleAfter) <==> gap <= staleAfter - 1.0
  {
    if gap <= staleAfter - 1.0 {
      forall locks, commands, sid, pid, last | Beats(locks, sid, pid, last) && Attended(sid, pid, last, commands, gap)
        ensures Carries(Run(locks, commands, staleAfter), sid, sid)
      {
        AttendedWider(sid, pid, last, commands, gap, staleAfter - 1.0);
        BeatsThroughout(locks, commands, sid, pid, last, staleAfter);
      }
    } else {
      GapSafeIff(gap, staleAfter);
      var at :| at >= 0.0 && !Protects(at, gap, staleAfter);
      var locks := map["a" := Lock(Info("a", 0, at.Floor))];
      var commands := [Command.Reap(at + gap, {})];
      assert commands[1..] == [];
      assert Beats(locks, "a", 0, at) && Attended("a", 0, at, commands, gap);
      assert Run(locks, commands, staleAfter) == After(locks, commands[0], staleAfter);
    }
  }

  lemma {:induction false} AttendedWider(sid: string, pid: int, last: real, commands: seq<Command>, gap: real, wider: real)
    requires Attended(sid, pid, last, commands, gap) && gap <= wider
    ensures Attended(sid, pid, last, commands, wider)
    decreases |commands|
  {
    if commands != [] {
      var c := commands[0];
      AttendedWider(sid, pid, if c.Resolve? && c.explicit == Some(sid) then c.now else last, commands[1..], gap, wider);
    }
  }
}
