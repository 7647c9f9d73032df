/** The dead-letter inbox: entries moving through five states, and an index of the active ones. Stated
    for any filename slug and any re-entry cap. */
module DeadLetter {
  import opened Prelude

  datatype Status = Enqueued | UnderTriage | Escalated | Redispatched | Retired

  datatype Reason = Unroutable | StructuralFailure | CircuitTripped

  datatype RetireReason = Manual | AgedOut | ReentryExhausted | Deterministic

  datatype Entry = Entry(
    ref: string, reason: Reason, enteredAt: real, status: Status, count: nat, returning: bool,
    retireReason: Option<RetireReason>)

  datatype Key = Key(slug: string, reason: Reason)

  /** `entries` by id, ids in order of creation; `active` is the directory of key files. */
  datatype Box = Box(entries: map<nat, Entry>, active: map<Key, nat>, nextId: nat)

  const Empty := Box(map[], map[], 0)

  predicate Terminal(e: Entry) { e.status.Redispatched? || e.status.Retired? }

  predicate Ageable(e: Entry) { e.status.Enqueued? || e.status.Escalated? }

  function KeyOf(slug: string -> string, e: Entry): Key {
    Key(slug(e.ref), e.reason)
  }

  // ------------------------------------------------------------ the state machine of one entry

  datatype Move = StartTriage | DecideRedispatch | DecideRetire(why: RetireReason) | DecideEscalate
                | RedispatchFailed | ApplyAnswer | AgeOut

  /** The entry after a legal move; None where the code raises. */
  function After(e: Entry, move: Move, cap: int): Option<Entry> {
    match move
    case StartTriage => if e.status.Enqueued? then Some(e.(status := UnderTriage)) else None
    case DecideRedispatch =>
      if e.status.UnderTriage? && e.count < cap then Some(e.(status := Redispatched)) else None
    case DecideRetire(why) =>
      if e.status.UnderTriage? then Some(e.(status := Retired, retireReason := Some(why))) else None
    case DecideEscalate => if e.status.UnderTriage? then Some(e.(status := Escalated)) else None
    case RedispatchFailed =>
      if !e.status.UnderTriage? then None
      else if e.count + 1 >= cap then
        Some(e.(status := Retired, count := e.count + 1, returning := true, retireReason := Some(ReentryExhausted)))
      else Some(e.(status := Enqueued, count := e.count + 1, returning := true))
    case ApplyAnswer => if e.status.Escalated? then Some(e.(status := UnderTriage)) else None
    case AgeOut => if Ageable(e) then Some(e.(status := Retired, retireReason := Some(AgedOut))) else None
  }

  /** The states a move is made in. */
  ghost function MovesFrom(move: Move): set<Status> {
    match move
    case StartTriage => {Enqueued}
    case ApplyAnswer => {Escalated}
    case AgeOut => {Enqueued, Escalated}
    case _ => {UnderTriage}
  }

  /** What a move does to an entry. A failed redispatch counts up and sends the entry back to the queue,
      or retires it at the cap; nothing is redispatched at the cap. */
  ghost predicate Goes(e: Entry, move: Move, cap: int, e': Entry) {
    var failed := move == RedispatchFailed;
    && e.status in MovesFrom(move) && (move == DecideRedispatch ==> e.count < cap)
    && (e'.ref, e'.reason, e'.enteredAt) == (e.ref, e.reason, e.enteredAt)
    && e'.count - e.count == (if failed then 1 else 0) && e'.returning == (failed || e.returning)
    && (e'.status == Redispatched <==> move == DecideRedispatch)
    && (e'.status == Escalated <==> move == DecideEscalate)
    && (e'.status == UnderTriage <==> move in {StartTriage, ApplyAnswer})
    && (e'.status == Enqueued <==> failed && e'.count < cap)
    && (e'.status != Retired ==> e'.retireReason == e.retireReason)
    && (e'.status == Retired ==>
          e'.retireReason == Some(if move.DecideRetire? then move.why else if failed then ReentryExhausted else AgedOut))
  }

  lemma AfterMeans(e: Entry, move: Move, cap: int)
    ensures After(e, move, cap).Some? <==> e.status in MovesFrom(move) && (move == DecideRedispatch ==> e.count < cap)
    ensures After(e, move, cap).Some? ==> Goes(e, move, cap, After(e, move, cap).value)
  {
  }

  // ------------------------------------------------------------ the box

  function EntryAt(box: Box, id: nat): Option<Entry> {
    if id in box.entries then Some(box.entries[id]) else None
  }

  /** _write_entry: the entry file, and its key file as the entry's state asks. */
  function Write(slug: string -> string, box: Box, id: nat, e: Entry): Box {
    box.(entries := box.entries[id := e],
         active := if Terminal(e) then box.active - {KeyOf(slug, e)} else box.active[KeyOf(slug, e) := id])
  }

  function ActiveFor(slug: string -> string, box: Box, ref: string, reason: Reason): Option<nat> {
    var key := Key(slug(ref), reason);
    if key in box.active && box.active[key] in box.entries && !Terminal(box.entries[box.active[key]])
    then Some(box.active[key]) else None
  }

  predicate Prior(box: Box, id: nat, ref: string, reason: Reason) {
    id in box.entries && box.entries[id].ref == ref && box.entries[id].reason == reason && Terminal(box.entries[id])
  }

  /** The highest count among the terminal entries of the object and reason with an id below n; -1
      without any. */
  function PriorMax(box: Box, ref: string, reason: Reason, n: nat): (count: int)
    ensures count >= -1
    ensures forall id: nat :: id < n && Prior(box, id, ref, reason) ==> box.entries[id].count <= count
  {
    if n == 0 then -1
    else
      var before := PriorMax(box, ref, reason, n - 1);
      if Prior(box, n - 1, ref, reason) then Max(before, box.entries[n - 1].count) else before
  }

  function NewEntry(box: Box, ref: string, reason: Reason, now: real): Entry {
    var prior := PriorMax(box, ref, reason, box.nextId);
    Entry(ref, reason, now, Status.Enqueued, prior + 1, prior >= 0, None)
  }

  function EnqueueBox(slug: string -> string, box: Box, ref: string, reason: Reason, now: real): Box {
    if ActiveFor(slug, box, ref, reason).Some? then box
    else Write(slug, box, box.nextId, NewEntry(box, ref, reason, now)).(nextId := box.nextId + 1)
  }

  function MoveBox(slug: string -> string, box: Box, id: nat, move: Move, cap: int): Box {
    if id in box.entries && After(box.entries[id], move, cap).Some?
    then Write(slug, box, id, After(box.entries[id], move, cap).value) else box
  }

  predicate Overdue(e: Entry, ttl: real, now: real) {
    Ageable(e) && now - e.enteredAt > ttl
  }

  function Aged(e: Entry): Entry {
    e.(status := Retired, retireReason := Some(AgedOut))
  }

  function SweptEntry(e: Entry, ttl: real, now: real): Entry {
    if Overdue(e, ttl, now) then Aged(e) else e
  }

  /** The box once the sweep has dealt with the ids below n: overdue entries are aged out, and their key
      files are gone. */
  function SweepBox(box: Box, ttl: real, now: real, n: nat): Box {
    Box(map id | id in box.entries :: if id < n then SweptEntry(box.entries[id], ttl, now) else box.entries[id],
        map key | key in box.active && !SweptAway(box, box.active[key], ttl, now, n) :: box.active[key],
        box.nextId)
  }

  predicate SweptAway(box: Box, id: nat, ttl: real, now: real, n: nat) {
    id < n && id in box.entries && Overdue(box.entries[id], ttl, now)
  }

  /** A key file exists iff an entry that is not terminal has that key, and it names that entry. */
  ghost predicate Indexed(slug: string -> string, box: Box) {
    && (forall id :: id in box.entries ==> id < box.nextId)
    && (forall key :: key in box.active ==> ActiveAt(slug, box, key, box.active[key]))
    && (forall id :: id in box.entries && !Terminal(box.entries[id])
          ==> KeyOf(slug, box.entries[id]) in box.active && box.active[KeyOf(slug, box.entries[id])] == id)
  }

  predicate ActiveAt(slug: string -> string, box: Box, key: Key, id: nat) {
    id in box.entries && !Terminal(box.entries[id]) && KeyOf(slug, box.entries[id]) == key
  }

  // ------------------------------------------------------------ the code

  class Inbox {
    const slug: string -> string
    const cap: int
    var entries: map<nat, Entry>
    var active: map<Key, nat>
    var nextId: nat

    ghost function Contents(): Box
      reads this
    {
      Box(entries, active, nextId)
    }

    constructor (slug: string -> string, cap: int)
      ensures this.slug == slug && this.cap == cap && Contents() == Empty
    {
      this.slug, this.cap := slug, cap;
      entries, active, nextId := map[], map[], 0;
    }

    method WriteEntry(id: nat, e: Entry)
      modifies this`entries, this`active
      ensures Contents() == Write(slug, old(Contents()), id, e)
    {
      entries := entries[id := e];
      var key := KeyOf(slug, e);
      if Terminal(e) { active := active - {key}; } else { active := active[key := id]; }
    }

    method PriorTerminalReentry(ref: string, reason: Reason) returns (count: int)
      ensures count == PriorMax(Contents(), ref, reason, nextId)
    {
      count := -1;
      for id := 0 to nextId
        invariant count == PriorMax(Contents(), ref, reason, id)
      {
        if id in entries && entries[id].ref == ref && entries[id].reason == reason && Terminal(entries[id]) {
          count := Max(count, entries[id].count);
        }
      }
    }

    method Enqueue(ref: string, reason: Reason, now: real) returns (id: nat)
      modifies this
      ensures Contents() == EnqueueBox(slug, old(Contents()), ref, reason, now)
      ensures var existing := ActiveFor(slug, old(Contents()), ref, reason);
              id == if existing.Some? then existing.value else old(nextId)
    {
      var key := Key(slug(ref), reason);
      if key in active && active[key] in entries && !Terminal(entries[active[key]]) { return active[key]; }
      var prior := PriorTerminalReentry(ref, reason);
      id := nextId;
      WriteEntry(id, Entry(ref, reason, now, Status.Enqueued, prior + 1, prior >= 0, None));
      nextId := nextId + 1;
    }

    /** Each decide_*, start_triage, redispatch_failed, apply_escalation_answer and age_out. */
    method Transition(id: nat, move: Move) returns (ok: bool)
      modifies this
      ensures Contents() == MoveBox(slug, old(Contents()), id, move, cap)
      ensures ok <==> id in old(entries) && old(entries)[id].status in MovesFrom(move)
                      && (move == DecideRedispatch ==> old(entries)[id].count < cap)
      ensures ok ==> id in entries && Goes(old(entries)[id], move, cap, entries[id]) && entries == old(entries)[id := entries[id]]
      ensures !ok ==> Contents() == old(Contents())
    {
      if id !in entries { return false; }
      AfterMeans(entries[id], move, cap);
      var after := After(entries[id], move, cap);
      if after.None? { return false; }
      WriteEntry(id, after.value);
      return true;
    }

    method AgeOutOne(id: nat)
      requires id in entries
      modifies this`entries, this`active
      ensures Contents() == Write(slug, old(Contents()), id, Aged(old(entries)[id]))
    {
      WriteEntry(id, entries[id].(status := Retired, retireReason := Some(AgedOut)));
    }

    method SweepAgedOut(ttl: real, now: real) returns (aged: seq<nat>)
      requires Indexed(slug, Contents())
      modifies this
      ensures Contents() == SweepBox(old(Contents()), ttl, now, old(nextId))
      ensures forall id :: id in aged <==>
                id in old(entries) && old(entries)[id].status in {Enqueued, Escalated} && now - old(entries)[id].enteredAt > ttl
      ensures entries.Keys == old(entries).Keys
      ensures forall id :: id in entries ==>
                if id in aged then Goes(old(entries)[id], AgeOut, cap, entries[id]) else entries[id] == old(entries)[id]
    {
      ghost var was := Contents();
      aged := [];
      SweepNothing(was, ttl, now);
      for id := 0 to nextId
        invariant nextId == was.nextId && Contents() == SweepBox(was, ttl, now, id)
        invariant forall k :: k in aged <==> SweptAway(was, k, ttl, now, id)
      {
        SweepOne(slug, was, ttl, now, id);
        NotYetSwept(was, ttl, now, id);
        var overdue := AgeOutIfOverdue(id, ttl, now);
        if overdue { aged := aged + [id]; }
      }
      SweptMeans(was, ttl, now, cap);
    }

    method AgeOutIfOverdue(id: nat, ttl: real, now: real) returns (overdue: bool)
      modifies this`entries, this`active
      ensures overdue == (id in old(entries) && Overdue(old(entries)[id], ttl, now))
      ensures Contents() == if overdue then Write(slug, old(Contents()), id, Aged(old(entries)[id])) else old(Contents())
    {
      overdue := id in entries && Ageable(entries[id]) && now - entries[id].enteredAt > ttl;
      if overdue { AgeOutOne(id); }
    }
  }

  lemma SweepNothing(box: Box, ttl: real, now: real)
    ensures SweepBox(box, ttl, now, 0) == box
  {
  }

  /** An id not dealt with yet is still as it was. */
  lemma NotYetSwept(box: Box, ttl: real, now: real, id: nat)
    ensures EntryAt(SweepBox(box, ttl, now, id), id) == EntryAt(box, id)
  {
  }

  /** Exactly the entries that wait or are escalated for longer than ttl are aged out. */
  lemma SweptMeans(box: Box, ttl: real, now: real, cap: int)
    requires forall id :: id in box.entries ==> id < box.nextId
    ensures var swept := SweepBox(box, ttl, now, box.nextId);
            && swept.entries.Keys == box.entries.Keys
            && forall id :: id in box.entries ==> if SweptAway(box, id, ttl, now, box.nextId)
                 then Goes(box.entries[id], AgeOut, cap, swept.entries[id]) else swept.entries[id] == box.entries[id]
    ensures forall id: nat :: SweptAway(box, id, ttl, now, box.nextId) <==>
              id in box.entries && box.entries[id].status in {Enqueued, Escalated} && now - box.entries[id].enteredAt > ttl
  {
  }

  // ------------------------------------------------------------ the index

  lemma WriteKeepsIndex(slug: string -> string, box: Box, id: nat, e: Entry)
    requires Indexed(slug, box) && id in box.entries && !Terminal(box.entries[id])
    requires e.ref == box.entries[id].ref && e.reason == box.entries[id].reason
    ensures Indexed(slug, Write(slug, box, id, e))
  {
    var key := KeyOf(slug, e);
    assert key == KeyOf(slug, box.entries[id]) && box.active[key] == id;
    var box' := Write(slug, box, id, e);
    forall other | other in box'.active ensures ActiveAt(slug, box', other, box'.active[other]) {
      assert other in box.active;
      assert ActiveAt(slug, box, other, box.active[other]);
    }
  }

  /** Dealing with one more id is one write, or none. */
  lemma SweepOne(slug: string -> string, box: Box, ttl: real, now: real, id: nat)
    requires Indexed(slug, box)
    ensures var before, after := SweepBox(box, ttl, now, id), SweepBox(box, ttl, now, id + 1);
            after == if id in before.entries && Overdue(before.entries[id], ttl, now)
                     then Write(slug, before, id, Aged(before.entries[id])) else before
  {
    var before, after := SweepBox(box, ttl, now, id), SweepBox(box, ttl, now, id + 1);
    if id in box.entries && Overdue(box.entries[id], ttl, now) {
      SweepKeys(slug, box, ttl, now, id);
      assert after.entries == before.entries[id := Aged(box.entries[id])];
    } else {
      SweepSkips(box, ttl, now, id);
    }
  }

  lemma SweepSkips(box: Box, ttl: real, now: real, id: nat)
    requires id in box.entries ==> !Overdue(box.entries[id], ttl, now)
    ensures SweepBox(box, ttl, now, id + 1) == SweepBox(box, ttl, now, id)
  {
    assert SweepBox(box, ttl, now, id + 1).entries == SweepBox(box, ttl, now, id).entries;
    assert SweepBox(box, ttl, now, id + 1).active == SweepBox(box, ttl, now, id).active;
  }

  /** Dealing with an overdue id takes its own key file away, and no other. */
  lemma SweepKeys(slug: string -> string, box: Box, ttl: real, now: real, id: nat)
    requires Indexed(slug, box) && id in box.entries && Overdue(box.entries[id], ttl, now)
    ensures SweepBox(box, ttl, now, id + 1).active == SweepBox(box, ttl, now, id).active - {KeyOf(slug, box.entries[id])}
  {
    var key := KeyOf(slug, box.entries[id]);
    assert box.active[key] == id;
    forall other | other in box.active
      ensures SweptAway(box, box.active[other], ttl, now, id + 1) <==> SweptAway(box, box.active[other], ttl, now, id) || other == key
    {
      assert ActiveAt(slug, box, other, box.active[other]);
    }
  }

  lemma SweepKeepsIndex(slug: string -> string, box: Box, ttl: real, now: real)
    requires Indexed(slug, box)
    ensures Indexed(slug, SweepBox(box, ttl, now, box.nextId))
  {
    var swept := SweepBox(box, ttl, now, box.nextId);
    forall key | key in swept.active ensures ActiveAt(slug, swept, key, swept.active[key]) {
      assert ActiveAt(slug, box, key, box.active[key]);
    }
  }

  datatype Op = Enqueue(ref: string, reason: Reason, now: real) | Transition(id: nat, move: Move) | Sweep(ttl: real, now: real)

  function Step(slug: string -> string, cap: int, box: Box, op: Op): Box {
    match op
    case Enqueue(ref, reason, now) => EnqueueBox(slug, box, ref, reason, now)
    case Transition(id, move) => MoveBox(slug, box, id, move, cap)
    case Sweep(ttl, now) => SweepBox(box, ttl, now, box.nextId)
  }

  function Run(slug: string -> string, cap: int, box: Box, ops: seq<Op>): Box {
    if ops == [] then box else Step(slug, cap, Run(slug, cap, box, ops[..|ops| - 1]), ops[|ops| - 1])
  }

  lemma EnqueueKeepsIndex(slug: string -> string, box: Box, ref: string, reason: Reason, now: real)
    requires Indexed(slug, box)
    ensures Indexed(slug, EnqueueBox(slug, box, ref, reason, now))
  {
    var key := Key(slug(ref), reason);
    if ActiveFor(slug, box, ref, reason).None? {
      assert key in box.active ==> ActiveAt(slug, box, key, box.active[key]);
      var box' := EnqueueBox(slug, box, ref, reason, now);
      forall other | other in box'.active ensures ActiveAt(slug, box', other, box'.active[other]) {
        assert other in box.active ==> ActiveAt(slug, box, other, box.active[other]);
      }
    }
  }

  lemma AfterFacts(e: Entry, move: Move, cap: int)
    requires After(e, move, cap).Some?
    ensures var e' := After(e, move, cap).value;
            !Terminal(e) && e'.ref == e.ref && e'.reason == e.reason && e'.count >= e.count
            && (e'.status.Redispatched? ==> e'.count < cap)
  {
  }

  /** A legal move changes one entry, and unlodges it only if it becomes terminal. */
  lemma MoveFacts(slug: string -> string, box: Box, id: nat, move: Move, cap: int)
    requires Indexed(slug, box) && id in box.entries && After(box.entries[id], move, cap).Some?
    ensures var after, box' := After(box.entries[id], move, cap).value, MoveBox(slug, box, id, move, cap);
            && Indexed(slug, box') && box'.nextId == box.nextId && box'.entries == box.entries[id := after]
            && forall key, k :: ActiveAt(slug, box, key, k) && (k == id ==> !Terminal(after)) ==> ActiveAt(slug, box', key, k)
  {
    AfterFacts(box.entries[id], move, cap);
    WriteKeepsIndex(slug, box, id, After(box.entries[id], move, cap).value);
  }

  lemma StepKeepsIndex(slug: string -> string, cap: int, box: Box, op: Op)
    requires Indexed(slug, box)
    ensures Indexed(slug, Step(slug, cap, box, op))
  {
    match op
    case Enqueue(ref, reason, now) => EnqueueKeepsIndex(slug, box, ref, reason, now);
    case Transition(id, move) =>
      if id in box.entries && After(box.entries[id], move, cap).Some? {
        MoveFacts(slug, box, id, move, cap);
      }
    case Sweep(ttl, now) => SweepKeepsIndex(slug, box, ttl, now);
  }

  /** In every reachable box a key file exists iff exactly one entry that is not terminal has that key,
      and it names that entry, even where slugs collide. */
  lemma {:induction false} IndexHolds(slug: string -> string, cap: int, ops: seq<Op>)
    ensures var box := Run(slug, cap, Empty, ops);
            && Indexed(slug, box)
            && forall key, id: nat :: key in box.active && box.active[key] == id
                 <==> && id in box.entries && box.entries[id].status in {Enqueued, UnderTriage, Escalated}
                      && Key(slug(box.entries[id].ref), box.entries[id].reason) == key
  {
    if ops != [] {
      IndexHolds(slug, cap, ops[..|ops| - 1]);
      StepKeepsIndex(slug, cap, Run(slug, cap, Empty, ops[..|ops| - 1]), ops[|ops| - 1]);
    }
  }

  // ------------------------------------------------------------ re-entry counts

  predicate SameObject(e: Entry, other: Entry) { e.ref == other.ref && e.reason == other.reason }

  /** Of two entries for one object and reason the older is terminal, with a smaller count; nothing is
      redispatched at or above the cap. */
  ghost predicate Counted(cap: int, box: Box) {
    && (forall i, j :: i in box.entries && j in box.entries && i < j && SameObject(box.entries[i], box.entries[j])
          ==> Terminal(box.entries[i]) && box.entries[i].count < box.entries[j].count)
    && (forall id :: id in box.entries && box.entries[id].status.Redispatched? ==> box.entries[id].count < cap)
  }

  lemma EnqueueKeepsCounts(slug: string -> string, cap: int, box: Box, ref: string, reason: Reason, now: real)
    requires Indexed(slug, box) && Counted(cap, box)
    ensures Counted(cap, EnqueueBox(slug, box, ref, reason, now))
  {
    if ActiveFor(slug, box, ref, reason).None? {
      NewEntryIsLast(slug, box, ref, reason, now);
    }
  }

  lemma NewEntryIsLast(slug: string -> string, box: Box, ref: string, reason: Reason, now: real)
    requires Indexed(slug, box) && ActiveFor(slug, box, ref, reason).None?
    ensures forall i :: i in box.entries && SameObject(box.entries[i], NewEntry(box, ref, reason, now)) ==>
              Terminal(box.entries[i]) && box.entries[i].count < NewEntry(box, ref, reason, now).count
  {
    forall i | i in box.entries && SameObject(box.entries[i], NewEntry(box, ref, reason, now))
      ensures Terminal(box.entries[i]) && box.entries[i].count < NewEntry(box, ref, reason, now).count
    {
      assert KeyOf(slug, box.entries[i]) == Key(slug(ref), reason);
      assert Prior(box, i, ref, reason);
    }
  }

  lemma MoveKeepsCounts(slug: string -> string, cap: int, box: Box, id: nat, move: Move)
    requires Counted(cap, box)
    ensures Counted(cap, MoveBox(slug, box, id, move, cap))
  {
    if id in box.entries && After(box.entries[id], move, cap).Some? {
      AfterFacts(box.entries[id], move, cap);
    }
  }

  lemma SweptEntriesCounted(cap: int, box: Box, swept: Box, ttl: real, now: real)
    requires Counted(cap, box) && swept.entries.Keys == box.entries.Keys
    requires forall id :: id in box.entries ==> swept.entries[id] == SweptEntry(box.entries[id], ttl, now)
    ensures Counted(cap, swept)
  {
    forall i, j | i in swept.entries && j in swept.entries && i < j && SameObject(swept.entries[i], swept.entries[j])
      ensures Terminal(swept.entries[i]) && swept.entries[i].count < swept.entries[j].count
    {
      assert i in box.entries && j in box.entries;
      assert SameObject(box.entries[i], box.entries[j]);
    }
  }

  lemma SweepKeepsCounts(slug: string -> string, cap: int, box: Box, ttl: real, now: real)
    requires Indexed(slug, box) && Counted(cap, box)
    ensures Counted(cap, SweepBox(box, ttl, now, box.nextId))
  {
    SweptEntriesCounted(cap, box, SweepBox(box, ttl, now, box.nextId), ttl, now);
  }

  lemma StepKeepsCounts(slug: string -> string, cap: int, box: Box, op: Op)
    requires Indexed(slug, box) && Counted(cap, box)
    ensures Counted(cap, Step(slug, cap, box, op))
  {
    match op
    case Enqueue(ref, reason, now) => EnqueueKeepsCounts(slug, cap, box, ref, reason, now);
    case Transition(id, move) => MoveKeepsCounts(slug, cap, box, id, move);
    case Sweep(ttl, now) => SweepKeepsCounts(slug, cap, box, ttl, now);
  }

  lemma {:induction false} CountsHold(slug: string -> string, cap: int, ops: seq<Op>)
    ensures Indexed(slug, Run(slug, cap, Empty, ops)) && Counted(cap, Run(slug, cap, Empty, ops))
  {
    if ops != [] {
      var before := Run(slug, cap, Empty, ops[..|ops| - 1]);
      CountsHold(slug, cap, ops[..|ops| - 1]);
      StepKeepsIndex(slug, cap, before, ops[|ops| - 1]);
      StepKeepsCounts(slug, cap, before, ops[|ops| - 1]);
    }
  }

  function RedispatchedFor(box: Box, ref: string, reason: Reason): set<nat> {
    set id | id in box.entries && box.entries[id].ref == ref && box.entries[id].reason == reason
             && box.entries[id].status.Redispatched?
  }

  /** Over any run at most cap entries of one object and reason are ever redispatched. */
  lemma AtMostCapRedispatched(slug: string -> string, cap: int, ops: seq<Op>, ref: string, reason: Reason)
    ensures |RedispatchedFor(Run(slug, cap, Empty, ops), ref, reason)| <= Max(0, cap)
  {
    CountsHold(slug, cap, ops);
    var box := Run(slug, cap, Empty, ops);
    DistinctCountsBelow(box, RedispatchedFor(box, ref, reason), Max(0, cap));
  }

  lemma {:induction false} DistinctCountsBelow(box: Box, ids: set<nat>, bound: nat)
    requires forall id :: id in ids ==> id in box.entries && box.entries[id].count < bound
    requires forall i, j :: i in ids && j in ids && i != j ==> box.entries[i].count != box.entries[j].count
    ensures |ids| <= bound
    decreases bound
  {
    if ids != {} {
      var top := set id | id in ids && box.entries[id].count == bound - 1;
      if top == {} {
        forall id | id in ids ensures box.entries[id].count < bound - 1 { assert id !in top; }
        DistinctCountsBelow(box, ids, bound - 1);
      } else {
        var id :| id in top;
        DistinctCountsBelow(box, ids - {id}, bound - 1);
      }
    }
  }

  /** A terminal entry never changes again. */
  lemma {:induction false} TerminalIsFinal(slug: string -> string, cap: int, box: Box, ops: seq<Op>, id: nat)
    requires Indexed(slug, box) && id in box.entries && Terminal(box.entries[id])
    ensures var box' := Run(slug, cap, box, ops); Indexed(slug, box') && id in box'.entries && box'.entries[id] == box.entries[id]
  {
    if ops != [] {
      var before := Run(slug, cap, box, ops[..|ops| - 1]);
      TerminalIsFinal(slug, cap, box, ops[..|ops| - 1], id);
      StepKeepsIndex(slug, cap, before, ops[|ops| - 1]);
      match ops[|ops| - 1]
      case Enqueue(_, _, _) =>
      case Transition(other, move) =>
        if other in before.entries && After(before.entries[other], move, cap).Some? { AfterFacts(before.entries[other], move, cap); }
      case Sweep(ttl, now) =>
    }
  }

  // ------------------------------------------------------------ slug collisions

  ghost predicate Represented(box: Box, ref: string, reason: Reason) {
    exists id :: id in box.entries && box.entries[id].ref == ref && box.entries[id].reason == reason && !Terminal(box.entries[id])
  }

  /** No two of these references share a slug. */
  ghost predicate Separates(slug: string -> string, refs: iset<string>) {
    forall a, b :: a in refs && b in refs && slug(a) == slug(b) ==> a == b
  }

  ghost predicate OnlyAbout(refs: iset<string>, ops: seq<Op>) {
    forall i :: 0 <= i < |ops| && ops[i].Enqueue? ==> ops[i].ref in refs
  }

  ghost predicate EntriesAbout(refs: iset<string>, box: Box) {
    forall id :: id in box.entries ==> box.entries[id].ref in refs
  }

  /** On every run about these references an enqueue leaves its object with an active entry of its own. */
  ghost predicate EnqueueAlwaysTakes(slug: string -> string, cap: int, refs: iset<string>) {
    forall ops, ref, reason, now :: OnlyAbout(refs, ops) && ref in refs ==>
      Represented(EnqueueBox(slug, Run(slug, cap, Empty, ops), ref, reason, now), ref, reason)
  }

  lemma {:induction false} RunAbout(slug: string -> string, cap: int, refs: iset<string>, ops: seq<Op>)
    requires OnlyAbout(refs, ops)
    ensures EntriesAbout(refs, Run(slug, cap, Empty, ops))
  {
    if ops != [] {
      var before := Run(slug, cap, Empty, ops[..|ops| - 1]);
      RunAbout(slug, cap, refs, ops[..|ops| - 1]);
      match ops[|ops| - 1]
      case Enqueue(_, _, _) =>
      case Transition(id, move) =>
        if id in before.entries && After(before.entries[id], move, cap).Some? { AfterFacts(before.entries[id], move, cap); }
      case Sweep(_, _) =>
    }
  }

  /** An enqueue always takes iff no two of the references that occur share a slug; of two that do, the
      second is dropped while the first is active. */
  lemma EnqueueTakesIffSlugInjective(slug: string -> string, cap: int, refs: iset<string>)
    ensures EnqueueAlwaysTakes(slug, cap, refs) <==> Separates(slug, refs)
  {
    if a, b :| a in refs && b in refs && slug(a) == slug(b) && a != b {
      CollisionDrops(slug, cap, a, b, Unroutable);
      var ops := [Enqueue(a, Unroutable, 0.0)];
      assert OnlyAbout(refs, ops);
    } else {
      forall ops, ref, reason, now | OnlyAbout(refs, ops) && ref in refs
        ensures Represented(EnqueueBox(slug, Run(slug, cap, Empty, ops), ref, reason, now), ref, reason)
      {
        RunAbout(slug, cap, refs, ops);
        IndexHolds(slug, cap, ops);
        EnqueueTakes(slug, refs, Run(slug, cap, Empty, ops), ref, reason, now);
      }
    }
  }

  lemma EnqueueTakes(slug: string -> string, refs: iset<string>, box: Box, ref: string, reason: Reason, now: real)
    requires Indexed(slug, box) && Separates(slug, refs) && EntriesAbout(refs, box) && ref in refs
    ensures Represented(EnqueueBox(slug, box, ref, reason, now), ref, reason)
  {
    var existing := ActiveFor(slug, box, ref, reason);
    var id := if existing.Some? then existing.value else box.nextId;
    assert existing.Some? ==> ActiveAt(slug, box, Key(slug(ref), reason), id);
    assert EnqueueBox(slug, box, ref, reason, now).entries[id].ref == ref;
  }

  lemma CollisionDrops(slug: string -> string, cap: int, a: string, b: string, reason: Reason)
    requires slug(a) == slug(b) && a != b
    ensures var box := Run(slug, cap, Empty, [Enqueue(a, reason, 0.0)]);
            EnqueueBox(slug, box, b, reason, 0.0) == box && !Represented(box, b, reason)
  {
    var ops := [Enqueue(a, reason, 0.0)];
    assert ops[..0] == [];
    assert Run(slug, cap, Empty, ops) == EnqueueBox(slug, Empty, a, reason, 0.0);
  }

  /** The slug of the code: whatever is not alphanumeric becomes an underscore. */
  function SlugOf(alnum: char -> bool, value: string): (slug: string)
    ensures |slug| == |value|
  {
    seq(|value|, i requires 0 <= i < |value| => if alnum(value[i]) then value[i] else '_')
  }

  predicate SameLetters(alnum: char -> bool, a: string, b: string) {
    |a| == |b| && forall i :: 0 <= i < |a| ==> a[i] == b[i] || (!alnum(a[i]) && !alnum(b[i]))
  }

  /** Two references share a slug iff they differ only in what is not alphanumeric. */
  lemma SlugsAgreeIff(alnum: char -> bool, a: string, b: string)
    requires !alnum('_')
    ensures SlugOf(alnum, a) == SlugOf(alnum, b) <==> SameLetters(alnum, a, b)
  {
    if SlugOf(alnum, a) == SlugOf(alnum, b) {
      forall i | 0 <= i < |a| ensures a[i] == b[i] || (!alnum(a[i]) && !alnum(b[i])) {
        assert SlugOf(alnum, a)[i] == SlugOf(alnum, b)[i];
      }
    }
  }

  // ------------------------------------------------------------ how long an entry can move

  /** How many steps of a run change the entry. */
  function Changes(slug: string -> string, cap: int, box: Box, ops: seq<Op>, id: nat): nat {
    if ops == [] then 0
    else
      var before, after := Run(slug, cap, box, ops[..|ops| - 1]), Run(slug, cap, box, ops);
      Changes(slug, cap, box, ops[..|ops| - 1], id) + if EntryAt(before, id) != EntryAt(after, id) then 1 else 0
  }

  /** How often an owner's answer is applied to the entry; an answer that finds it elsewhere than
      escalated raises, and does not count. */
  function AnswersApplied(slug: string -> string, cap: int, box: Box, ops: seq<Op>, id: nat): nat {
    if ops == [] then 0
    else
      var before := EntryAt(Run(slug, cap, box, ops[..|ops| - 1]), id);
      AnswersApplied(slug, cap, box, ops[..|ops| - 1], id)
      + if ops[|ops| - 1] == Transition(id, ApplyAnswer) && before.Some? && before.value.status.Escalated? then 1 else 0
  }

  /** What an entry can still do without an owner's answer. */
  function Potential(e: Entry, cap: int): nat {
    var left := 2 * Max(0, cap - 1 - e.count);
    match e.status
    case Enqueued => left + 3
    case UnderTriage => left + 2
    case Escalated => left + 1
    case _ => 0
  }

  /** A step leaves the entry alone, or makes one legal move with it. */
  lemma StepMoves(slug: string -> string, cap: int, box: Box, op: Op, id: nat) returns (move: Option<Move>)
    requires Indexed(slug, box) && id in box.entries
    ensures EntryAt(Step(slug, cap, box, op), id)
         == if move.None? then Some(box.entries[id]) else After(box.entries[id], move.value, cap)
    ensures move.Some? ==> After(box.entries[id], move.value, cap).Some?
    ensures move == Some(ApplyAnswer) ==> op == Transition(id, ApplyAnswer)
  {
    move := None;
    match op {
      case Enqueue(_, _, _) =>
      case Transition(other, m) =>
        if other == id && After(box.entries[id], m, cap).Some? { move := Some(m); }
      case Sweep(ttl, now) =>
        if Overdue(box.entries[id], ttl, now) { move := Some(AgeOut); }
    }
  }

  lemma {:induction false} ChangesBounded(slug: string -> string, cap: int, box: Box, ops: seq<Op>, id: nat)
    requires Indexed(slug, box) && id in box.entries
    ensures var after := Run(slug, cap, box, ops);
            && Indexed(slug, after) && id in after.entries
            && Changes(slug, cap, box, ops, id) + Potential(after.entries[id], cap)
               <= Potential(box.entries[id], cap) + 2 * AnswersApplied(slug, cap, box, ops, id)
  {
    if ops != [] {
      var before, op := Run(slug, cap, box, ops[..|ops| - 1]), ops[|ops| - 1];
      ChangesBounded(slug, cap, box, ops[..|ops| - 1], id);
      StepKeepsIndex(slug, cap, before, op);
      var move := StepMoves(slug, cap, before, op, id);
      assert EntryAt(Run(slug, cap, box, ops), id) == EntryAt(Step(slug, cap, before, op), id);
      if move.Some? { MoveCosts(before.entries[id], move.value, cap); }
    }
  }

  lemma MoveCosts(e: Entry, move: Move, cap: int)
    requires After(e, move, cap).Some?
    ensures Potential(After(e, move, cap).value, cap) + 1 <= Potential(e, cap) + if move.ApplyAnswer? then 2 else 0
    ensures move.ApplyAnswer? ==> e.status.Escalated?
  {
  }

  /** On every run, an entry that waits with count c0 and gets A answers is changed by at most
      2 max(0, cap-1-c0) + 2A + 3 steps. */
  lemma TransitionsAreBounded(slug: string -> string, cap: int, box: Box, ops: seq<Op>, id: nat)
    requires Indexed(slug, box) && id in box.entries && box.entries[id].status.Enqueued?
    ensures Changes(slug, cap, box, ops, id)
         <= 2 * Max(0, cap - 1 - box.entries[id].count) + 2 * AnswersApplied(slug, cap, box, ops, id) + 3
  {
    ChangesBounded(slug, cap, box, ops, id);
  }

  datatype Played = Played(e: Entry, steps: nat, answers: nat)

  /** The entry after a list of moves, how many of them were legal, and how many were answers. */
  function Play(e: Entry, moves: seq<Move>, cap: int): Played {
    if moves == [] then Played(e, 0, 0)
    else
      var before, move := Play(e, moves[..|moves| - 1], cap), moves[|moves| - 1];
      var after := After(before.e, move, cap);
      if after.None? then before
      else Played(after.value, before.steps + 1, before.answers + if move.ApplyAnswer? then 1 else 0)
  }

  function OpsOf(id: nat, moves: seq<Move>): seq<Op> {
    seq(|moves|, i requires 0 <= i < |moves| => Transition(id, moves[i]))
  }

  lemma {:induction false} PlayIsRun(slug: string -> string, cap: int, box: Box, id: nat, moves: seq<Move>)
    requires Indexed(slug, box) && id in box.entries
    ensures var ops, played := OpsOf(id, moves), Play(box.entries[id], moves, cap);
            && Indexed(slug, Run(slug, cap, box, ops)) && EntryAt(Run(slug, cap, box, ops), id) == Some(played.e)
            && Changes(slug, cap, box, ops, id) == played.steps && AnswersApplied(slug, cap, box, ops, id) == played.answers
  {
    if moves != [] {
      var front, move := moves[..|moves| - 1], moves[|moves| - 1];
      PlayIsRun(slug, cap, box, id, front);
      assert OpsOf(id, moves)[..|moves| - 1] == OpsOf(id, front);
      var before := Run(slug, cap, box, OpsOf(id, front));
      StepKeepsIndex(slug, cap, before, Transition(id, move));
      MoveShows(slug, cap, before, id, move);
    }
  }

  /** A legal move changes its entry, and an answer is legal only for an escalated one. */
  lemma MoveShows(slug: string -> string, cap: int, box: Box, id: nat, move: Move)
    requires id in box.entries
    ensures var after := After(box.entries[id], move, cap);
            && EntryAt(MoveBox(slug, box, id, move, cap), id) == (if after.None? then Some(box.entries[id]) else after)
            && after != Some(box.entries[id])
            && (move.ApplyAnswer? ==> after.Some? == box.entries[id].status.Escalated?)
  {
  }

  lemma PlayOn(e: Entry, moves: seq<Move>, cap: int, move: Move)
    requires After(Play(e, moves, cap).e, move, cap).Some?
    ensures var played := Play(e, moves, cap);
            Play(e, moves + [move], cap)
            == Played(After(played.e, move, cap).value, played.steps + 1, played.answers + if move.ApplyAnswer? then 1 else 0)
  {
    assert (moves + [move])[..|moves|] == moves;
  }

  /** Triage and fail until one more failure would be the last. */
  lemma {:induction false} FailOn(e: Entry, cap: int, times: nat) returns (moves: seq<Move>)
    requires e.status.Enqueued? && times <= Max(0, cap - 1 - e.count)
    ensures var played := Play(e, moves, cap);
            played.e.status.Enqueued? && played.e.count == e.count + times && played.steps == 2 * times && played.answers == 0
  {
    moves := [];
    if times > 0 {
      moves := FailOn(e, cap, times - 1);
      PlayOn(e, moves, cap, StartTriage);
      PlayOn(e, moves + [StartTriage], cap, RedispatchFailed);
      moves := moves + [StartTriage] + [RedispatchFailed];
    }
  }

  lemma {:induction false} AnswerOn(e: Entry, cap: int, moves: seq<Move>, answers: nat) returns (longer: seq<Move>)
    requires Play(e, moves, cap).e.status.Escalated?
    ensures var before, played := Play(e, moves, cap), Play(e, longer, cap);
            && played.e.status.Escalated?
            && played.steps == before.steps + 2 * answers && played.answers == before.answers + answers
  {
    longer := moves;
    if answers > 0 {
      longer := AnswerOn(e, cap, moves, answers - 1);
      PlayOn(e, longer, cap, ApplyAnswer);
      PlayOn(e, longer + [ApplyAnswer], cap, DecideEscalate);
      longer := longer + [ApplyAnswer] + [DecideEscalate];
    }
  }

  lemma LongestPlay(e: Entry, cap: int, answers: nat) returns (moves: seq<Move>)
    requires e.status.Enqueued?
    ensures var played := Play(e, moves, cap);
            played.answers == answers && played.steps == 2 * Max(0, cap - 1 - e.count) + 2 * answers + 3
  {
    moves := FailOn(e, cap, Max(0, cap - 1 - e.count));
    PlayOn(e, moves, cap, StartTriage);
    moves := moves + [StartTriage];
    PlayOn(e, moves, cap, DecideEscalate);
    moves := AnswerOn(e, cap, moves + [DecideEscalate], answers);
    PlayOn(e, moves, cap, AgeOut);
    moves := moves + [AgeOut];
  }

  /** The bound is reached, from every box, for every starting count and number of answers. */
  lemma BoundIsReached(slug: string -> string, cap: int, box: Box, id: nat, answers: nat) returns (ops: seq<Op>)
    requires Indexed(slug, box) && id in box.entries && box.entries[id].status.Enqueued?
    ensures AnswersApplied(slug, cap, box, ops, id) == answers
    ensures Changes(slug, cap, box, ops, id) == 2 * Max(0, cap - 1 - box.entries[id].count) + 2 * answers + 3
  {
    var moves := LongestPlay(box.entries[id], cap, answers);
    PlayIsRun(slug, cap, box, id, moves);
    ops := OpsOf(id, moves);
  }
}
