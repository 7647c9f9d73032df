/** The level-triggered reconcile pass: compare what should have been dispatched, triaged and shown with
    what the stamps, markers and inbox say, and repair the difference. */
module Reconcile {
  import opened Prelude
  import D = DeadLetter

  datatype Replan = Replan(eventId: string, planId: string, full: bool)

  /** Routing a forward-chain event anew: it raises, or yields targets. */
  datatype Trigger = Routed(eventId: string, targets: seq<string>) | RouteFails(eventId: string)

  const PLANNING := "planning"
  const MAIN_INBOUND := "main-inbound"
  const SKIPPED_TARGETS := {"execution", "main-inbound", "Nature dashboard", "no-route"}

  /** `composite` and `bare` are the dispatch stamps, true where the stamp is of a real dispatch;
      `settled` the dispatches whose finding is closed by another path. `dispatches` records every
      dispatch a pass emitted, `supply` numbers the ids of new events, of which `drawn` are used. */
  datatype World = World(
    replans: seq<Replan>, triggers: seq<Trigger>, settled: set<(string, string)>,
    composite: map<(string, string), bool>, bare: map<string, bool>, backlog: set<(string, string)>,
    box: D.Box, escalations: seq<string>,
    dispatches: seq<(string, string)>, supply: nat -> string, drawn: nat)

  predicate Stamped(w: World, event: string, target: string) {
    (event, target) in w.composite || event in w.bare
  }

  /** The stamp looked up first is the pair's own; a real one ends the search for gaps. */
  predicate RealStamp(w: World, event: string, target: string) {
    if (event, target) in w.composite then w.composite[(event, target)]
    else event in w.bare && w.bare[event]
  }

  // ------------------------------------------------------------ actions

  datatype Action =
    | RePlan(eventId: string)
    | Triage(id: nat)
    | Surface(eventId: string)
    | Backfill(eventId: string, target: string)
    | Bury(eventId: string)

  predicate ActiveUnroutable(w: World, event: string) {
    exists id | id in w.box.entries :: UnroutableEntry(w, id, event)
  }

  predicate UnroutableEntry(w: World, id: nat, event: string) {
    && id in w.box.entries && w.box.entries[id].ref == event
    && w.box.entries[id].reason == D.Unroutable && !D.Terminal(w.box.entries[id])
  }

  /** What build_observed_state already finds taken care of. */
  predicate Seen(w: World, a: Action) {
    match a
    case RePlan(event) => Stamped(w, event, PLANNING)
    case Triage(id) => id in w.box.entries ==> !w.box.entries[id].status.Enqueued?
    case Surface(event) => Stamped(w, event, MAIN_INBOUND)
    case Backfill(event, target) =>
      || target in SKIPPED_TARGETS
      || RealStamp(w, event, target)
      || (Stamped(w, event, target) && (event, target) in w.settled)
      || (event, target) in w.backlog
    case Bury(event) => ActiveUnroutable(w, event)
  }

  function ReplanWork(replans: seq<Replan>): seq<Action> {
    if replans == [] then []
    else
      var last := replans[|replans| - 1];
      ReplanWork(replans[..|replans| - 1]) + if last.planId != "" && !last.full then [RePlan(last.eventId)] else []
  }

  function TriageWork(n: nat): seq<Action> {
    seq(n, i requires 0 <= i < n => Triage(i))
  }

  function SurfaceWork(escalations: seq<string>): seq<Action> {
    seq(|escalations|, i requires 0 <= i < |escalations| => Surface(escalations[i]))
  }

  function TriggerWork(t: Trigger): seq<Action> {
    match t
    case RouteFails(event) => [Bury(event)]
    case Routed(event, targets) => seq(|targets|, i requires 0 <= i < |targets| => Backfill(event, targets[i]))
  }

  function ForwardWork(triggers: seq<Trigger>): seq<Action> {
    if triggers == [] then []
    else ForwardWork(triggers[..|triggers| - 1]) + TriggerWork(triggers[|triggers| - 1])
  }

  /** Everything that could be asked of a world, in the reconcilers' order. */
  function Work(w: World): seq<Action> {
    ReplanWork(w.replans) + TriageWork(w.box.nextId) + SurfaceWork(w.escalations) + ForwardWork(w.triggers)
  }

  function Unseen(w: World, work: seq<Action>): seq<Action> {
    if work == [] then []
    else
      var before := Unseen(w, work[..|work| - 1]);
      if Seen(w, work[|work| - 1]) then before else before + [work[|work| - 1]]
  }

  /** reconcile_all on the observed state. */
  function Actions(w: World): seq<Action> {
    Unseen(w, Work(w))
  }

  // ------------------------------------------------------------ execution

  /** First the stamp, then the dispatch; nothing if the stamp is there. */
  function Dispatch(w: World, event: string, target: string): World {
    if Stamped(w, event, target) then w
    else w.(composite := w.composite[(event, target) := true], dispatches := w.dispatches + [(event, target)])
  }

  /** Claim the entry, then escalate or retire it as its reason asks. */
  function TriageEntry(slug: string -> string, w: World, id: nat): World {
    if id !in w.box.entries || !w.box.entries[id].status.Enqueued? then w
    else
      var claimed := D.MoveBox(slug, w.box, id, D.StartTriage, 0);
      match w.box.entries[id].reason
      case Unroutable =>
        w.(escalations := w.escalations + [w.supply(w.drawn)], drawn := w.drawn + 1,
           box := D.MoveBox(slug, claimed, id, D.DecideEscalate, 0))
      case StructuralFailure => w.(box := D.MoveBox(slug, claimed, id, D.DecideRetire(D.Deterministic), 0))
      case CircuitTripped => w.(box := D.MoveBox(slug, claimed, id, D.DecideRetire(D.ReentryExhausted), 0))
  }

  function Execute(slug: string -> string, w: World, a: Action, now: real): World {
    match a
    case RePlan(event) => Dispatch(w, event, PLANNING)
    case Triage(id) => TriageEntry(slug, w, id)
    case Surface(event) => Dispatch(w, event, MAIN_INBOUND)
    case Backfill(event, target) =>
      if RealStamp(w, event, target) then w else w.(backlog := w.backlog + {(event, target)})
    case Bury(event) => w.(box := D.EnqueueBox(slug, w.box, event, D.Unroutable, now))
  }

  function ExecuteAll(slug: string -> string, w: World, actions: seq<Action>, now: real): World {
    if actions == [] then w
    else Execute(slug, ExecuteAll(slug, w, actions[..|actions| - 1], now), actions[|actions| - 1], now)
  }

  function Pass(slug: string -> string, w: World, now: real): World {
    ExecuteAll(slug, w, Actions(w), now)
  }

  class Reconciler {
    const slug: string -> string
    var world: World

    constructor (slug: string -> string, world: World)
      ensures this.slug == slug && this.world == world
    {
      this.slug, this.world := slug, world;
    }

    method BuildObservedState() returns (actions: seq<Action>)
      ensures actions == Actions(world)
      ensures (forall id :: id in world.box.entries ==> id < world.box.nextId) ==> AreTheGaps(world, actions)
    {
      actions := [];
      var work := Work(world);
      assert work[..|work|] == work;
      for i := 0 to |work|
        invariant actions == Unseen(world, work[..i])
      {
        assert work[..i + 1][..i] == work[..i];
        if !Seen(world, work[i]) { actions := actions + [work[i]]; }
      }
      ActionsAreTheGaps(world);
    }

    /** All actions are settled from one snapshot; then they are carried out in order. */
    method RunReconcilePass(now: real) returns (attempted: nat)
      modifies this
      ensures world == Pass(slug, old(world), now) && attempted == |Actions(old(world))|
    {
      var actions := BuildObservedState();
      ghost var was := world;
      assert actions[..|actions|] == actions;
      for i := 0 to |actions|
        invariant world == ExecuteAll(slug, was, actions[..i], now)
      {
        assert actions[..i + 1][..i] == actions[..i];
        world := Execute(slug, world, actions[i], now);
      }
      attempted := |actions|;
    }
  }

  // ------------------------------------------------------------ what stays taken care of

  /** Some active entry occupies the event's key, its own or, where slugs collide, another's. */
  ghost predicate Lodged(slug: string -> string, box: D.Box, event: string) {
    exists id :: D.ActiveAt(slug, box, D.Key(slug(event), D.Unroutable), id)
  }

  /** Like Seen, but a burial is done as soon as the inbox would turn the event away. */
  ghost predicate Done(slug: string -> string, w: World, a: Action) {
    if a.Bury? then Lodged(slug, w.box, a.eventId) else Seen(w, a)
  }

  lemma SeenIsDone(slug: string -> string, w: World, a: Action)
    requires Seen(w, a)
    ensures Done(slug, w, a)
  {
    if a.Bury? {
      assert ActiveUnroutable(w, a.eventId);
      var id :| id in w.box.entries && UnroutableEntry(w, id, a.eventId);
      assert D.ActiveAt(slug, w.box, D.Key(slug(a.eventId), D.Unroutable), id);
    }
  }

  /** How one world may follow another within a pass: entries only leave Enqueued, keys stay occupied. */
  ghost predicate BoxMoves(slug: string -> string, box: D.Box, box': D.Box) {
    && D.Indexed(slug, box') && box.nextId <= box'.nextId
    && (forall id :: id in box.entries ==> id in box'.entries)
    && (forall id :: id in box'.entries && id < box.nextId && box'.entries[id].status.Enqueued?
          ==> id in box.entries && box.entries[id].status.Enqueued?)
    && (forall event :: Lodged(slug, box, event) ==> Lodged(slug, box', event))
  }

  lemma TriageMoves(slug: string -> string, w: World, id: nat)
    requires D.Indexed(slug, w.box)
    ensures var w' := TriageEntry(slug, w, id);
            BoxMoves(slug, w.box, w'.box) && w'.box.nextId == w.box.nextId && w'.box.entries.Keys == w.box.entries.Keys
    ensures Seen(TriageEntry(slug, w, id), Triage(id))
  {
    if id in w.box.entries && w.box.entries[id].status.Enqueued? {
      var move := match w.box.entries[id].reason
                  case Unroutable => D.DecideEscalate
                  case StructuralFailure => D.DecideRetire(D.Deterministic)
                  case CircuitTripped => D.DecideRetire(D.ReentryExhausted);
      ClaimAndMove(slug, w.box, id, move);
    } else {
      SameBoxMoves(slug, w.box);
    }
  }

  lemma SameBoxMoves(slug: string -> string, box: D.Box)
    requires D.Indexed(slug, box)
    ensures BoxMoves(slug, box, box)
  {
  }

  lemma BoxMovesTransitive(slug: string -> string, box: D.Box, box': D.Box, box'': D.Box)
    requires BoxMoves(slug, box, box') && BoxMoves(slug, box', box'')
    ensures BoxMoves(slug, box, box'')
  {
  }

  /** The entry is claimed and then decided: one entry has changed, and waits no longer. */
  lemma ClaimAndMove(slug: string -> string, box: D.Box, id: nat, move: D.Move)
    requires D.Indexed(slug, box) && id in box.entries && box.entries[id].status.Enqueued?
    requires move.DecideEscalate? || (move.DecideRetire? && !box.entries[id].reason.Unroutable?)
    ensures var claimed := D.MoveBox(slug, box, id, D.StartTriage, 0);
            var box' := D.MoveBox(slug, claimed, id, move, 0);
            && BoxMoves(slug, box, box') && box'.nextId == box.nextId && box'.entries.Keys == box.entries.Keys
            && !box'.entries[id].status.Enqueued?
  {
    var claimed := D.MoveBox(slug, box, id, D.StartTriage, 0);
    MoveMoves(slug, box, id, D.StartTriage);
    MoveMoves(slug, claimed, id, move);
    BoxMovesTransitive(slug, box, claimed, D.MoveBox(slug, claimed, id, move, 0));
  }

  /** A move to another state, that leaves an unroutable entry active. */
  lemma MoveMoves(slug: string -> string, box: D.Box, id: nat, move: D.Move)
    requires D.Indexed(slug, box) && id in box.entries && D.After(box.entries[id], move, 0).Some?
    requires var after := D.After(box.entries[id], move, 0).value;
             !after.status.Enqueued? && (after.reason.Unroutable? ==> !D.Terminal(after))
    ensures var box' := D.MoveBox(slug, box, id, move, 0);
            && BoxMoves(slug, box, box') && box'.nextId == box.nextId
            && box'.entries == box.entries[id := D.After(box.entries[id], move, 0).value]
  {
    D.MoveFacts(slug, box, id, move, 0);
    D.AfterFacts(box.entries[id], move, 0);
    var box' := D.MoveBox(slug, box, id, move, 0);
    forall event | Lodged(slug, box, event) ensures Lodged(slug, box', event) {
      var key := D.Key(slug(event), D.Unroutable);
      var held :| D.ActiveAt(slug, box, key, held);
      assert D.ActiveAt(slug, box', key, held);
    }
  }

  lemma BuryMoves(slug: string -> string, box: D.Box, event: string, now: real)
    requires D.Indexed(slug, box)
    ensures var box' := D.EnqueueBox(slug, box, event, D.Unroutable, now);
            BoxMoves(slug, box, box') && Lodged(slug, box', event) && (Lodged(slug, box, event) ==> box' == box)
  {
    D.EnqueueKeepsIndex(slug, box, event, D.Unroutable, now);
    var key := D.Key(slug(event), D.Unroutable);
    var box' := D.EnqueueBox(slug, box, event, D.Unroutable, now);
    if D.ActiveFor(slug, box, event, D.Unroutable).None? {
      assert D.ActiveAt(slug, box', key, box.nextId);
      forall other | Lodged(slug, box, other) ensures Lodged(slug, box', other) {
        var held :| D.ActiveAt(slug, box, D.Key(slug(other), D.Unroutable), held);
        assert D.ActiveAt(slug, box', D.Key(slug(other), D.Unroutable), held);
      }
      forall id ensures !D.ActiveAt(slug, box, key, id) {
      }
    } else {
      assert D.ActiveAt(slug, box, key, box.active[key]);
    }
  }

  /** How one world may follow another within and across passes. */
  ghost predicate Follows(slug: string -> string, w: World, w': World) {
    && w'.replans == w.replans && w'.triggers == w.triggers && w'.settled == w.settled && w'.bare == w.bare
    && (forall k :: k in w.composite ==> k in w'.composite && w'.composite[k] == w.composite[k])
    && (forall k :: k in w'.composite && k !in w.composite ==> w'.composite[k])
    && w.backlog <= w'.backlog && w.escalations <= w'.escalations
    && BoxMoves(slug, w.box, w'.box)
  }

  lemma DoneStays(slug: string -> string, w: World, w': World, a: Action)
    requires Follows(slug, w, w') && Done(slug, w, a) && (a.Triage? ==> a.id < w.box.nextId)
    ensures Done(slug, w', a)
  {
  }

  lemma FollowsTransitive(slug: string -> string, w: World, w': World, w'': World)
    requires Follows(slug, w, w') && Follows(slug, w', w'')
    ensures Follows(slug, w, w'')
  {
  }

  lemma TriageDoes(slug: string -> string, w: World, id: nat)
    requires D.Indexed(slug, w.box)
    ensures Follows(slug, w, TriageEntry(slug, w, id))
  {
    TriageMoves(slug, w, id);
  }

  lemma BuryDoes(slug: string -> string, w: World, event: string, now: real)
    requires D.Indexed(slug, w.box)
    ensures var w' := w.(box := D.EnqueueBox(slug, w.box, event, D.Unroutable, now));
            Follows(slug, w, w') && Done(slug, w', Bury(event)) && (Lodged(slug, w.box, event) ==> w' == w)
  {
    BuryMoves(slug, w.box, event, now);
  }

  /** Executing an action gets it done, and undoes nothing. */
  lemma ExecuteDoes(slug: string -> string, w: World, a: Action, now: real)
    requires D.Indexed(slug, w.box)
    ensures Follows(slug, w, Execute(slug, w, a, now)) && Done(slug, Execute(slug, w, a, now), a)
    ensures a.Bury? && Lodged(slug, w.box, a.eventId) ==> Execute(slug, w, a, now) == w
    ensures !a.Bury? ==> Execute(slug, w, a, now).box.nextId == w.box.nextId
    ensures !a.Triage? ==> Execute(slug, w, a, now).escalations == w.escalations
  {
    match a
    case Triage(id) =>
      TriageMoves(slug, w, id);
      TriageDoes(slug, w, id);
    case Bury(event) => BuryDoes(slug, w, event, now);
    case _ => SameBoxMoves(slug, w.box);
  }

  ghost predicate BuriesLodged(slug: string -> string, w: World, actions: seq<Action>) {
    forall a :: a in actions && a.Bury? ==> Lodged(slug, w.box, a.eventId)
  }

  lemma {:induction false} ExecuteAllDoes(slug: string -> string, w: World, actions: seq<Action>, now: real)
    requires D.Indexed(slug, w.box) && forall a :: a in actions && a.Triage? ==> a.id < w.box.nextId
    ensures var w' := ExecuteAll(slug, w, actions, now);
            && Follows(slug, w, w') && (forall a :: a in actions ==> Done(slug, w', a))
            && (BuriesLodged(slug, w, actions) ==> w'.box.nextId == w.box.nextId)
            && ((forall a :: a in actions ==> !a.Triage?) ==> w'.escalations == w.escalations)
            && (BuriesLodged(slug, w, actions) && (forall a :: a in actions ==> a.Bury?) ==> w' == w)
  {
    if actions != [] {
      var last := |actions| - 1;
      var before := ExecuteAll(slug, w, actions[..last], now);
      ExecuteAllDoes(slug, w, actions[..last], now);
      ExecuteDoes(slug, before, actions[last], now);
      var w' := ExecuteAll(slug, w, actions, now);
      FollowsTransitive(slug, w, before, w');
      forall a | a in actions ensures Done(slug, w', a) {
        if a != actions[last] {
          assert a in actions[..last];
          DoneStays(slug, before, w', a);
        }
      }
      assert BuriesLodged(slug, w, actions) ==> BuriesLodged(slug, w, actions[..last]);
      assert forall a :: a in actions[..last] ==> a in actions;
    }
  }

  // ------------------------------------------------------------ the work list

  lemma {:induction false} UnseenMembers(w: World, work: seq<Action>, a: Action)
    ensures a in Unseen(w, work) <==> a in work && !Seen(w, a)
  {
    if work != [] {
      UnseenMembers(w, work[..|work| - 1], a);
      assert work == work[..|work| - 1] + [work[|work| - 1]];
    }
  }

  lemma {:induction false} ReplanWorkKind(replans: seq<Replan>)
    ensures forall a :: a in ReplanWork(replans) ==> a.RePlan?
  {
    if replans != [] { ReplanWorkKind(replans[..|replans| - 1]); }
  }

  lemma {:induction false} ForwardWorkKind(triggers: seq<Trigger>)
    ensures forall a :: a in ForwardWork(triggers) ==> a.Backfill? || a.Bury?
    ensures forall event :: Bury(event) in ForwardWork(triggers) <==> RouteFails(event) in triggers
  {
    if triggers != [] {
      var last := triggers[|triggers| - 1];
      ForwardWorkKind(triggers[..|triggers| - 1]);
      assert triggers == triggers[..|triggers| - 1] + [last];
      forall event ensures Bury(event) in TriggerWork(last) <==> last == RouteFails(event) {
      }
    }
  }

  /** The part of the work that no pass adds to. */
  predicate Standing(w: World, a: Action) {
    a in ReplanWork(w.replans) || a in ForwardWork(w.triggers)
  }

  lemma WorkMembers(w: World, a: Action)
    ensures a in Work(w) <==> Standing(w, a) || (a.Triage? && a.id < w.box.nextId) || (a.Surface? && a.eventId in w.escalations)
  {
    ReplanWorkKind(w.replans);
    ForwardWorkKind(w.triggers);
    if a.Triage? && a.id < w.box.nextId { assert TriageWork(w.box.nextId)[a.id] == a; }
    if a.Surface? && a.eventId in w.escalations {
      var i :| 0 <= i < |w.escalations| && w.escalations[i] == a.eventId;
      assert SurfaceWork(w.escalations)[i] == a;
    }
  }

  ghost predicate AllStandingDone(slug: string -> string, w: World) {
    forall a :: Standing(w, a) ==> Done(slug, w, a)
  }

  ghost predicate AllTriaged(w: World) {
    forall id :: id in w.box.entries ==> !w.box.entries[id].status.Enqueued?
  }

  ghost predicate AllSurfaced(w: World) {
    forall i :: 0 <= i < |w.escalations| ==> Stamped(w, w.escalations[i], MAIN_INBOUND)
  }

  /** Everything asked of a world is done after a pass. */
  lemma PassDoes(slug: string -> string, w: World, now: real)
    requires D.Indexed(slug, w.box)
    ensures var w' := Pass(slug, w, now);
            Follows(slug, w, w') && forall a :: a in Work(w) ==> Done(slug, w', a)
  {
    var w' := Pass(slug, w, now);
    forall a | a in Actions(w) && a.Triage? ensures a.id < w.box.nextId {
      UnseenMembers(w, Work(w), a);
      WorkMembers(w, a);
    }
    ExecuteAllDoes(slug, w, Actions(w), now);
    forall a | a in Work(w) ensures Done(slug, w', a) { WorkDone(slug, w, w', a); }
  }

  lemma WorkDone(slug: string -> string, w: World, w': World, a: Action)
    requires Follows(slug, w, w') && a in Work(w) && (a in Actions(w) ==> Done(slug, w', a))
    ensures Done(slug, w', a)
  {
    UnseenMembers(w, Work(w), a);
    if Seen(w, a) {
      WorkMembers(w, a);
      ReplanWorkKind(w.replans);
      ForwardWorkKind(w.triggers);
      SeenIsDone(slug, w, a);
      DoneStays(slug, w, w', a);
    }
  }

  /** After one pass every replan, route and burial is done, for good. */
  lemma FirstPass(slug: string -> string, w: World, now: real)
    requires D.Indexed(slug, w.box)
    ensures D.Indexed(slug, Pass(slug, w, now).box) && AllStandingDone(slug, Pass(slug, w, now))
  {
    PassDoes(slug, w, now);
    forall a | Standing(w, a) ensures Done(slug, Pass(slug, w, now), a) { WorkMembers(w, a); }
  }

  lemma ActionKinds(slug: string -> string, w: World, a: Action)
    requires AllStandingDone(slug, w) && a in Actions(w)
    ensures !Seen(w, a) && (a.Triage? || a.Surface? || a.Bury?)
    ensures a.Triage? ==> a.id < w.box.nextId && a.id in w.box.entries && w.box.entries[a.id].status.Enqueued?
    ensures a.Surface? ==> a.eventId in w.escalations && !Stamped(w, a.eventId, MAIN_INBOUND)
    ensures a.Bury? ==> Lodged(slug, w.box, a.eventId) && RouteFails(a.eventId) in w.triggers
  {
    UnseenMembers(w, Work(w), a);
    WorkMembers(w, a);
    ReplanWorkKind(w.replans);
    ForwardWorkKind(w.triggers);
    assert Standing(w, a) ==> Done(slug, w, a);
  }

  /** A second pass leaves no entry waiting for triage. */
  lemma SecondPass(slug: string -> string, w: World, now: real)
    requires D.Indexed(slug, w.box) && AllStandingDone(slug, w)
    ensures var w' := Pass(slug, w, now); D.Indexed(slug, w'.box) && AllStandingDone(slug, w') && AllTriaged(w')
  {
    var w' := Pass(slug, w, now);
    PassDoes(slug, w, now);
    forall a | a in Actions(w) ensures a.Triage? ==> a.id < w.box.nextId { ActionKinds(slug, w, a); }
    assert BuriesLodged(slug, w, Actions(w)) by {
      forall a | a in Actions(w) && a.Bury? ensures Lodged(slug, w.box, a.eventId) { ActionKinds(slug, w, a); }
    }
    ExecuteAllDoes(slug, w, Actions(w), now);
    forall a | Standing(w', a) ensures Done(slug, w', a) { WorkMembers(w, a); }
    forall id | id in w'.box.entries ensures !w'.box.entries[id].status.Enqueued? {
      assert id < w.box.nextId;
      WorkMembers(w, Triage(id));
      assert Done(slug, w', Triage(id));
    }
  }

  /** A third pass leaves no escalation unshown. */
  lemma ThirdPass(slug: string -> string, w: World, now: real)
    requires D.Indexed(slug, w.box) && AllStandingDone(slug, w) && AllTriaged(w)
    ensures var w' := Pass(slug, w, now);
            D.Indexed(slug, w'.box) && AllStandingDone(slug, w') && AllTriaged(w') && AllSurfaced(w')
  {
    var w' := Pass(slug, w, now);
    SecondPass(slug, w, now);
    PassDoes(slug, w, now);
    forall a | a in Actions(w) ensures !a.Triage? { ActionKinds(slug, w, a); }
    ExecuteAllDoes(slug, w, Actions(w), now);
    forall i | 0 <= i < |w'.escalations| ensures Stamped(w', w'.escalations[i], MAIN_INBOUND) {
      WorkMembers(w, Surface(w'.escalations[i]));
      assert Done(slug, w', Surface(w'.escalations[i]));
    }
  }

  /** With everything done, a pass changes nothing; all it can still find is a failing event whose key
      another event's entry occupies. */
  lemma FourthPass(slug: string -> string, w: World, now: real)
    requires D.Indexed(slug, w.box) && AllStandingDone(slug, w) && AllTriaged(w) && AllSurfaced(w)
    ensures Pass(slug, w, now) == w
    ensures Actions(w) == [] <==> !Crowded(slug, w)
  {
    forall a | a in Actions(w) ensures a.Bury? && Lodged(slug, w.box, a.eventId) { ActionKinds(slug, w, a); }
    ExecuteAllDoes(slug, w, Actions(w), now);
    if Crowded(slug, w) {
      CollisionIsNeverQuiet(slug, w);
    } else if Actions(w) != [] {
      var a := FirstOf(Actions(w));
      ActionKinds(slug, w, a);
      LodgedAlone(slug, w, a.eventId);
      assert false;
    }
  }

  /** Where nobody else can occupy its key, a lodged event is its own occupant. */
  lemma LodgedAlone(slug: string -> string, w: World, event: string)
    requires !Crowded(slug, w) && Lodged(slug, w.box, event) && RouteFails(event) in w.triggers
    ensures Seen(w, Bury(event))
  {
    var id :| D.ActiveAt(slug, w.box, D.Key(slug(event), D.Unroutable), id);
    assert !Crowds(slug, w, event, w.box.entries[id].ref);
    assert UnroutableEntry(w, id, event);
  }

  // ------------------------------------------------------------ keys that others occupy

  /** The event's key is or will be taken under another reference: that of another failing event, or that
      of an active unroutable entry. */
  ghost predicate Crowds(slug: string -> string, w: World, event: string, other: string) {
    && RouteFails(event) in w.triggers && event != other && slug(event) == slug(other)
    && (RouteFails(other) in w.triggers || ActiveUnroutable(w, other))
  }

  ghost predicate Crowded(slug: string -> string, w: World) {
    exists event, other :: Crowds(slug, w, event, other)
  }

  /** The later world keeps every active unroutable entry, and adds them only for failing events. */
  ghost predicate Harbours(w: World, w': World) {
    && w'.triggers == w.triggers
    && (forall id: nat, ref :: UnroutableEntry(w, id, ref) ==> UnroutableEntry(w', id, ref))
    && (forall id: nat, ref :: UnroutableEntry(w', id, ref) ==> UnroutableEntry(w, id, ref) || RouteFails(ref) in w.triggers)
  }

  lemma HarboursKeepsCrowded(slug: string -> string, w: World, w': World)
    requires Harbours(w, w')
    ensures Crowded(slug, w) <==> Crowded(slug, w')
  {
    forall event, other ensures Crowds(slug, w, event, other) <==> Crowds(slug, w', event, other) {
      if ActiveUnroutable(w, other) {
        var id :| id in w.box.entries && UnroutableEntry(w, id, other);
        assert UnroutableEntry(w', id, other);
      }
      if ActiveUnroutable(w', other) {
        var id :| id in w'.box.entries && UnroutableEntry(w', id, other);
        assert UnroutableEntry(w, id, other) || RouteFails(other) in w.triggers;
      }
    }
    if event, other :| Crowds(slug, w, event, other) { assert Crowds(slug, w', event, other); }
    if event, other :| Crowds(slug, w', event, other) { assert Crowds(slug, w, event, other); }
  }

  lemma TriageHarbours(slug: string -> string, w: World, id: nat)
    requires D.Indexed(slug, w.box)
    ensures Harbours(w, TriageEntry(slug, w, id))
  {
    if id in w.box.entries && w.box.entries[id].status.Enqueued? {
      TriageOutcome(slug, w, id);
      OneEntryHarbours(w, TriageEntry(slug, w, id), id);
    }
  }

  lemma OneEntryHarbours(w: World, w': World, id: nat)
    requires w'.triggers == w.triggers && id in w.box.entries && id in w'.box.entries
    requires var e, e' := w.box.entries[id], w'.box.entries[id];
             && w'.box.entries == w.box.entries[id := e'] && e'.ref == e.ref && e'.reason == e.reason
             && (e.reason.Unroutable? ==> !D.Terminal(e) && !D.Terminal(e'))
    ensures Harbours(w, w')
  {
  }

  lemma BuryHarbours(slug: string -> string, w: World, event: string, now: real)
    requires D.Indexed(slug, w.box) && RouteFails(event) in w.triggers
    ensures Harbours(w, Execute(slug, w, Bury(event), now))
  {
  }

  lemma ExecuteHarbours(slug: string -> string, w: World, a: Action, now: real)
    requires D.Indexed(slug, w.box) && (a.Bury? ==> RouteFails(a.eventId) in w.triggers)
    ensures Harbours(w, Execute(slug, w, a, now))
  {
    match a
    case Triage(id) => TriageHarbours(slug, w, id);
    case Bury(event) => BuryHarbours(slug, w, event, now);
    case _ => assert Execute(slug, w, a, now).box == w.box;
  }

  lemma {:induction false} ExecuteAllHarbours(slug: string -> string, w: World, actions: seq<Action>, now: real)
    requires D.Indexed(slug, w.box) && forall a :: a in actions && a.Bury? ==> RouteFails(a.eventId) in w.triggers
    ensures D.Indexed(slug, ExecuteAll(slug, w, actions, now).box) && Harbours(w, ExecuteAll(slug, w, actions, now))
  {
    if actions != [] {
      var front, last := actions[..|actions| - 1], actions[|actions| - 1];
      assert forall a :: a in front ==> a in actions;
      ExecuteAllHarbours(slug, w, front, now);
      var before := ExecuteAll(slug, w, front, now);
      ExecuteDoes(slug, before, last, now);
      ExecuteHarbours(slug, before, last, now);
    }
  }

  lemma PassKeepsCrowded(slug: string -> string, w: World, now: real)
    requires D.Indexed(slug, w.box)
    ensures Crowded(slug, Pass(slug, w, now)) <==> Crowded(slug, w)
  {
    forall a | a in Actions(w) && a.Bury? ensures RouteFails(a.eventId) in w.triggers {
      UnseenMembers(w, Work(w), a);
      WorkMembers(w, a);
      ReplanWorkKind(w.replans);
      ForwardWorkKind(w.triggers);
    }
    ExecuteAllHarbours(slug, w, Actions(w), now);
    HarboursKeepsCrowded(slug, w, Pass(slug, w, now));
  }

  /** With a key crowded, one of its events is never lodged under its own name, so a pass always finds
      work, in every world. */
  lemma CollisionIsNeverQuiet(slug: string -> string, w: World)
    requires D.Indexed(slug, w.box) && Crowded(slug, w)
    ensures Actions(w) != []
  {
    var event, other :| Crowds(slug, w, event, other);
    AtMostOneSeen(slug, w, event, other);
    if ActiveUnroutable(w, event) { UnseenIsAction(w, other); } else { UnseenIsAction(w, event); }
  }

  lemma AtMostOneSeen(slug: string -> string, w: World, a: string, b: string)
    requires D.Indexed(slug, w.box) && a != b && slug(a) == slug(b)
    ensures !(ActiveUnroutable(w, a) && ActiveUnroutable(w, b))
  {
    forall i: nat, j: nat | UnroutableEntry(w, i, a) ensures !UnroutableEntry(w, j, b) {
      assert D.KeyOf(slug, w.box.entries[i]) == D.Key(slug(b), D.Unroutable);
    }
  }

  lemma UnseenIsAction(w: World, event: string)
    requires RouteFails(event) in w.triggers && !ActiveUnroutable(w, event)
    ensures Bury(event) in Actions(w)
  {
    ForwardWorkKind(w.triggers);
    WorkMembers(w, Bury(event));
    UnseenMembers(w, Work(w), Bury(event));
  }

  /** Left alone, every world is at rest after three passes: the fourth changes nothing. It finds nothing
      to do iff, to begin with, no failing event shared its slug with another one or with another
      reference's active unroutable entry; otherwise every later pass finds work and does nothing. */
  lemma QuietAfterThree(slug: string -> string, w: World, now1: real, now2: real, now3: real, now4: real)
    requires D.Indexed(slug, w.box)
    ensures var rest := Pass(slug, Pass(slug, Pass(slug, w, now1), now2), now3);
            Pass(slug, rest, now4) == rest && (Actions(rest) == [] <==> !Crowded(slug, w))
  {
    FirstPass(slug, w, now1);
    PassKeepsCrowded(slug, w, now1);
    var one := Pass(slug, w, now1);
    SecondPass(slug, one, now2);
    PassKeepsCrowded(slug, one, now2);
    var two := Pass(slug, one, now2);
    ThirdPass(slug, two, now3);
    PassKeepsCrowded(slug, two, now3);
    FourthPass(slug, Pass(slug, two, now3), now4);
  }

  function OneFailure(event: string, supply: nat -> string): World {
    World([], [RouteFails(event)], {}, map[], map[], {}, D.Empty, [], [], supply, 0)
  }

  /** Three passes can be needed: a failing route is buried by the first, escalated by the second, and
      shown to the owner by the third. */
  lemma FailingRouteTakesThree(slug: string -> string, event: string, supply: nat -> string, now: real)
    ensures var w0 := OneFailure(event, supply);
            var w1 := Pass(slug, w0, now);
            var w2 := Pass(slug, w1, now);
            var w3 := Pass(slug, w2, now);
            && w1.box.entries.Keys == {0} && w1.box.entries[0].ref == event && w1.escalations == []
            && w2.escalations == [supply(0)] && w2.dispatches == []
            && w3.dispatches == [(supply(0), MAIN_INBOUND)]
  {
    PassOne(slug, event, supply, now);
    PassTwo(slug, event, supply, now);
    PassThree(slug, event, supply, now);
  }

  function BuriedWorld(slug: string -> string, event: string, supply: nat -> string, now: real): World {
    OneFailure(event, supply).(box := D.EnqueueBox(slug, D.Empty, event, D.Unroutable, now))
  }

  lemma OnlyUnseen(w: World, a: Action, rest: seq<Action>)
    requires !Seen(w, a) && forall b :: b in rest ==> Seen(w, b)
    ensures Unseen(w, [a] + rest) == [a]
    decreases |rest|
  {
    if rest == [] {
      assert [a] + rest == [a] && [a][..0] == [];
    } else {
      var last := |rest| - 1;
      assert ([a] + rest)[..|rest|] == [a] + rest[..last];
      OnlyUnseen(w, a, rest[..last]);
    }
  }

  lemma OneAction(slug: string -> string, w: World, a: Action, now: real)
    requires Actions(w) == [a]
    ensures Pass(slug, w, now) == Execute(slug, w, a, now)
  {
    assert [a][..0] == [];
    assert ExecuteAll(slug, w, [], now) == w;
    assert ExecuteAll(slug, w, [a], now) == Execute(slug, w, a, now);
  }

  lemma ForwardOfOne(event: string)
    ensures ForwardWork([RouteFails(event)]) == [Bury(event)]
  {
    assert [RouteFails(event)][..0] == [];
  }

  lemma PassOne(slug: string -> string, event: string, supply: nat -> string, now: real)
    ensures Pass(slug, OneFailure(event, supply), now) == BuriedWorld(slug, event, supply, now)
  {
    var w := OneFailure(event, supply);
    ForwardOfOne(event);
    assert Work(w) == [Bury(event)] + [];
    OnlyUnseen(w, Bury(event), []);
    OneAction(slug, w, Bury(event), now);
  }

  lemma PassTwo(slug: string -> string, event: string, supply: nat -> string, now: real)
    ensures Pass(slug, BuriedWorld(slug, event, supply, now), now) == TriageEntry(slug, BuriedWorld(slug, event, supply, now), 0)
  {
    var w := BuriedWorld(slug, event, supply, now);
    ForwardOfOne(event);
    assert TriageWork(1) == [Triage(0)];
    assert Work(w) == [Triage(0)] + [Bury(event)];
    assert UnroutableEntry(w, 0, event);
    OnlyUnseen(w, Triage(0), [Bury(event)]);
    OneAction(slug, w, Triage(0), now);
  }

  lemma PassThree(slug: string -> string, event: string, supply: nat -> string, now: real)
    ensures var w := TriageEntry(slug, BuriedWorld(slug, event, supply, now), 0);
            Pass(slug, w, now) == Dispatch(w, supply(0), MAIN_INBOUND)
  {
    var w := TriageEntry(slug, BuriedWorld(slug, event, supply, now), 0);
    assert UnroutableEntry(w, 0, event);
    ShownNext(slug, w, event, supply(0), now);
  }

  lemma ShownNext(slug: string -> string, w: World, event: string, shown: string, now: real)
    requires w.replans == [] && w.box.nextId == 1 && w.escalations == [shown] && w.triggers == [RouteFails(event)]
    requires Seen(w, Triage(0)) && !Seen(w, Surface(shown)) && Seen(w, Bury(event))
    ensures Pass(slug, w, now) == Dispatch(w, shown, MAIN_INBOUND)
  {
    ShownWork(w, event, shown);
    OnlyUnseen(w, Surface(shown), [Bury(event)]);
    SeenFirst(w, Triage(0), [Surface(shown)] + [Bury(event)]);
    OneAction(slug, w, Surface(shown), now);
  }

  lemma ShownWork(w: World, event: string, shown: string)
    requires w.replans == [] && w.box.nextId == 1 && w.escalations == [shown] && w.triggers == [RouteFails(event)]
    ensures Work(w) == [Triage(0)] + ([Surface(shown)] + [Bury(event)])
  {
    ForwardOfOne(event);
    assert ReplanWork(w.replans) == [];
    assert TriageWork(1) == [Triage(0)];
    assert SurfaceWork([shown]) == [Surface(shown)];
  }

  lemma {:induction false} SeenFirst(w: World, a: Action, rest: seq<Action>)
    requires Seen(w, a)
    ensures Unseen(w, [a] + rest) == Unseen(w, rest)
    decreases |rest|
  {
    if rest == [] {
      assert [a] + rest == [a] && [a][..0] == [];
    } else {
      var last := |rest| - 1;
      assert ([a] + rest)[..|rest|] == [a] + rest[..last];
      SeenFirst(w, a, rest[..last]);
    }
  }

  // ------------------------------------------------------------ what a pass may do at all

  /** The triage table: an unroutable entry is escalated with one new escalation, a structural failure is
      retired as deterministic, a tripped circuit as exhausted; nothing is ever called redispatched. */
  lemma TriageOutcome(slug: string -> string, w: World, id: nat)
    requires D.Indexed(slug, w.box) && id in w.box.entries && w.box.entries[id].status.Enqueued?
    ensures var w', was := TriageEntry(slug, w, id), w.box.entries[id];
            && id in w'.box.entries && w'.box.entries == w.box.entries[id := w'.box.entries[id]]
            && w'.box.entries[id] == Decided(was)
            && w'.escalations == w.escalations + (if was.reason.Unroutable? then [w.supply(w.drawn)] else [])
            && (w'.dispatches, w'.backlog, w'.composite) == (w.dispatches, w.backlog, w.composite)
  {
    var claimed := D.MoveBox(slug, w.box, id, D.StartTriage, 0);
    assert claimed.entries[id].status.UnderTriage?;
  }

  // ------------------------------------------------------------ what one pass does, read off the world it begins in

  /** To be dispatched now: a partial replan to planning, or an escalation to the owner, without a stamp. */
  ghost predicate Due(w: World, event: string, target: string) {
    && (event, target) !in w.composite && event !in w.bare
    && ((target == "planning" && exists r :: r in w.replans && r.eventId == event && r.planId != "" && !r.full)
        || (target == "main-inbound" && event in w.escalations))
  }

  ghost predicate Routes(w: World, event: string, target: string) {
    exists targets :: Routed(event, targets) in w.triggers && target in targets
  }

  /** A route that nothing shows was really taken: no stamp, or one of a pretended dispatch whose finding
      is not settled. */
  ghost predicate Gap(w: World, event: string, target: string) {
    && Routes(w, event, target)
    && target !in {"execution", "main-inbound", "Nature dashboard", "no-route"}
    && ((event, target) in w.composite ==> !w.composite[(event, target)] && (event, target) !in w.settled)
    && ((event, target) !in w.composite && event in w.bare ==> !w.bare[event] && (event, target) !in w.settled)
  }

  /** The entry once triage has decided it. */
  ghost function Decided(e: D.Entry): D.Entry {
    match e.reason
    case Unroutable => e.(status := D.Escalated)
    case StructuralFailure => e.(status := D.Retired, retireReason := Some(D.Deterministic))
    case CircuitTripped => e.(status := D.Retired, retireReason := Some(D.ReentryExhausted))
  }

  /** Asked for is what is due, each gap not marked yet, each waiting entry, and each event whose routing
      fails and that has no active entry of its own. */
  ghost predicate AreTheGaps(w: World, actions: seq<Action>) {
    && (forall event :: RePlan(event) in actions <==> Due(w, event, "planning"))
    && (forall event :: Surface(event) in actions <==> Due(w, event, "main-inbound"))
    && (forall event, target :: Backfill(event, target) in actions <==> Gap(w, event, target) && (event, target) !in w.backlog)
    && (forall id: nat :: Triage(id) in actions <==> id in w.box.entries && w.box.entries[id].status == D.Enqueued)
    && (forall event :: Bury(event) in actions <==> RouteFails(event) in w.triggers && !exists id :: Holds(w.box, id, event))
  }

  ghost predicate Holds(box: D.Box, id: nat, event: string) {
    && id in box.entries && box.entries[id].ref == event && box.entries[id].reason == D.Unroutable
    && box.entries[id].status in {D.Enqueued, D.UnderTriage, D.Escalated}
  }

  ghost predicate Asked(actions: seq<Action>, event: string, target: string) {
    (target == PLANNING && RePlan(event) in actions) || (target == MAIN_INBOUND && Surface(event) in actions)
  }

  /** The stamps, dispatches and markers after these actions. */
  ghost predicate Carried(w: World, actions: seq<Action>, w': World) {
    && (forall event, target :: Asked(actions, event, target) ==> !Stamped(w, event, target))
    && (forall m :: m in w'.composite <==> m in w.composite || Asked(actions, m.0, m.1))
    && (forall m :: m in w'.composite ==> w'.composite[m] == if m in w.composite then w.composite[m] else true)
    && w'.bare == w.bare
    && w.dispatches <= w'.dispatches
    && (forall m :: m in w'.dispatches[|w.dispatches|..] <==> Asked(actions, m.0, m.1))
    && (forall m :: m in w'.backlog <==> m in w.backlog || (Backfill(m.0, m.1) in actions && !Asked(actions, m.0, m.1)))
  }

  /** Everything here was unseen, and the dispatches come before the markers. */
  ghost predicate InTurn(w: World, actions: seq<Action>) {
    && (forall a :: a in actions ==> !Seen(w, a))
    && (forall i, j :: 0 <= i < j < |actions| && actions[i].Backfill? ==> !actions[j].RePlan? && !actions[j].Surface?)
  }

  lemma {:induction false} ExecuteAllCarries(slug: string -> string, w: World, actions: seq<Action>, now: real)
    requires InTurn(w, actions)
    ensures Carried(w, actions, ExecuteAll(slug, w, actions, now))
  {
    if actions != [] {
      var front, last := actions[..|actions| - 1], actions[|actions| - 1];
      assert actions == front + [last];
      ExecuteAllCarries(slug, w, front, now);
      var before := ExecuteAll(slug, w, front, now);
      assert last in actions;
      assert last.RePlan? || last.Surface? ==> forall a :: a in front ==> !a.Backfill?;
      ExecuteCarries(slug, w, front, last, before, now);
    }
  }

  lemma ExecuteCarries(slug: string -> string, w: World, front: seq<Action>, last: Action, before: World, now: real)
    requires Carried(w, front, before) && !Seen(w, last)
    requires last.RePlan? || last.Surface? ==> forall a :: a in front ==> !a.Backfill?
    ensures Carried(w, front + [last], Execute(slug, before, last, now))
  {
    match last
    case RePlan(event) => DispatchCarries(w, front, last, before, event, PLANNING);
    case Surface(event) => DispatchCarries(w, front, last, before, event, MAIN_INBOUND);
    case Backfill(event, target) => BackfillCarries(slug, w, front, before, event, target, now);
    case _ => NothingCarried(slug, w, front, last, before, now);
  }

  lemma BackfillCarries(slug: string -> string, w: World, front: seq<Action>, before: World, event: string, target: string, now: real)
    requires Carried(w, front, before) && !Seen(w, Backfill(event, target))
    ensures Carried(w, front + [Backfill(event, target)], Execute(slug, before, Backfill(event, target), now))
  {
    forall e, t ensures Asked(front + [Backfill(event, target)], e, t) <==> Asked(front, e, t) {
    }
    assert RealStamp(before, event, target) <==> Asked(front, event, target) by {
      assert (event, target) in before.composite <==> (event, target) in w.composite || Asked(front, event, target);
    }
  }

  lemma NothingCarried(slug: string -> string, w: World, front: seq<Action>, last: Action, before: World, now: real)
    requires Carried(w, front, before) && (last.Triage? || last.Bury?)
    ensures Carried(w, front + [last], Execute(slug, before, last, now))
  {
    var w' := Execute(slug, before, last, now);
    assert (w'.composite, w'.bare, w'.dispatches, w'.backlog) == (before.composite, before.bare, before.dispatches, before.backlog);
    forall e, t ensures Asked(front + [last], e, t) <==> Asked(front, e, t) {
    }
    forall e, t ensures Backfill(e, t) in front + [last] <==> Backfill(e, t) in front {
    }
  }

  lemma DispatchCarries(w: World, front: seq<Action>, last: Action, before: World, event: string, target: string)
    requires Carried(w, front, before) && !Stamped(w, event, target)
    requires last == (if target == PLANNING then RePlan(event) else Surface(event)) && target in {PLANNING, MAIN_INBOUND}
    requires forall a :: a in front ==> !a.Backfill?
    ensures Carried(w, front + [last], Dispatch(before, event, target))
  {
    forall e, t ensures Asked(front + [last], e, t) <==> Asked(front, e, t) || (e, t) == (event, target) {
    }
    var w' := Dispatch(before, event, target);
    var n := |w.dispatches|;
    if !Stamped(before, event, target) {
      assert w'.dispatches[n..] == before.dispatches[n..] + [(event, target)];
    }
  }

  lemma {:induction false} UnseenAppend(w: World, a: seq<Action>, b: seq<Action>)
    ensures Unseen(w, a + b) == Unseen(w, a) + Unseen(w, b)
  {
    if b == [] {
      assert a + b == a;
    } else {
      var last := |b| - 1;
      assert (a + b)[..|a + b| - 1] == a + b[..last];
      UnseenAppend(w, a, b[..last]);
    }
  }

  lemma ActionsInTurn(w: World)
    ensures InTurn(w, Actions(w))
  {
    var rest := ReplanWork(w.replans) + TriageWork(w.box.nextId) + SurfaceWork(w.escalations);
    var forward := ForwardWork(w.triggers);
    UnseenAppend(w, rest, forward);
    ReplanWorkKind(w.replans);
    ForwardWorkKind(w.triggers);
    forall a ensures a in Actions(w) ==> !Seen(w, a) { UnseenMembers(w, Work(w), a); }
    forall a | a in Unseen(w, rest) ensures !a.Backfill? { UnseenMembers(w, rest, a); }
    forall a | a in Unseen(w, forward) ensures !a.RePlan? && !a.Surface? { UnseenMembers(w, forward, a); }
    TurnsAppend(Unseen(w, rest), Unseen(w, forward));
  }

  lemma TurnsAppend(a: seq<Action>, b: seq<Action>)
    requires (forall x :: x in a ==> !x.Backfill?) && (forall x :: x in b ==> !x.RePlan? && !x.Surface?)
    ensures forall i, j :: 0 <= i < j < |a + b| && (a + b)[i].Backfill? ==> !(a + b)[j].RePlan? && !(a + b)[j].Surface?
  {
    forall i | 0 <= i < |a| ensures !(a + b)[i].Backfill? { assert (a + b)[i] in a; }
    forall j | |a| <= j < |a + b| ensures !(a + b)[j].RePlan? && !(a + b)[j].Surface? { assert (a + b)[j] in b; }
  }

  lemma {:induction false} ReplanWorkMembers(replans: seq<Replan>, event: string)
    ensures RePlan(event) in ReplanWork(replans) <==> exists r :: r in replans && r.eventId == event && r.planId != "" && !r.full
  {
    if replans != [] {
      var front, last := replans[..|replans| - 1], replans[|replans| - 1];
      ReplanWorkMembers(front, event);
      assert replans == front + [last];
    }
  }

  lemma {:induction false} ForwardWorkMembers(triggers: seq<Trigger>, event: string, target: string)
    ensures Backfill(event, target) in ForwardWork(triggers) <==> exists targets :: Routed(event, targets) in triggers && target in targets
  {
    if triggers != [] {
      var front, last := triggers[..|triggers| - 1], triggers[|triggers| - 1];
      ForwardWorkMembers(front, event, target);
      assert triggers == front + [last];
      OneTriggerMembers(last, event, target);
    }
  }

  lemma OneTriggerMembers(t: Trigger, event: string, target: string)
    ensures Backfill(event, target) in TriggerWork(t) <==> t.Routed? && t.eventId == event && target in t.targets
  {
    if t.Routed? && t.eventId == event && target in t.targets {
      var i :| 0 <= i < |t.targets| && t.targets[i] == target;
      assert TriggerWork(t)[i] == Backfill(event, target);
    }
  }

  /** What is asked of a pass is what is due. */
  lemma AskedIsDue(w: World, event: string, target: string)
    ensures Asked(Actions(w), event, target) <==> Due(w, event, target)
  {
    ReplanWorkMembers(w.replans, event);
    ForwardWorkKind(w.triggers);
    ReplanWorkKind(w.replans);
    ActionMembers(w, RePlan(event));
    ActionMembers(w, Surface(event));
  }

  /** The markers asked for are the gaps not marked yet. */
  lemma MarkedIsGap(w: World, event: string, target: string)
    ensures Backfill(event, target) in Actions(w) <==> Gap(w, event, target) && (event, target) !in w.backlog
  {
    ForwardWorkMembers(w.triggers, event, target);
    ReplanWorkKind(w.replans);
    ActionMembers(w, Backfill(event, target));
  }

  lemma ActionMembers(w: World, a: Action)
    ensures a in Actions(w) <==> (Standing(w, a) || (a.Triage? && a.id < w.box.nextId) || (a.Surface? && a.eventId in w.escalations)) && !Seen(w, a)
  {
    UnseenMembers(w, Work(w), a);
    WorkMembers(w, a);
  }

  lemma ActionsAreTheGaps(w: World)
    ensures (forall id :: id in w.box.entries ==> id < w.box.nextId) ==> AreTheGaps(w, Actions(w))
  {
    forall event, target
      ensures Asked(Actions(w), event, target) <==> Due(w, event, target)
      ensures Backfill(event, target) in Actions(w) <==> Gap(w, event, target) && (event, target) !in w.backlog
    {
      AskedIsDue(w, event, target);
      MarkedIsGap(w, event, target);
    }
    forall event ensures RePlan(event) in Actions(w) <==> Due(w, event, "planning") {
      assert RePlan(event) in Actions(w) <==> Asked(Actions(w), event, PLANNING);
    }
    forall event ensures Surface(event) in Actions(w) <==> Due(w, event, "main-inbound") {
      assert Surface(event) in Actions(w) <==> Asked(Actions(w), event, MAIN_INBOUND);
    }
    ReplanWorkKind(w.replans);
    ForwardWorkKind(w.triggers);
    forall id: nat ensures Triage(id) in Actions(w) <==> id in w.box.entries && w.box.entries[id].status == D.Enqueued && id < w.box.nextId {
      ActionMembers(w, Triage(id));
    }
    forall event ensures Bury(event) in Actions(w) <==> RouteFails(event) in w.triggers && !exists id :: Holds(w.box, id, event) {
      ActionMembers(w, Bury(event));
      ActiveIsHeld(w, event);
    }
  }

  lemma ActiveIsHeld(w: World, event: string)
    ensures ActiveUnroutable(w, event) <==> exists id :: Holds(w.box, id, event)
  {
    if id :| id in w.box.entries && UnroutableEntry(w, id, event) { assert Holds(w.box, id, event); }
    if id :| Holds(w.box, id, event) { assert UnroutableEntry(w, id, event); }
  }

  /** The inbox and the escalations after these actions. */
  ghost predicate Filed(w: World, actions: seq<Action>, w': World) {
    EntriesFiled(w.box, actions, w'.box) && OwnerAsked(w, actions, w')
  }

  ghost predicate EntriesFiled(box: D.Box, actions: seq<Action>, box': D.Box) {
    && box.entries.Keys <= box'.entries.Keys
    && (forall id :: id in box.entries ==>
          box'.entries[id] == if Triage(id) in actions then Decided(box.entries[id]) else box.entries[id])
    && (forall id :: id in box'.entries && id !in box.entries ==> Newcomer(actions, box'.entries[id]))
  }

  ghost predicate OwnerAsked(w: World, actions: seq<Action>, w': World) {
    && w'.supply == w.supply && w.drawn <= w'.drawn
    && w'.drawn - w.drawn == |Raised(w.box, actions)|
    && w'.escalations == w.escalations + seq(w'.drawn - w.drawn, i requires 0 <= i < w'.drawn - w.drawn => w.supply(w.drawn + i))
  }

  ghost predicate Newcomer(actions: seq<Action>, e: D.Entry) {
    e.status.Enqueued? && e.reason.Unroutable? && Bury(e.ref) in actions
  }

  ghost function Raised(box: D.Box, actions: seq<Action>): set<nat> {
    set id | id in box.entries && box.entries[id].reason.Unroutable? && Triage(id) in actions
  }

  lemma {:induction false} ExecuteAllFiles(slug: string -> string, w: World, actions: seq<Action>, now: real)
    requires D.Indexed(slug, w.box)
    requires forall a :: a in actions ==> !Seen(w, a)
    ensures Filed(w, actions, ExecuteAll(slug, w, actions, now)) && D.Indexed(slug, ExecuteAll(slug, w, actions, now).box)
  {
    if actions != [] {
      var front, last := actions[..|actions| - 1], actions[|actions| - 1];
      assert actions == front + [last];
      ExecuteAllFiles(slug, w, front, now);
      var before := ExecuteAll(slug, w, front, now);
      assert last in actions;
      ExecuteKeepsIndex(slug, before, last, now);
      ExecuteFiles(slug, w, front, last, before, now);
    } else {
      NothingFiled(w);
    }
  }

  lemma NothingFiled(w: World)
    ensures Filed(w, [], w)
  {
    assert Raised(w.box, []) == {};
  }

  lemma ExecuteKeepsIndex(slug: string -> string, w: World, a: Action, now: real)
    requires D.Indexed(slug, w.box)
    ensures D.Indexed(slug, Execute(slug, w, a, now).box)
  {
    ExecuteDoes(slug, w, a, now);
  }

  lemma ExecuteFiles(slug: string -> string, w: World, front: seq<Action>, last: Action, before: World, now: real)
    requires D.Indexed(slug, before.box) && Filed(w, front, before) && !Seen(w, last)
    ensures Filed(w, front + [last], Execute(slug, before, last, now))
  {
    match last
    case Triage(id) => TriageFiles(slug, w, front, id, before);
    case Bury(event) => BuryFiles(slug, w, front, event, before, now);
    case _ => SameFiles(w, front, last, before, Execute(slug, before, last, now));
  }

  lemma SameFiles(w: World, front: seq<Action>, last: Action, before: World, w': World)
    requires Filed(w, front, before) && (last.Triage? ==> last in front)
    requires (w'.box, w'.escalations, w'.drawn, w'.supply) == (before.box, before.escalations, before.drawn, before.supply)
    ensures Filed(w, front + [last], w')
  {
    assert Raised(w.box, front + [last]) == Raised(w.box, front);
  }

  lemma TriageFiles(slug: string -> string, w: World, front: seq<Action>, id: nat, before: World)
    requires D.Indexed(slug, before.box) && Filed(w, front, before)
    requires id in w.box.entries && w.box.entries[id].status.Enqueued?
    ensures Filed(w, front + [Triage(id)], TriageEntry(slug, before, id))
  {
    if Triage(id) in front {
      SameFiles(w, front, Triage(id), before, TriageEntry(slug, before, id));
    } else {
      var w' := TriageEntry(slug, before, id);
      TriageOutcome(slug, before, id);
      EntryDecided(w.box, front, id, before.box, w'.box);
      OwnerAskedNext(w, front, id, before, w');
    }
  }

  lemma OwnerAskedNext(w: World, front: seq<Action>, id: nat, before: World, w': World)
    requires OwnerAsked(w, front, before) && id in w.box.entries && Triage(id) !in front
    requires var more := if w.box.entries[id].reason.Unroutable? then 1 else 0;
             && w'.supply == w.supply && w'.drawn == before.drawn + more
             && w'.escalations == before.escalations + (if more == 1 then [before.supply(before.drawn)] else [])
    ensures OwnerAsked(w, front + [Triage(id)], w')
  {
    RaisedNext(w.box, front, id);
  }

  lemma RaisedNext(box: D.Box, front: seq<Action>, id: nat)
    requires id in box.entries && Triage(id) !in front
    ensures |Raised(box, front + [Triage(id)])| == |Raised(box, front)| + if box.entries[id].reason.Unroutable? then 1 else 0
  {
    var raised := Raised(box, front);
    assert Raised(box, front + [Triage(id)]) == if box.entries[id].reason.Unroutable? then raised + {id} else raised;
  }

  lemma EntryDecided(box: D.Box, front: seq<Action>, id: nat, before: D.Box, box': D.Box)
    requires EntriesFiled(box, front, before) && id in box.entries && Triage(id) !in front
    requires box'.entries == before.entries[id := Decided(before.entries[id])]
    ensures EntriesFiled(box, front + [Triage(id)], box')
  {
    forall k: nat ensures Triage(k) in front + [Triage(id)] <==> Triage(k) in front || k == id {
    }
    forall k | k in box'.entries && k !in box.entries ensures Newcomer(front + [Triage(id)], box'.entries[k]) {
      assert Newcomer(front, before.entries[k]);
    }
  }

  lemma FiledOnce(slug: string -> string, box: D.Box, event: string, now: real)
    requires D.Indexed(slug, box)
    ensures var entries' := D.EnqueueBox(slug, box, event, D.Unroutable, now).entries;
            || entries' == box.entries
            || (&& box.nextId !in box.entries && box.nextId in entries' && entries' == box.entries[box.nextId := entries'[box.nextId]]
                && Waits(entries'[box.nextId]) && entries'[box.nextId].ref == event)
  {
  }

  lemma BuryFiles(slug: string -> string, w: World, front: seq<Action>, event: string, before: World, now: real)
    requires D.Indexed(slug, before.box) && Filed(w, front, before)
    ensures Filed(w, front + [Bury(event)], before.(box := D.EnqueueBox(slug, before.box, event, D.Unroutable, now)))
  {
    var actions, box' := front + [Bury(event)], D.EnqueueBox(slug, before.box, event, D.Unroutable, now);
    FiledOnce(slug, before.box, event, now);
    assert Bury(event) in actions;
    forall k: nat ensures Triage(k) in actions <==> Triage(k) in front {
    }
    assert Raised(w.box, actions) == Raised(w.box, front);
    forall k | k in box'.entries && k !in w.box.entries ensures Newcomer(actions, box'.entries[k]) {
      assert k in before.box.entries ==> Newcomer(front, before.box.entries[k]);
    }
  }

  /** One pass, exactly. It dispatches what is due and stamps it; it marks every gap that it does not
      dispatch; it decides every waiting entry and raises one new escalation for each unroutable one; it
      lodges every event whose routing fails, and files nothing else. */
  lemma PassIsExact(slug: string -> string, w: World, now: real)
    requires D.Indexed(slug, w.box)
    ensures var w' := Pass(slug, w, now);
            && w.dispatches <= w'.dispatches
            && (forall event, target :: (event, target) in w'.dispatches[|w.dispatches|..] <==> Due(w, event, target))
            && (forall event, target :: (event, target) in w'.composite <==> (event, target) in w.composite || Due(w, event, target))
            && (forall m :: m in w'.composite ==> w'.composite[m] == if m in w.composite then w.composite[m] else true)
            && (forall event, target :: (event, target) in w'.backlog
                  <==> (event, target) in w.backlog || (Gap(w, event, target) && !Due(w, event, target)))
    ensures var w' := Pass(slug, w, now);
            && w.box.entries.Keys <= w'.box.entries.Keys
            && (forall id :: id in w.box.entries ==>
                  w'.box.entries[id] == if w.box.entries[id].status.Enqueued? then Decided(w.box.entries[id]) else w.box.entries[id])
            && (forall id :: id in w'.box.entries && id !in w.box.entries ==> FiledFor(w, w'.box.entries[id]))
            && (forall event :: RouteFails(event) in w.triggers ==> exists id :: Occupies(slug, w'.box, id, event))
            && w.escalations <= w'.escalations
            && |w'.escalations| == |w.escalations| + |set id | id in w.box.entries && Waits(w.box.entries[id])|
  {
    var actions := Actions(w);
    ActionsInTurn(w);
    ExecuteAllCarries(slug, w, actions, now);
    ExecuteAllFiles(slug, w, actions, now);
    forall event, target
      ensures Asked(actions, event, target) <==> Due(w, event, target)
      ensures Backfill(event, target) in actions <==> Gap(w, event, target) && (event, target) !in w.backlog
    {
      AskedIsDue(w, event, target);
      MarkedIsGap(w, event, target);
    }
    PassFiles(slug, w, now);
    PassLodges(slug, w, now);
  }

  ghost predicate Waits(e: D.Entry) {
    e.status == D.Enqueued && e.reason == D.Unroutable
  }

  ghost predicate FiledFor(w: World, e: D.Entry) {
    Waits(e) && RouteFails(e.ref) in w.triggers
  }

  /** The entry keeps the event's key from being filed again. */
  ghost predicate Occupies(slug: string -> string, box: D.Box, id: nat, event: string) {
    && id in box.entries && slug(box.entries[id].ref) == slug(event) && box.entries[id].reason == D.Unroutable
    && box.entries[id].status in {D.Enqueued, D.UnderTriage, D.Escalated}
  }

  lemma PassFiles(slug: string -> string, w: World, now: real)
    requires D.Indexed(slug, w.box) && Filed(w, Actions(w), Pass(slug, w, now))
    ensures forall id: nat :: Triage(id) in Actions(w) <==> id in w.box.entries && w.box.entries[id].status.Enqueued?
    ensures forall event :: Bury(event) in Actions(w) ==> RouteFails(event) in w.triggers
    ensures Raised(w.box, Actions(w)) == set id | id in w.box.entries && Waits(w.box.entries[id])
  {
    ReplanWorkKind(w.replans);
    ForwardWorkKind(w.triggers);
    forall id: nat ensures Triage(id) in Actions(w) <==> id in w.box.entries && w.box.entries[id].status.Enqueued? {
      ActionMembers(w, Triage(id));
    }
    forall event | Bury(event) in Actions(w) ensures RouteFails(event) in w.triggers { ActionMembers(w, Bury(event)); }
  }

  lemma PassLodges(slug: string -> string, w: World, now: real)
    requires D.Indexed(slug, w.box)
    ensures forall event :: RouteFails(event) in w.triggers ==> exists id :: Occupies(slug, Pass(slug, w, now).box, id, event)
  {
    var w' := Pass(slug, w, now);
    PassDoes(slug, w, now);
    FirstPass(slug, w, now);
    ForwardWorkKind(w.triggers);
    forall event | RouteFails(event) in w.triggers ensures exists id :: Occupies(slug, w'.box, id, event) {
      assert Standing(w, Bury(event)) && Standing(w', Bury(event));
      assert Done(slug, w', Bury(event));
      var id :| D.ActiveAt(slug, w'.box, D.Key(slug(event), D.Unroutable), id);
      assert Occupies(slug, w'.box, id, event);
    }
  }

  // ------------------------------------------------------------ at most one dispatch per stamp

  ghost predicate DispatchedOnce(w: World) {
    && (forall i :: 0 <= i < |w.dispatches| ==> w.dispatches[i] in w.composite)
    && (forall i, j :: 0 <= i < j < |w.dispatches| ==> w.dispatches[i] != w.dispatches[j])
  }

  /** Anything may happen between passes, so long as no stamp is taken away. */
  ghost predicate StampsKept(w: World, w': World) {
    w'.dispatches == w.dispatches && w.composite.Keys <= w'.composite.Keys
  }

  datatype Turn = PassAt(now: real) | Outside(world: World)

  ghost function Next(slug: string -> string, w: World, turn: Turn): World {
    match turn
    case PassAt(now) => Pass(slug, w, now)
    case Outside(w') => if StampsKept(w, w') then w' else w
  }

  ghost function Run(slug: string -> string, w: World, turns: seq<Turn>): World {
    if turns == [] then w else Next(slug, Run(slug, w, turns[..|turns| - 1]), turns[|turns| - 1])
  }

  lemma {:induction false} ExecuteAllOnce(slug: string -> string, w: World, actions: seq<Action>, now: real)
    requires DispatchedOnce(w)
    ensures DispatchedOnce(ExecuteAll(slug, w, actions, now))
  {
    if actions != [] {
      ExecuteAllOnce(slug, w, actions[..|actions| - 1], now);
      ExecuteOnce(slug, ExecuteAll(slug, w, actions[..|actions| - 1], now), actions[|actions| - 1], now);
    }
  }

  lemma ExecuteOnce(slug: string -> string, w: World, a: Action, now: real)
    requires DispatchedOnce(w)
    ensures DispatchedOnce(Execute(slug, w, a, now))
  {
  }

  /** Over any run of passes, with any outside changes between them, each (event, target) is dispatched
      by a pass at most once. */
  lemma {:induction false} EachStampDispatchedOnce(slug: string -> string, w: World, turns: seq<Turn>)
    requires w.dispatches == []
    ensures DispatchedOnce(Run(slug, w, turns))
  {
    if turns != [] {
      EachStampDispatchedOnce(slug, w, turns[..|turns| - 1]);
      var before := Run(slug, w, turns[..|turns| - 1]);
      match turns[|turns| - 1]
      case PassAt(now) => ExecuteAllOnce(slug, before, Actions(before), now);
      case Outside(_) =>
    }
  }
}
