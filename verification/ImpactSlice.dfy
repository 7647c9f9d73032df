/** Impact slicing: breadth-first search over typed concept edges, recording for every node the
    first path that reaches it. */
module ImpactSlice {
  import opened Prelude

  const MAX_DEPTH_CAP := 5

  /** One edge of the impact graph; a field is None when it is missing or not a string. */
  datatype RawEdge = RawEdge(
    kind: Option<string>, edgeType: Option<string>,
    source: Option<string>, target: Option<string>, edgeId: Option<string>)

  /** One adjacency item: the neighbour, and the edge that leads to it. */
  datatype Hop = Hop(node: string, edgeId: string, edgeType: string)

  type Adjacency = map<string, seq<Hop>>

  /** One slice result. */
  datatype Found = Found(node: string, depth: nat, path: seq<string>, edgeTypes: seq<string>)

  /** One queue item. */
  datatype Visit = Visit(node: string, depth: nat, path: seq<string>, edgeTypes: seq<string>)

  function ClampDepth(depth: int): (d: nat)
    ensures d <= MAX_DEPTH_CAP
    ensures 0 <= depth <= MAX_DEPTH_CAP ==> d == depth
    ensures depth < 0 ==> d == 0
    ensures depth > MAX_DEPTH_CAP ==> d == MAX_DEPTH_CAP
  {
    Max(0, Min(MAX_DEPTH_CAP, depth))
  }

  // ---------------------------------------------------------------------------------------------
  // Edges and adjacency
  // ---------------------------------------------------------------------------------------------

  /** A concept edge of a wanted type with two non-empty endpoints. */
  predicate Usable(e: RawEdge, types: set<string>) {
    && e.kind == Some("concept")
    && e.edgeType.Some? && e.edgeType.value in types
    && e.source.Some? && e.target.Some? && e.source.value != "" && e.target.value != ""
  }

  function Text(field: Option<string>): string {
    if field.Some? then field.value else ""
  }

  /** The edge's own id, or the one made up from its endpoints when it has none. */
  function EdgeIdOf(e: RawEdge): string {
    if Text(e.edgeId) != "" then Text(e.edgeId)
    else Text(e.source) + "->" + Text(e.target) + ":" + Text(e.edgeType)
  }

  /** The end the edge is entered from. */
  function Tail(e: RawEdge, reverse: bool): string {
    Text(if reverse then e.target else e.source)
  }

  function HopOf(e: RawEdge, reverse: bool): Hop {
    Hop(Tail(e, !reverse), EdgeIdOf(e), Text(e.edgeType))
  }

  /** The adjacency items of one node, in edge order. */
  function HopsFrom(edges: seq<RawEdge>, types: set<string>, reverse: bool, node: string): seq<Hop> {
    if edges == [] then []
    else
      var e := edges[|edges| - 1];
      HopsFrom(edges[..|edges| - 1], types, reverse, node) +
      (if Usable(e, types) && Tail(e, reverse) == node then [HopOf(e, reverse)] else [])
  }

  function AdjacencyOf(edges: seq<RawEdge>, types: set<string>, reverse: bool): Adjacency {
    map n | n in Tails(edges, types, reverse) :: HopsFrom(edges, types, reverse, n)
  }

  // The same, said of the fields alone.

  /** A concept edge of a wanted type that leads from one node to another. */
  ghost predicate Joins(e: RawEdge, types: set<string>, from: string, to: string) {
    && e.kind == Some("concept") && (exists t :: t in types && e.edgeType == Some(t))
    && e.source == Some(from) && e.target == Some(to) && from != "" && to != ""
  }

  /** Along the edge, or against it when `reverse`. */
  ghost predicate Crosses(e: RawEdge, types: set<string>, reverse: bool, here: string, there: string) {
    if reverse then Joins(e, types, there, here) else Joins(e, types, here, there)
  }

  /** The id and type under which an edge is recorded. */
  ghost predicate Labels(e: RawEdge, edgeId: string, edgeType: string) {
    && e.edgeType == Some(edgeType)
    && if e.edgeId.Some? && e.edgeId.value != "" then edgeId == e.edgeId.value
       else e.source.Some? && e.target.Some? && edgeId == e.source.value + "->" + e.target.value + ":" + edgeType
  }

  lemma UsableCrosses(e: RawEdge, types: set<string>, reverse: bool, here: string, there: string)
    ensures Crosses(e, types, reverse, here, there)
       <==> Usable(e, types) && Tail(e, reverse) == here && Tail(e, !reverse) == there
  {
    if e.edgeType.Some? { assert e.edgeType.value in types ==> e.edgeType == Some(e.edgeType.value); }
  }

  lemma HopLabels(e: RawEdge, types: set<string>, reverse: bool, h: Hop)
    requires Usable(e, types)
    ensures HopOf(e, reverse) == h <==> Tail(e, !reverse) == h.node && Labels(e, h.edgeId, h.edgeType)
  {
  }

  ghost predicate RowHop(edges: seq<RawEdge>, types: set<string>, reverse: bool, node: string, h: Hop) {
    exists e :: e in edges && Crosses(e, types, reverse, node, h.node) && Labels(e, h.edgeId, h.edgeType)
  }

  /** A hop is in a row iff some edge crosses from the row's node to the hop's, under that id and type. */
  lemma {:induction false} HopsFromIff(edges: seq<RawEdge>, types: set<string>, reverse: bool, node: string, h: Hop)
    ensures h in HopsFrom(edges, types, reverse, node) <==> RowHop(edges, types, reverse, node, h)
  {
    if edges != [] {
      var e, before := edges[|edges| - 1], edges[..|edges| - 1];
      HopsFromIff(before, types, reverse, node, h);
      assert edges == before + [e];
      UsableCrosses(e, types, reverse, node, h.node);
      if Usable(e, types) { HopLabels(e, types, reverse, h); }
    }
  }

  method FilteredAdjacency(edges: seq<RawEdge>, types: set<string>, reverse: bool) returns (adj: Adjacency)
    ensures adj == AdjacencyOf(edges, types, reverse)
    ensures forall node, h :: node in adj && h in adj[node] <==> RowHop(edges, types, reverse, node, h)
  {
    adj := map[];
    for i := 0 to |edges|
      invariant adj == AdjacencyOf(edges[..i], types, reverse)
    {
      var e := edges[i];
      AdjacencyStep(edges[..i], e, types, reverse);
      assert edges[..i + 1] == edges[..i] + [e];
      if Usable(e, types) {
        var n := Tail(e, reverse);
        adj := adj[n := (if n in adj then adj[n] else []) + [HopOf(e, reverse)]];
      }
    }
    assert edges[..|edges|] == edges;
    forall node, h ensures node in adj && h in adj[node] <==> RowHop(edges, types, reverse, node, h) {
      HopsFromIff(edges, types, reverse, node, h);
      if node !in adj { AbsentHasNoHops(edges, types, reverse, node); }
    }
  }

  function Tails(edges: seq<RawEdge>, types: set<string>, reverse: bool): set<string> {
    set e | e in edges && Usable(e, types) :: Tail(e, reverse)
  }

  lemma TailsStep(edges: seq<RawEdge>, e: RawEdge, types: set<string>, reverse: bool)
    ensures Tails(edges + [e], types, reverse) ==
              Tails(edges, types, reverse) + if Usable(e, types) then {Tail(e, reverse)} else {}
  {
    var before, after := Tails(edges, types, reverse), Tails(edges + [e], types, reverse);
    forall n | n in after ensures n in before || (Usable(e, types) && n == Tail(e, reverse)) {
      var d :| d in edges + [e] && Usable(d, types) && Tail(d, reverse) == n;
      assert d in edges || d == e;
    }
    forall n | n in before ensures n in after {
      var d :| d in edges && Usable(d, types) && Tail(d, reverse) == n;
      assert d in edges + [e];
    }
    assert e in edges + [e];
  }

  lemma HopsStep(edges: seq<RawEdge>, e: RawEdge, types: set<string>, reverse: bool, n: string)
    ensures HopsFrom(edges + [e], types, reverse, n) ==
              HopsFrom(edges, types, reverse, n) +
              if Usable(e, types) && Tail(e, reverse) == n then [HopOf(e, reverse)] else []
  {
    assert (edges + [e])[..|edges|] == edges;
  }

  lemma AdjacencyStep(edges: seq<RawEdge>, e: RawEdge, types: set<string>, reverse: bool)
    ensures var adj := AdjacencyOf(edges, types, reverse);
            AdjacencyOf(edges + [e], types, reverse) ==
              if !Usable(e, types) then adj
              else
                var n := Tail(e, reverse);
                adj[n := (if n in adj then adj[n] else []) + [HopOf(e, reverse)]]
  {
    TailsStep(edges, e, types, reverse);
    var adj, adj' := AdjacencyOf(edges, types, reverse), AdjacencyOf(edges + [e], types, reverse);
    forall k | k in adj' ensures adj'[k] == RowAfter(adj, e, types, reverse, k) { RowStep(edges, e, types, reverse, k); }
    OneRowChanges(adj, adj', e, types, reverse);
  }

  lemma OneRowChanges(adj: Adjacency, adj': Adjacency, e: RawEdge, types: set<string>, reverse: bool)
    requires adj'.Keys == adj.Keys + if Usable(e, types) then {Tail(e, reverse)} else {}
    requires forall k :: k in adj' ==> adj'[k] == RowAfter(adj, e, types, reverse, k)
    ensures adj' == if !Usable(e, types) then adj
                    else
                      var n := Tail(e, reverse);
                      adj[n := (if n in adj then adj[n] else []) + [HopOf(e, reverse)]]
  {
    if !Usable(e, types) {
      forall k | k in adj ensures adj'[k] == adj[k] {
        assert RowAfter(adj, e, types, reverse, k) == adj[k] + [];
      }
    } else {
      forall k | k in adj && k != Tail(e, reverse) ensures adj'[k] == adj[k] {
        assert RowAfter(adj, e, types, reverse, k) == adj[k] + [];
      }
    }
  }

  /** A node's row once `e` has been seen. */
  function RowAfter(adj: Adjacency, e: RawEdge, types: set<string>, reverse: bool, n: string): seq<Hop> {
    (if n in adj then adj[n] else []) + if Usable(e, types) && Tail(e, reverse) == n then [HopOf(e, reverse)] else []
  }

  lemma RowStep(edges: seq<RawEdge>, e: RawEdge, types: set<string>, reverse: bool, n: string)
    requires n in AdjacencyOf(edges + [e], types, reverse)
    ensures AdjacencyOf(edges + [e], types, reverse)[n] == RowAfter(AdjacencyOf(edges, types, reverse), e, types, reverse, n)
  {
    HopsStep(edges, e, types, reverse, n);
    if n !in AdjacencyOf(edges, types, reverse) { AbsentHasNoHops(edges, types, reverse, n); }
  }

  lemma AbsentHasNoHops(edges: seq<RawEdge>, types: set<string>, reverse: bool, n: string)
    requires n !in AdjacencyOf(edges, types, reverse)
    ensures HopsFrom(edges, types, reverse, n) == []
  {
    var hops := HopsFrom(edges, types, reverse, n);
    if hops != [] {
      HopsFromIff(edges, types, reverse, n, hops[0]);
      var e :| e in edges && Crosses(e, types, reverse, n, hops[0].node) && Labels(e, hops[0].edgeId, hops[0].edgeType);
      UsableCrosses(e, types, reverse, n, hops[0].node);
    }
  }

  /** Everything one hop away from `node`, over all adjacency tables in order. */
  function Out(adjs: seq<Adjacency>, node: string): seq<Hop> {
    if adjs == [] then [] else (if node in adjs[0] then adjs[0][node] else []) + Out(adjs[1..], node)
  }

  // ---------------------------------------------------------------------------------------------
  // The search
  // ---------------------------------------------------------------------------------------------

  datatype SearchState = SearchState(visited: set<string>, results: seq<Found>, queue: seq<Visit>)

  function ScanHop(st: SearchState, at: Visit, h: Hop): SearchState {
    if h.node in st.visited then st
    else SearchState(
      st.visited + {h.node},
      st.results + [Found(h.node, at.depth + 1, at.path + [h.edgeId], at.edgeTypes + [h.edgeType])],
      st.queue + [Visit(h.node, at.depth + 1, at.path + [h.edgeId], at.edgeTypes + [h.edgeType])])
  }

  function ScanHops(st: SearchState, at: Visit, hops: seq<Hop>): SearchState
    decreases |hops|
  {
    if hops == [] then st else ScanHops(ScanHop(st, at, hops[0]), at, hops[1..])
  }

  /** All nodes the adjacency tables can lead to. */
  function Targets(adjs: seq<Adjacency>): set<string> {
    if adjs == [] then {} else (set n, h | n in adjs[0] && h in adjs[0][n] :: h.node) + Targets(adjs[1..])
  }

  lemma {:induction false} OutInTargets(adjs: seq<Adjacency>, node: string)
    ensures forall h :: h in Out(adjs, node) ==> h.node in Targets(adjs)
  {
    if adjs != [] { OutInTargets(adjs[1..], node); }
  }

  lemma {:induction false} ScanMeasure(st: SearchState, at: Visit, hops: seq<Hop>, all: set<string>)
    requires st.visited <= all && forall h :: h in hops ==> h.node in all
    ensures var s := ScanHops(st, at, hops);
            s.visited <= all && |all - s.visited| + |s.queue| == |all - st.visited| + |st.queue|
    decreases |hops|
  {
    if hops != [] {
      var h := hops[0];
      if h.node !in st.visited {
        assert all - (st.visited + {h.node}) == (all - st.visited) - {h.node};
      }
      ScanMeasure(ScanHop(st, at, h), at, hops[1..], all);
    }
  }

  function Room(adjs: seq<Adjacency>, st: SearchState): set<string> {
    Targets(adjs) + st.visited
  }

  /** The search from a given state to the end of its queue. */
  function Run(adjs: seq<Adjacency>, depth: nat, st: SearchState): seq<Found>
    decreases |Room(adjs, st) - st.visited| + |st.queue|
  {
    if st.queue == [] then st.results
    else
      var at := st.queue[0];
      var rest := st.(queue := st.queue[1..]);
      if at.depth >= depth then Run(adjs, depth, rest)
      else
        var next := ScanHops(rest, at, Out(adjs, at.node));
        RunDecreases(adjs, st);
        Run(adjs, depth, next)
  }

  lemma RunDecreases(adjs: seq<Adjacency>, st: SearchState)
    requires st.queue != []
    ensures var at := st.queue[0];
            var next := ScanHops(st.(queue := st.queue[1..]), at, Out(adjs, at.node));
            |Room(adjs, next) - next.visited| + |next.queue| < |Room(adjs, st) - st.visited| + |st.queue|
  {
    var at, rest := st.queue[0], st.(queue := st.queue[1..]);
    var next := ScanHops(rest, at, Out(adjs, at.node));
    OutInTargets(adjs, at.node);
    ScanMeasure(rest, at, Out(adjs, at.node), Room(adjs, st));
    assert rest.visited <= next.visited by { ScanGrows(rest, at, Out(adjs, at.node)); }
    assert Room(adjs, next) == Room(adjs, st);
  }

  lemma {:induction false} ScanGrows(st: SearchState, at: Visit, hops: seq<Hop>)
    ensures var s := ScanHops(st, at, hops);
            st.visited <= s.visited && st.results <= s.results && st.queue <= s.queue
    decreases |hops|
  {
    if hops != [] { ScanGrows(ScanHop(st, at, hops[0]), at, hops[1..]); }
  }

  function Initial(start: string): SearchState {
    SearchState({start}, [], [Visit(start, 0, [], [])])
  }

  function BfsResults(adjs: seq<Adjacency>, start: string, depth: nat): seq<Found> {
    Run(adjs, depth, Initial(start))
  }

  lemma {:induction false} ScanConcat(st: SearchState, at: Visit, first: seq<Hop>, second: seq<Hop>)
    ensures ScanHops(st, at, first + second) == ScanHops(ScanHops(st, at, first), at, second)
    decreases |first|
  {
    if first == [] {
      assert first + second == second;
    } else {
      assert (first + second)[1..] == first[1..] + second;
      ScanConcat(ScanHop(st, at, first[0]), at, first[1..], second);
    }
  }

  /** The scan of one adjacency row: every unvisited neighbour is visited, recorded and queued. */
  method ScanRow(at: Visit, hops: seq<Hop>, was: SearchState)
    returns (visited: set<string>, results: seq<Found>, queue: seq<Visit>)
    ensures SearchState(visited, results, queue) == ScanHops(was, at, hops)
  {
    visited, results, queue := was.visited, was.results, was.queue;
    for i := 0 to |hops|
      invariant ScanHops(SearchState(visited, results, queue), at, hops[i..]) == ScanHops(was, at, hops)
    {
      var h := hops[i];
      assert hops[i..][1..] == hops[i + 1..];
      if h.node in visited { continue; }
      visited := visited + {h.node};
      var newPath := at.path + [h.edgeId];
      var newTypes := at.edgeTypes + [h.edgeType];
      results := results + [Found(h.node, at.depth + 1, newPath, newTypes)];
      queue := queue + [Visit(h.node, at.depth + 1, newPath, newTypes)];
    }
  }

  /** The scan over all adjacency tables. */
  method ScanTables(at: Visit, adjacencies: seq<Adjacency>, was: SearchState)
    returns (visited: set<string>, results: seq<Found>, queue: seq<Visit>)
    ensures SearchState(visited, results, queue) == ScanHops(was, at, Out(adjacencies, at.node))
  {
    visited, results, queue := was.visited, was.results, was.queue;
    for a := 0 to |adjacencies|
      invariant ScanHops(SearchState(visited, results, queue), at, Out(adjacencies[a..], at.node))
             == ScanHops(was, at, Out(adjacencies, at.node))
    {
      var hops := if at.node in adjacencies[a] then adjacencies[a][at.node] else [];
      assert adjacencies[a..][1..] == adjacencies[a + 1..];
      ScanConcat(SearchState(visited, results, queue), at, hops, Out(adjacencies[a + 1..], at.node));
      visited, results, queue := ScanRow(at, hops, SearchState(visited, results, queue));
    }
  }

  /** The loop the program runs: a queue and a visited set. */
  method Bfs(start: string, adjacencies: seq<Adjacency>, depth: nat) returns (results: seq<Found>)
    ensures results == BfsResults(adjacencies, start, depth)
  {
    var visited := {start};
    results := [];
    var queue := [Visit(start, 0, [], [])];
    while queue != []
      invariant Run(adjacencies, depth, SearchState(visited, results, queue)) == BfsResults(adjacencies, start, depth)
      decreases |Room(adjacencies, SearchState(visited, results, queue)) - visited| + |queue|
    {
      RunDecreases(adjacencies, SearchState(visited, results, queue));
      var at := queue[0];
      queue := queue[1..];
      if at.depth >= depth { continue; }
      visited, results, queue := ScanTables(at, adjacencies, SearchState(visited, results, queue));
    }
  }

  // ---------------------------------------------------------------------------------------------
  // What the search finds
  // ---------------------------------------------------------------------------------------------

  /** Where a walk stands after i hops. */
  function At(start: string, hops: seq<Hop>, i: nat): string
    requires i <= |hops|
  {
    if i == 0 then start else hops[i - 1].node
  }

  ghost predicate HopFits(adjs: seq<Adjacency>, start: string, hops: seq<Hop>, i: nat)
    requires i < |hops|
  {
    hops[i] in Out(adjs, At(start, hops, i))
  }

  ghost predicate IsWalk(adjs: seq<Adjacency>, start: string, hops: seq<Hop>) {
    forall i :: 0 <= i < |hops| ==> HopFits(adjs, start, hops, i)
  }

  ghost predicate Leads(adjs: seq<Adjacency>, start: string, hops: seq<Hop>, node: string) {
    IsWalk(adjs, start, hops) && At(start, hops, |hops|) == node
  }

  function Ids(hops: seq<Hop>): (ids: seq<string>)
    ensures |ids| == |hops| && forall i :: 0 <= i < |hops| ==> ids[i] == hops[i].edgeId
  {
    seq(|hops|, i requires 0 <= i < |hops| => hops[i].edgeId)
  }

  function Types(hops: seq<Hop>): (types: seq<string>)
    ensures |types| == |hops| && forall i :: 0 <= i < |hops| ==> types[i] == hops[i].edgeType
  {
    seq(|hops|, i requires 0 <= i < |hops| => hops[i].edgeType)
  }

  ghost predicate Spells(adjs: seq<Adjacency>, start: string, r: Found, hops: seq<Hop>) {
    && Leads(adjs, start, hops, r.node) && |hops| == r.depth
    && r.path == Ids(hops) && r.edgeTypes == Types(hops)
  }

  ghost predicate HasWalk(adjs: seq<Adjacency>, start: string, r: Found) {
    exists hops :: Spells(adjs, start, r, hops)
  }

  /** A correct slice: each node once, each with a real walk, nothing reachable left out or found late. */
  ghost predicate IsSlice(adjs: seq<Adjacency>, start: string, depth: nat, results: seq<Found>) {
    && (forall i :: 0 <= i < |results| ==> results[i].node != start && 1 <= results[i].depth <= depth)
    && (forall i, j :: 0 <= i < j < |results| ==> results[i].node != results[j].node && results[i].depth <= results[j].depth)
    && (forall i :: 0 <= i < |results| ==> HasWalk(adjs, start, results[i]))
    && (forall hops, v :: Leads(adjs, start, hops, v) && |hops| <= depth && v != start ==>
          exists i :: 0 <= i < |results| && results[i].node == v && results[i].depth <= |hops|)
  }

  type Via = map<string, seq<Hop>>

  /** The hop's end has been reached, no later than one step after `from`. */
  ghost predicate Covered(via: Via, from: string, h: Hop) {
    from in via && h.node in via && |via[h.node]| <= |via[from]| + 1
  }

  ghost predicate Tracked(via: Via, q: Visit) {
    && q.node in via && q.depth == |via[q.node]|
    && q.path == Ids(via[q.node]) && q.edgeTypes == Types(via[q.node])
  }

  ghost predicate Queued(st: SearchState, v: string) {
    exists i :: 0 <= i < |st.queue| && st.queue[i].node == v
  }

  ghost predicate Listed(st: SearchState, v: string) {
    exists i :: 0 <= i < |st.results| && st.results[i].node == v
  }

  /** `via` holds one real walk for each visited node. */
  ghost predicate WalksInv(adjs: seq<Adjacency>, start: string, depth: nat, st: SearchState, via: Via) {
    && start in via && via[start] == [] && st.visited == via.Keys
    && (forall v :: v in via ==> Leads(adjs, start, via[v], v))
    && (forall v :: v in via && v != start ==> 1 <= |via[v]| <= depth && Listed(st, v))
  }

  ghost predicate Recorded(start: string, via: Via, r: Found) {
    && r.node in via && r.node != start && r.depth == |via[r.node]|
    && r.path == Ids(via[r.node]) && r.edgeTypes == Types(via[r.node])
  }

  /** The results list each visited node but the start, once, nearest first. */
  ghost predicate ResultsInv(start: string, st: SearchState, via: Via) {
    && (forall i :: 0 <= i < |st.results| ==> Recorded(start, via, st.results[i]))
    && (forall i, j :: 0 <= i < j < |st.results| ==>
          st.results[i].node != st.results[j].node && st.results[i].depth <= st.results[j].depth)
  }

  /** The queue is sorted by depth. */
  ghost predicate QueueInv(st: SearchState, via: Via) {
    && (forall i :: 0 <= i < |st.queue| ==> Tracked(via, st.queue[i]))
    && (forall i, j :: 0 <= i < j < |st.queue| ==> st.queue[i].depth <= st.queue[j].depth)
  }

  ghost predicate SearchInv(adjs: seq<Adjacency>, start: string, depth: nat, st: SearchState, via: Via) {
    WalksInv(adjs, start, depth, st, via) && ResultsInv(start, st, via) && QueueInv(st, via)
  }

  /** Every reached node is queued, is `busy`, or has all its hops covered. */
  ghost predicate Closed(adjs: seq<Adjacency>, depth: nat, st: SearchState, via: Via, busy: set<string>) {
    forall v, h :: v in via && |via[v]| < depth && v !in busy && !Queued(st, v) && h in Out(adjs, v) ==> Covered(via, v, h)
  }

  /** No recorded walk is longer than d + 1. */
  ghost predicate Level(st: SearchState, via: Via, d: nat) {
    && (forall v :: v in via ==> |via[v]| <= d + 1)
    && (forall i :: 0 <= i < |st.queue| ==> d <= st.queue[i].depth <= d + 1)
  }

  lemma ExtendWalk(adjs: seq<Adjacency>, start: string, walk: seq<Hop>, h: Hop)
    requires IsWalk(adjs, start, walk) && h in Out(adjs, At(start, walk, |walk|))
    ensures Leads(adjs, start, walk + [h], h.node)
    ensures Ids(walk + [h]) == Ids(walk) + [h.edgeId] && Types(walk + [h]) == Types(walk) + [h.edgeType]
  {
    var longer := walk + [h];
    forall i | 0 <= i < |longer| ensures HopFits(adjs, start, longer, i) {
      assert i < |walk| ==> HopFits(adjs, start, walk, i);
    }
  }

  lemma ListsKeep(start: string, st: SearchState, via: Via, at: Visit, h: Hop, walk: seq<Hop>)
    requires ResultsInv(start, st, via) && QueueInv(st, via) && Level(st, via, at.depth)
    requires start in via && h.node !in via && h.node !in st.visited
    requires |walk| == at.depth + 1
    requires Ids(walk) == at.path + [h.edgeId] && Types(walk) == at.edgeTypes + [h.edgeType]
    ensures var st', via' := ScanHop(st, at, h), via[h.node := walk];
            ResultsInv(start, st', via') && QueueInv(st', via') && Level(st', via', at.depth)
  {
    var st', via' := ScanHop(st, at, h), via[h.node := walk];
    assert forall i :: 0 <= i < |st.results| ==> Recorded(start, via, st.results[i]);
    assert forall i :: 0 <= i < |st.queue| ==> Tracked(via, st.queue[i]);
  }

  lemma ScanHopKeeps(adjs: seq<Adjacency>, start: string, depth: nat, st: SearchState, via: Via, at: Visit, h: Hop)
    returns (via': Via)
    requires SearchInv(adjs, start, depth, st, via) && Closed(adjs, depth, st, via, {at.node})
    requires Level(st, via, at.depth) && Tracked(via, at) && at.depth < depth
    requires h in Out(adjs, at.node)
    ensures SearchInv(adjs, start, depth, ScanHop(st, at, h), via')
    ensures Closed(adjs, depth, ScanHop(st, at, h), via', {at.node})
    ensures Level(ScanHop(st, at, h), via', at.depth) && Tracked(via', at)
    ensures Covered(via', at.node, h)
    ensures forall v :: v in via ==> v in via' && via'[v] == via[v]
  {
    if h.node in st.visited { return via; }
    var walk := via[at.node] + [h];
    via' := via[h.node := walk];
    assert Leads(adjs, start, via[at.node], at.node);
    ExtendWalk(adjs, start, via[at.node], h);
    ListsKeep(start, st, via, at, h, walk);
    WalksKeep(adjs, start, depth, st, via, at, h, walk);
    ClosedKeeps(adjs, depth, st, via, at, h, walk);
  }

  lemma WalksKeep(adjs: seq<Adjacency>, start: string, depth: nat, st: SearchState, via: Via, at: Visit, h: Hop, walk: seq<Hop>)
    requires WalksInv(adjs, start, depth, st, via) && h.node !in st.visited
    requires Leads(adjs, start, walk, h.node) && 1 <= |walk| <= depth
    ensures WalksInv(adjs, start, depth, ScanHop(st, at, h), via[h.node := walk])
  {
    var st', via' := ScanHop(st, at, h), via[h.node := walk];
    assert st'.results[|st.results|].node == h.node;
    forall v | v in via' && v != start ensures Listed(st', v) {
      if v != h.node {
        var i :| 0 <= i < |st.results| && st.results[i].node == v;
        assert st'.results[i].node == v;
      }
    }
  }

  lemma ClosedKeeps(adjs: seq<Adjacency>, depth: nat, st: SearchState, via: Via, at: Visit, h: Hop, walk: seq<Hop>)
    requires Closed(adjs, depth, st, via, {at.node}) && h.node !in via && h.node !in st.visited
    ensures Closed(adjs, depth, ScanHop(st, at, h), via[h.node := walk], {at.node})
  {
    var st', via' := ScanHop(st, at, h), via[h.node := walk];
    assert st'.queue[|st.queue|].node == h.node;
    forall v, g | v in via' && |via'[v]| < depth && v != at.node && !Queued(st', v) && g in Out(adjs, v)
      ensures Covered(via', v, g)
    {
      assert !Queued(st, v) by {
        forall i | 0 <= i < |st.queue| ensures st.queue[i].node != v { assert st'.queue[i] == st.queue[i]; }
      }
      assert Covered(via, v, g);
    }
  }

  lemma {:induction false} ScanHopsKeep(adjs: seq<Adjacency>, start: string, depth: nat, st: SearchState, via: Via, at: Visit, hops: seq<Hop>)
    returns (via': Via)
    requires SearchInv(adjs, start, depth, st, via) && Closed(adjs, depth, st, via, {at.node})
    requires Level(st, via, at.depth) && Tracked(via, at) && at.depth < depth
    requires forall h :: h in hops ==> h in Out(adjs, at.node)
    ensures SearchInv(adjs, start, depth, ScanHops(st, at, hops), via')
    ensures Closed(adjs, depth, ScanHops(st, at, hops), via', {at.node})
    ensures Level(ScanHops(st, at, hops), via', at.depth)
    ensures forall h :: h in hops ==> Covered(via', at.node, h)
    ensures forall v :: v in via ==> v in via' && via'[v] == via[v]
    decreases |hops|
  {
    if hops == [] { return via; }
    var mid := ScanHopKeeps(adjs, start, depth, st, via, at, hops[0]);
    via' := ScanHopsKeep(adjs, start, depth, ScanHop(st, at, hops[0]), mid, at, hops[1..]);
    forall h | h in hops ensures Covered(via', at.node, h) {
      if h != hops[0] { assert h in hops[1..]; }
    }
  }

  lemma DropFront(adjs: seq<Adjacency>, start: string, depth: nat, st: SearchState, via: Via)
    requires SearchInv(adjs, start, depth, st, via) && Closed(adjs, depth, st, via, {})
    requires st.queue != [] && Level(st, via, st.queue[0].depth)
    ensures var rest := st.(queue := st.queue[1..]);
            && SearchInv(adjs, start, depth, rest, via)
            && Closed(adjs, depth, rest, via, {st.queue[0].node})
            && Level(rest, via, st.queue[0].depth)
  {
    var rest := st.(queue := st.queue[1..]);
    assert forall v :: Listed(st, v) ==> Listed(rest, v);
    forall v, i | 0 <= i < |st.queue| && st.queue[i].node == v && v != st.queue[0].node ensures Queued(rest, v) {
      assert rest.queue[i - 1].node == v;
    }
  }

  lemma {:induction false} RunIsSlice(adjs: seq<Adjacency>, start: string, depth: nat, st: SearchState, via: Via)
    requires SearchInv(adjs, start, depth, st, via) && Closed(adjs, depth, st, via, {})
    requires st.queue != [] ==> Level(st, via, st.queue[0].depth)
    ensures IsSlice(adjs, start, depth, Run(adjs, depth, st))
    decreases |Room(adjs, st) - st.visited| + |st.queue|
  {
    if st.queue == [] {
      EmptyQueueIsSlice(adjs, start, depth, st, via);
      return;
    }
    var at, rest := st.queue[0], st.(queue := st.queue[1..]);
    DropFront(adjs, start, depth, st, via);
    assert Tracked(via, at);
    if at.depth >= depth {
      RunIsSlice(adjs, start, depth, rest, via);
    } else {
      RunDecreases(adjs, st);
      var next := ScanHops(rest, at, Out(adjs, at.node));
      var via' := ScanHopsKeep(adjs, start, depth, rest, via, at, Out(adjs, at.node));
      assert Closed(adjs, depth, next, via', {});
      NextLevel(next, via', at.depth);
      RunIsSlice(adjs, start, depth, next, via');
    }
  }

  lemma NextLevel(st: SearchState, via: Via, d: nat)
    requires QueueInv(st, via) && Level(st, via, d)
    ensures st.queue != [] ==> Level(st, via, st.queue[0].depth)
  {
  }

  /** With nothing queued, every walk of at most `depth` hops ends at a node reached at least as early. */
  lemma {:induction false} ClosedReaches(adjs: seq<Adjacency>, start: string, depth: nat, st: SearchState, via: Via, hops: seq<Hop>)
    requires SearchInv(adjs, start, depth, st, via) && Closed(adjs, depth, st, via, {}) && st.queue == []
    requires IsWalk(adjs, start, hops) && |hops| <= depth
    ensures At(start, hops, |hops|) in via && |via[At(start, hops, |hops|)]| <= |hops|
    decreases |hops|
  {
    if hops != [] {
      var n := |hops| - 1;
      WalkPrefix(adjs, start, hops);
      ClosedReaches(adjs, start, depth, st, via, hops[..n]);
      assert Covered(via, At(start, hops, n), hops[n]);
    }
  }

  lemma EmptyQueueIsSlice(adjs: seq<Adjacency>, start: string, depth: nat, st: SearchState, via: Via)
    requires SearchInv(adjs, start, depth, st, via) && Closed(adjs, depth, st, via, {}) && st.queue == []
    ensures IsSlice(adjs, start, depth, st.results)
  {
    forall i | 0 <= i < |st.results|
      ensures st.results[i].node != start && 1 <= st.results[i].depth <= depth
      ensures HasWalk(adjs, start, st.results[i])
    {
      assert Recorded(start, via, st.results[i]);
      assert Spells(adjs, start, st.results[i], via[st.results[i].node]);
    }
    forall hops, v | Leads(adjs, start, hops, v) && |hops| <= depth && v != start
      ensures exists i :: 0 <= i < |st.results| && st.results[i].node == v && st.results[i].depth <= |hops|
    {
      ClosedReaches(adjs, start, depth, st, via, hops);
      assert Listed(st, v);
      var i :| 0 <= i < |st.results| && st.results[i].node == v;
      assert Recorded(start, via, st.results[i]);
    }
  }

  /** The search is exact, whatever the adjacency tables, the start and the depth. */
  lemma BfsIsSlice(adjs: seq<Adjacency>, start: string, depth: nat)
    ensures IsSlice(adjs, start, depth, BfsResults(adjs, start, depth))
  {
    var via: Via := map[start := []];
    var st := Initial(start);
    assert st.queue[0].node == start;
    assert Queued(st, start);
    RunIsSlice(adjs, start, depth, st, via);
  }

  // ---------------------------------------------------------------------------------------------
  // Slices of the edge list
  // ---------------------------------------------------------------------------------------------

  /** One edge crossed, from its source to its target (or the other way when `reverse`). */
  datatype Move = Move(edge: RawEdge, reverse: bool, here: string, there: string)

  ghost predicate Legal(edges: seq<RawEdge>, types: set<string>, dirs: seq<bool>, m: Move) {
    m.edge in edges && m.reverse in dirs && Crosses(m.edge, types, m.reverse, m.here, m.there)
  }

  /** Where a walk stands after i moves. */
  ghost function Place(start: string, moves: seq<Move>, i: nat): string
    requires i <= |moves|
  {
    if i == 0 then start else moves[i - 1].there
  }

  ghost predicate MoveFits(edges: seq<RawEdge>, types: set<string>, dirs: seq<bool>, start: string, moves: seq<Move>, i: nat)
    requires i < |moves|
  {
    Legal(edges, types, dirs, moves[i]) && moves[i].here == Place(start, moves, i)
  }

  /** A walk along wanted concept edges, each in an allowed direction, from `start` to `end`. */
  ghost predicate EdgeWalk(edges: seq<RawEdge>, types: set<string>, dirs: seq<bool>, start: string, moves: seq<Move>, end: string) {
    && (forall i :: 0 <= i < |moves| ==> MoveFits(edges, types, dirs, start, moves, i))
    && Place(start, moves, |moves|) == end
  }

  ghost predicate PathOf(moves: seq<Move>, r: Found) {
    && |moves| == r.depth == |r.path| == |r.edgeTypes|
    && forall i :: 0 <= i < |moves| ==>
         Labels(moves[i].edge, r.path[i], r.edgeTypes[i])
  }

  ghost predicate Witnessed(edges: seq<RawEdge>, types: set<string>, dirs: seq<bool>, start: string, r: Found) {
    exists moves :: EdgeWalk(edges, types, dirs, start, moves, r.node) && PathOf(moves, r)
  }

  ghost predicate InReach(edges: seq<RawEdge>, types: set<string>, dirs: seq<bool>, start: string, depth: nat, v: string) {
    exists moves :: EdgeWalk(edges, types, dirs, start, moves, v) && |moves| <= depth
  }

  predicate Lists(results: seq<Found>, v: string) {
    exists i :: 0 <= i < |results| && results[i].node == v
  }

  ghost predicate NoneShorter(edges: seq<RawEdge>, types: set<string>, dirs: seq<bool>, start: string, r: Found) {
    forall moves :: EdgeWalk(edges, types, dirs, start, moves, r.node) ==> r.depth <= |moves|
  }

  /** Each node once, the start never, nearest first. */
  predicate Ordered(start: string, results: seq<Found>) {
    && (forall i :: 0 <= i < |results| ==> results[i].node != start)
    && (forall i, j :: 0 <= i < j < |results| ==> results[i].node != results[j].node && results[i].depth <= results[j].depth)
  }

  /** What a slice must be, said of the edges alone: a node is listed exactly when it is in reach, and
      with a shortest real walk to it. */
  ghost predicate ExactSlice(edges: seq<RawEdge>, types: set<string>, dirs: seq<bool>, start: string, depth: nat, results: seq<Found>) {
    && Ordered(start, results)
    && (forall v :: v != start ==> (Lists(results, v) <==> InReach(edges, types, dirs, start, depth, v)))
    && (forall i :: 0 <= i < |results| ==> Witnessed(edges, types, dirs, start, results[i]))
    && (forall i :: 0 <= i < |results| ==> NoneShorter(edges, types, dirs, start, results[i]))
  }

  function Tables(edges: seq<RawEdge>, types: set<string>, dirs: seq<bool>): seq<Adjacency> {
    if dirs == [] then [] else [AdjacencyOf(edges, types, dirs[0])] + Tables(edges, types, dirs[1..])
  }

  ghost predicate TakesHop(edges: seq<RawEdge>, types: set<string>, dirs: seq<bool>, n: string, h: Hop, m: Move) {
    Legal(edges, types, dirs, m) && m.here == n && m.there == h.node && Labels(m.edge, h.edgeId, h.edgeType)
  }

  lemma {:induction false} OutIff(edges: seq<RawEdge>, types: set<string>, dirs: seq<bool>, n: string, h: Hop)
    ensures h in Out(Tables(edges, types, dirs), n) <==> exists m :: TakesHop(edges, types, dirs, n, h, m)
  {
    if dirs != [] {
      var tables, rest := Tables(edges, types, dirs), Tables(edges, types, dirs[1..]);
      assert tables[0] == AdjacencyOf(edges, types, dirs[0]) && tables[1..] == rest;
      OutIff(edges, types, dirs[1..], n, h);
      HopsFromIff(edges, types, dirs[0], n, h);
      if n !in tables[0] { AbsentHasNoHops(edges, types, dirs[0], n); }
      if RowHop(edges, types, dirs[0], n, h) {
        var e :| e in edges && Crosses(e, types, dirs[0], n, h.node) && Labels(e, h.edgeId, h.edgeType);
        assert TakesHop(edges, types, dirs, n, h, Move(e, dirs[0], n, h.node));
      }
      if h in Out(rest, n) {
        var m :| TakesHop(edges, types, dirs[1..], n, h, m);
        assert TakesHop(edges, types, dirs, n, h, m);
      }
      forall m | TakesHop(edges, types, dirs, n, h, m) ensures h in Out(tables, n) {
        if m.reverse != dirs[0] { assert TakesHop(edges, types, dirs[1..], n, h, m); }
      }
    }
  }

  /** A walk over the adjacency tables crosses edges with the same ids and types ... */
  lemma {:induction false} HopsToMoves(edges: seq<RawEdge>, types: set<string>, dirs: seq<bool>, start: string, hops: seq<Hop>)
    returns (moves: seq<Move>)
    requires IsWalk(Tables(edges, types, dirs), start, hops)
    ensures |moves| == |hops| && EdgeWalk(edges, types, dirs, start, moves, At(start, hops, |hops|))
    ensures forall i :: 0 <= i < |moves| ==> Labels(moves[i].edge, hops[i].edgeId, hops[i].edgeType)
  {
    var adjs := Tables(edges, types, dirs);
    if hops == [] { return []; }
    var n := |hops| - 1;
    WalkPrefix(adjs, start, hops);
    var before := HopsToMoves(edges, types, dirs, start, hops[..n]);
    var m := MoveFor(edges, types, dirs, At(start, hops, n), hops[n]);
    ExtendMoves(edges, types, dirs, start, before, m);
    moves := before + [m];
    forall i | 0 <= i < |moves| ensures Labels(moves[i].edge, hops[i].edgeId, hops[i].edgeType) {
      if i < n { assert moves[i] == before[i] && hops[..n][i] == hops[i]; }
    }
  }

  lemma MoveFor(edges: seq<RawEdge>, types: set<string>, dirs: seq<bool>, n: string, h: Hop) returns (m: Move)
    requires h in Out(Tables(edges, types, dirs), n)
    ensures TakesHop(edges, types, dirs, n, h, m)
  {
    OutIff(edges, types, dirs, n, h);
    m :| TakesHop(edges, types, dirs, n, h, m);
  }

  lemma ExtendMoves(edges: seq<RawEdge>, types: set<string>, dirs: seq<bool>, start: string, moves: seq<Move>, m: Move)
    requires EdgeWalk(edges, types, dirs, start, moves, m.here) && Legal(edges, types, dirs, m)
    ensures EdgeWalk(edges, types, dirs, start, moves + [m], m.there)
  {
    forall i | 0 <= i < |moves| + 1 ensures MoveFits(edges, types, dirs, start, moves + [m], i) {
      assert i < |moves| ==> MoveFits(edges, types, dirs, start, moves, i);
    }
  }

  lemma WalkPrefix(adjs: seq<Adjacency>, start: string, hops: seq<Hop>)
    requires hops != [] && IsWalk(adjs, start, hops)
    ensures IsWalk(adjs, start, hops[..|hops| - 1])
    ensures hops[|hops| - 1] in Out(adjs, At(start, hops, |hops| - 1))
    ensures At(start, hops[..|hops| - 1], |hops| - 1) == At(start, hops, |hops| - 1)
  {
    var prefix := hops[..|hops| - 1];
    forall i | 0 <= i < |prefix| ensures HopFits(adjs, start, prefix, i) { assert HopFits(adjs, start, hops, i); }
    assert HopFits(adjs, start, hops, |hops| - 1);
  }

  /** ... and every walk along the edges is one over the tables. */
  lemma MovesToHops(edges: seq<RawEdge>, types: set<string>, dirs: seq<bool>, start: string, moves: seq<Move>, end: string)
    returns (hops: seq<Hop>)
    requires EdgeWalk(edges, types, dirs, start, moves, end)
    ensures Leads(Tables(edges, types, dirs), start, hops, end) && |hops| == |moves|
  {
    var adjs := Tables(edges, types, dirs);
    forall i | 0 <= i < |moves| ensures Legal(edges, types, dirs, moves[i]) {
      assert MoveFits(edges, types, dirs, start, moves, i);
    }
    hops := seq(|moves|, i requires 0 <= i < |moves| => Hop(moves[i].there, EdgeIdOf(moves[i].edge), Text(moves[i].edge.edgeType)));
    forall i | 0 <= i < |hops| ensures HopFits(adjs, start, hops, i) {
      assert MoveFits(edges, types, dirs, start, moves, i);
      LegalLabels(edges, types, dirs, moves[i]);
      assert TakesHop(edges, types, dirs, At(start, hops, i), hops[i], moves[i]);
      OutIff(edges, types, dirs, At(start, hops, i), hops[i]);
    }
  }

  lemma LegalLabels(edges: seq<RawEdge>, types: set<string>, dirs: seq<bool>, m: Move)
    requires Legal(edges, types, dirs, m)
    ensures Labels(m.edge, EdgeIdOf(m.edge), Text(m.edge.edgeType))
  {
  }

  lemma ResultWitnessed(edges: seq<RawEdge>, types: set<string>, dirs: seq<bool>, start: string, r: Found)
    requires HasWalk(Tables(edges, types, dirs), start, r)
    ensures Witnessed(edges, types, dirs, start, r)
  {
    var hops :| Spells(Tables(edges, types, dirs), start, r, hops);
    var moves := HopsToMoves(edges, types, dirs, start, hops);
    assert EdgeWalk(edges, types, dirs, start, moves, r.node) && PathOf(moves, r);
  }

  lemma ReachedEarly(edges: seq<RawEdge>, types: set<string>, dirs: seq<bool>, start: string, depth: nat, results: seq<Found>,
                     moves: seq<Move>, v: string)
    requires IsSlice(Tables(edges, types, dirs), start, depth, results)
    requires v != start && EdgeWalk(edges, types, dirs, start, moves, v) && |moves| <= depth
    ensures exists i :: 0 <= i < |results| && results[i].node == v && results[i].depth <= |moves|
  {
    var hops := MovesToHops(edges, types, dirs, start, moves, v);
    assert Leads(Tables(edges, types, dirs), start, hops, v);
  }

  lemma SliceIsExact(edges: seq<RawEdge>, types: set<string>, dirs: seq<bool>, start: string, depth: nat)
    ensures ExactSlice(edges, types, dirs, start, depth, BfsResults(Tables(edges, types, dirs), start, depth))
  {
    var adjs := Tables(edges, types, dirs);
    var results := BfsResults(adjs, start, depth);
    BfsIsSlice(adjs, start, depth);
    forall i | 0 <= i < |results|
      ensures Witnessed(edges, types, dirs, start, results[i]) && NoneShorter(edges, types, dirs, start, results[i])
    {
      assert HasWalk(adjs, start, results[i]);
      ResultWitnessed(edges, types, dirs, start, results[i]);
      ResultShortest(edges, types, dirs, start, depth, results, i);
    }
    forall v | v != start { ListedIffInReach(edges, types, dirs, start, depth, results, v); }
  }

  lemma ResultShortest(edges: seq<RawEdge>, types: set<string>, dirs: seq<bool>, start: string, depth: nat, results: seq<Found>, i: nat)
    requires IsSlice(Tables(edges, types, dirs), start, depth, results) && i < |results|
    ensures NoneShorter(edges, types, dirs, start, results[i])
  {
    forall moves | EdgeWalk(edges, types, dirs, start, moves, results[i].node) ensures results[i].depth <= |moves| {
      if |moves| <= depth {
        ReachedEarly(edges, types, dirs, start, depth, results, moves, results[i].node);
        var j :| 0 <= j < |results| && results[j].node == results[i].node && results[j].depth <= |moves|;
        assert i == j;
      }
    }
  }

  lemma ListedIffInReach(edges: seq<RawEdge>, types: set<string>, dirs: seq<bool>, start: string, depth: nat, results: seq<Found>, v: string)
    requires IsSlice(Tables(edges, types, dirs), start, depth, results) && v != start
    ensures Lists(results, v) <==> InReach(edges, types, dirs, start, depth, v)
  {
    if Lists(results, v) {
      var i :| 0 <= i < |results| && results[i].node == v;
      assert HasWalk(Tables(edges, types, dirs), start, results[i]);
      ResultWitnessed(edges, types, dirs, start, results[i]);
    }
    if InReach(edges, types, dirs, start, depth, v) {
      var moves :| EdgeWalk(edges, types, dirs, start, moves, v) && |moves| <= depth;
      ReachedEarly(edges, types, dirs, start, depth, results, moves, v);
    }
  }

  const DEFAULT_SLICE_TYPES: set<string> := {"dependency", "reference"}

  function TypesOr(edgeTypes: Option<seq<string>>): set<string> {
    if edgeTypes.Some? then set t | t in edgeTypes.value else DEFAULT_SLICE_TYPES
  }

  function ForwardResults(edges: seq<RawEdge>, start: string, maxDepth: int, types: set<string>): seq<Found> {
    BfsResults(Tables(edges, types, [false]), start, ClampDepth(maxDepth))
  }

  function BackwardResults(edges: seq<RawEdge>, start: string, maxDepth: int, types: set<string>): seq<Found> {
    BfsResults(Tables(edges, types, [true]), start, ClampDepth(maxDepth))
  }

  method ForwardSlice(edges: seq<RawEdge>, start: string, maxDepth: int, edgeTypes: Option<seq<string>>) returns (results: seq<Found>)
    ensures results == ForwardResults(edges, start, maxDepth, TypesOr(edgeTypes))
    ensures var types := if edgeTypes.Some? then set t | t in edgeTypes.value else {"dependency", "reference"};
            ExactSlice(edges, types, [false], start, if maxDepth < 0 then 0 else if maxDepth > 5 then 5 else maxDepth, results)
  {
    var types := TypesOr(edgeTypes);
    var adj := FilteredAdjacency(edges, types, false);
    assert [adj] == Tables(edges, types, [false]);
    results := Bfs(start, [adj], ClampDepth(maxDepth));
    SliceIsExact(edges, types, [false], start, ClampDepth(maxDepth));
  }

  method BackwardSlice(edges: seq<RawEdge>, start: string, maxDepth: int, edgeTypes: Option<seq<string>>) returns (results: seq<Found>)
    ensures results == BackwardResults(edges, start, maxDepth, TypesOr(edgeTypes))
    ensures var types := if edgeTypes.Some? then set t | t in edgeTypes.value else {"dependency", "reference"};
            ExactSlice(edges, types, [true], start, if maxDepth < 0 then 0 else if maxDepth > 5 then 5 else maxDepth, results)
  {
    var types := TypesOr(edgeTypes);
    var adj := FilteredAdjacency(edges, types, true);
    assert [adj] == Tables(edges, types, [true]);
    results := Bfs(start, [adj], ClampDepth(maxDepth));
    SliceIsExact(edges, types, [true], start, ClampDepth(maxDepth));
  }

  method ContractCheck(edges: seq<RawEdge>, entity: string, maxDepth: int) returns (partners: seq<Found>)
    ensures ExactSlice(edges, {"contract"}, [false, true], entity, if maxDepth < 0 then 0 else if maxDepth > 5 then 5 else maxDepth, partners)
  {
    var fwd := FilteredAdjacency(edges, {"contract"}, false);
    var bwd := FilteredAdjacency(edges, {"contract"}, true);
    assert [fwd, bwd] == Tables(edges, {"contract"}, [false, true]) by {
      assert [false, true][1..] == [true];
      assert Tables(edges, {"contract"}, [true]) == [bwd];
    }
    partners := Bfs(entity, [fwd, bwd], ClampDepth(maxDepth));
    SliceIsExact(edges, {"contract"}, [false, true], entity, ClampDepth(maxDepth));
  }

  // ---------------------------------------------------------------------------------------------
  // Laws of slices
  // ---------------------------------------------------------------------------------------------

  function Back(m: Move): Move {
    Move(m.edge, !m.reverse, m.there, m.here)
  }

  /** The same walk, crossed backwards. */
  lemma ReverseWalk(edges: seq<RawEdge>, types: set<string>, reverse: bool, u: string, moves: seq<Move>, v: string)
    returns (back: seq<Move>)
    requires EdgeWalk(edges, types, [reverse], u, moves, v)
    ensures |back| == |moves| && EdgeWalk(edges, types, [!reverse], v, back, u)
  {
    var flip := !reverse;
    back := seq(|moves|, i requires 0 <= i < |moves| => Back(moves[|moves| - 1 - i]));
    forall i | 0 <= i < |back| ensures MoveFits(edges, types, [flip], v, back, i) {
      var k := |moves| - 1 - i;
      assert MoveFits(edges, types, [reverse], u, moves, k);
      if i > 0 { assert MoveFits(edges, types, [reverse], u, moves, k + 1); }
    }
    if moves != [] { assert MoveFits(edges, types, [reverse], u, moves, 0); }
  }

  ghost predicate ListedAt(results: seq<Found>, v: string, d: nat) {
    exists i :: 0 <= i < |results| && results[i].node == v && results[i].depth == d
  }

  lemma OneWay(edges: seq<RawEdge>, types: set<string>, reverse: bool, u: string, v: string, depth: nat, d: nat,
               there: seq<Found>, back: seq<Found>)
    requires u != v && ListedAt(there, v, d)
    requires ExactSlice(edges, types, [reverse], u, depth, there) && ExactSlice(edges, types, [!reverse], v, depth, back)
    ensures ListedAt(back, u, d)
  {
    var moves := WalkOfListed(edges, types, [reverse], u, v, depth, d, there);
    var home := ReverseWalk(edges, types, reverse, u, moves, v);
    assert InReach(edges, types, [!reverse], v, depth, u);
    assert Lists(back, u);
    var j :| 0 <= j < |back| && back[j].node == u;
    var shortest := WalkOfListed(edges, types, [!reverse], v, u, depth, back[j].depth, back);
    var again := ReverseWalk(edges, types, !reverse, v, shortest, u);
    NotShorter(edges, types, [reverse], u, v, depth, d, there, again);
    NotShorter(edges, types, [!reverse], v, u, depth, back[j].depth, back, home);
  }

  /** A listed node has a walk of the listed depth, within the bound ... */
  lemma WalkOfListed(edges: seq<RawEdge>, types: set<string>, dirs: seq<bool>, u: string, v: string, depth: nat, d: nat,
                     results: seq<Found>) returns (moves: seq<Move>)
    requires v != u && ExactSlice(edges, types, dirs, u, depth, results) && ListedAt(results, v, d)
    ensures EdgeWalk(edges, types, dirs, u, moves, v) && |moves| == d <= depth
  {
    var i :| 0 <= i < |results| && results[i].node == v && results[i].depth == d;
    assert Witnessed(edges, types, dirs, u, results[i]);
    moves :| EdgeWalk(edges, types, dirs, u, moves, v) && PathOf(moves, results[i]);
    assert Lists(results, v);
    var reached :| EdgeWalk(edges, types, dirs, u, reached, v) && |reached| <= depth;
    assert NoneShorter(edges, types, dirs, u, results[i]);
  }

  /** ... and no shorter one. */
  lemma NotShorter(edges: seq<RawEdge>, types: set<string>, dirs: seq<bool>, u: string, v: string, depth: nat, d: nat,
                   results: seq<Found>, moves: seq<Move>)
    requires ExactSlice(edges, types, dirs, u, depth, results) && ListedAt(results, v, d)
    requires EdgeWalk(edges, types, dirs, u, moves, v)
    ensures d <= |moves|
  {
    var i :| 0 <= i < |results| && results[i].node == v && results[i].depth == d;
    assert NoneShorter(edges, types, dirs, u, results[i]);
  }

  /** Consumers and prerequisites are dual: v is a consumer of u at depth d iff u is a prerequisite of v
      at depth d. */
  lemma ForwardBackwardDual(edges: seq<RawEdge>, types: set<string>, u: string, v: string, maxDepth: int, d: nat)
    requires u != v
    ensures ListedAt(ForwardResults(edges, u, maxDepth, types), v, d) <==> ListedAt(BackwardResults(edges, v, maxDepth, types), u, d)
  {
    var depth := ClampDepth(maxDepth);
    SliceIsExact(edges, types, [false], u, depth);
    SliceIsExact(edges, types, [true], v, depth);
    var there, back := ForwardResults(edges, u, maxDepth, types), BackwardResults(edges, v, maxDepth, types);
    if ListedAt(there, v, d) { OneWay(edges, types, false, u, v, depth, d, there, back); }
    if ListedAt(back, u, d) { OneWay(edges, types, true, v, u, depth, d, back, there); }
  }

  lemma {:induction false} RunExtends(adjs: seq<Adjacency>, depth: nat, st: SearchState)
    ensures st.results <= Run(adjs, depth, st)
    decreases |Room(adjs, st) - st.visited| + |st.queue|
  {
    if st.queue != [] {
      var at, rest := st.queue[0], st.(queue := st.queue[1..]);
      if at.depth >= depth {
        RunExtends(adjs, depth, rest);
      } else {
        RunDecreases(adjs, st);
        ScanGrows(rest, at, Out(adjs, at.node));
        RunExtends(adjs, depth, ScanHops(rest, at, Out(adjs, at.node)));
      }
    }
  }

  /** Once the whole queue lies at the depth limit, nothing more is found. */
  lemma {:induction false} RunStops(adjs: seq<Adjacency>, depth: nat, st: SearchState)
    requires forall i :: 0 <= i < |st.queue| ==> st.queue[i].depth >= depth
    ensures Run(adjs, depth, st) == st.results
    decreases |st.queue|
  {
    if st.queue != [] { RunStops(adjs, depth, st.(queue := st.queue[1..])); }
  }

  lemma {:induction false} RunDeeper(adjs: seq<Adjacency>, start: string, depth: nat, deeper: nat, st: SearchState, via: Via)
    requires depth <= deeper
    requires SearchInv(adjs, start, depth, st, via) && Closed(adjs, depth, st, via, {})
    requires st.queue != [] ==> Level(st, via, st.queue[0].depth)
    ensures Run(adjs, depth, st) <= Run(adjs, deeper, st)
    decreases |Room(adjs, st) - st.visited| + |st.queue|
  {
    if st.queue == [] { return; }
    var at, rest := st.queue[0], st.(queue := st.queue[1..]);
    if at.depth >= depth {
      RunStops(adjs, depth, st);
      RunExtends(adjs, deeper, st);
    } else {
      DropFront(adjs, start, depth, st, via);
      assert Tracked(via, at);
      RunDecreases(adjs, st);
      var next := ScanHops(rest, at, Out(adjs, at.node));
      var via' := ScanHopsKeep(adjs, start, depth, rest, via, at, Out(adjs, at.node));
      assert Closed(adjs, depth, next, via', {});
      NextLevel(next, via', at.depth);
      RunDeeper(adjs, start, depth, deeper, next, via');
    }
  }

  /** A larger depth only appends results: what a shallower slice reported, and in which order, stays. */
  lemma DeeperSliceExtends(adjs: seq<Adjacency>, start: string, maxDepth: int, deeper: int)
    requires maxDepth <= deeper
    ensures BfsResults(adjs, start, ClampDepth(maxDepth)) <= BfsResults(adjs, start, ClampDepth(deeper))
  {
    var via: Via := map[start := []];
    var st := Initial(start);
    assert st.queue[0].node == start;
    assert Queued(st, start);
    RunDeeper(adjs, start, ClampDepth(maxDepth), ClampDepth(deeper), st, via);
  }
}
