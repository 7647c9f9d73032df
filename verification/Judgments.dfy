/** Retrieval of past judgments, and the regression that holds some of them out. */
module Judgments {
  import opened Prelude
  import Holdout

  /** An event of the ledger. A case carries its text fields as sets of features; "" is a missing source. */
  datatype Record =
    | Case(source: string, enriched: bool, number: int, scenario: set<string>, applicable: set<string>,
           affordance: set<string>, counters: seq<string>)
    | Other(text: string)

  datatype Hit = Hit(source: string, tier: nat, score: nat, counters: seq<(string, Option<set<string>>)>)

  predicate Usable(r: Record) {
    r.Case? && r.enriched && r.source != ""
  }

  type Latest = map<string, Record>

  /** Per source the usable record with the highest number, the first of equals. */
  function LatestCases(records: seq<Record>): Latest {
    if records == [] then map[]
    else
      var before, r := LatestCases(records[..|records| - 1]), records[|records| - 1];
      if Usable(r) && (r.source !in before || r.number > NumberOf(before[r.source])) then before[r.source := r] else before
  }

  function NumberOf(r: Record): int {
    if r.Case? then r.number else 0
  }

  method LatestEnrichedCases(records: seq<Record>) returns (latest: Latest)
    ensures latest == LatestCases(records)
  {
    latest := map[];
    assert records[..|records|] == records;
    for i := 0 to |records|
      invariant latest == LatestCases(records[..i])
    {
      assert records[..i + 1][..i] == records[..i];
      var r := records[i];
      if Usable(r) && (r.source !in latest || r.number > NumberOf(latest[r.source])) { latest := latest[r.source := r]; }
    }
  }

  ghost predicate JudgesFor(r: Record, source: string) {
    r.Case? && r.enriched && r.source == source && source != ""
  }

  /** The record at the place is the source's newest enriched one, the first of equals. */
  ghost predicate NewestAt(records: seq<Record>, source: string, i: int) {
    && 0 <= i < |records| && JudgesFor(records[i], source)
    && (forall j :: 0 <= j < |records| && JudgesFor(records[j], source) ==> records[j].number <= records[i].number)
    && (forall j :: 0 <= j < i && JudgesFor(records[j], source) ==> records[j].number < records[i].number)
  }

  ghost predicate HoldsNewest(records: seq<Record>, source: string, latest: Latest) {
    && (source in latest <==> exists i :: NewestAt(records, source, i))
    && (forall i :: NewestAt(records, source, i) ==> source in latest && latest[source] == records[i])
  }

  /** Exactly the sources with an enriched record are there, each with its newest one. */
  lemma {:induction false} LatestIsNewest(records: seq<Record>, source: string)
    ensures HoldsNewest(records, source, LatestCases(records))
  {
    if records != [] {
      var last := |records| - 1;
      var before, r := LatestCases(records[..last]), records[last];
      LatestIsNewest(records[..last], source);
      if JudgesFor(r, source) && (source !in before || r.number > NumberOf(before[source])) {
        assert records == records[..last] + [r];
        NewestReplaced(records[..last], r, source, before);
      } else {
        NewestKept(records, source, before);
      }
    }
  }

  lemma NewestReplaced(front: seq<Record>, r: Record, source: string, before: Latest)
    requires HoldsNewest(front, source, before)
    requires JudgesFor(r, source) && (source !in before || r.number > NumberOf(before[source]))
    ensures HoldsNewest(front + [r], source, before[source := r])
  {
    forall j | 0 <= j < |front| && JudgesFor(front[j], source) ensures front[j].number < r.number {
      var k := SomeNewest(front, source, j);
    }
    NewestIsLast(front, r, source);
  }

  lemma NewestIsLast(front: seq<Record>, r: Record, source: string)
    requires JudgesFor(r, source) && forall j :: 0 <= j < |front| && JudgesFor(front[j], source) ==> front[j].number < r.number
    ensures NewestAt(front + [r], source, |front|)
    ensures forall i :: NewestAt(front + [r], source, i) ==> i == |front|
  {
    assert (front + [r])[|front|] == r;
  }

  lemma NewestKept(records: seq<Record>, source: string, before: Latest)
    requires records != [] && HoldsNewest(records[..|records| - 1], source, before)
    requires var r := records[|records| - 1]; JudgesFor(r, source) ==> source in before && r.number <= NumberOf(before[source])
    ensures HoldsNewest(records, source, before)
  {
    var front := records[..|records| - 1];
    forall i ensures NewestAt(records, source, i) <==> NewestAt(front, source, i) {
      if source in before {
        var k :| NewestAt(front, source, k);
        StillNewest(records, source, k, i);
      } else {
        assert records == front + [records[|records| - 1]];
        NoneNewest(front, records[|records| - 1], source, i);
      }
    }
    if i :| NewestAt(front, source, i) { assert NewestAt(records, source, i); }
  }

  lemma StillNewest(records: seq<Record>, source: string, k: int, i: int)
    requires records != [] && NewestAt(records[..|records| - 1], source, k)
    requires var r := records[|records| - 1]; JudgesFor(r, source) ==> r.number <= records[k].number
    ensures NewestAt(records, source, i) <==> i == k
    ensures NewestAt(records[..|records| - 1], source, i) <==> i == k
  {
    var front := records[..|records| - 1];
    assert forall j :: 0 <= j < |front| ==> front[j] == records[j];
    assert JudgesFor(records[k], source);
    assert NewestAt(records, source, k);
  }

  lemma NoneNewest(front: seq<Record>, r: Record, source: string, i: int)
    requires !JudgesFor(r, source) && !exists k :: NewestAt(front, source, k)
    ensures !NewestAt(front + [r], source, i)
  {
    if NewestAt(front + [r], source, i) {
      assert i < |front| && (front + [r])[i] == front[i];
      var k := SomeNewest(front, source, i);
      assert false;
    }
  }

  /** Where there is an enriched record, one is the newest. */
  lemma {:induction false} SomeNewest(records: seq<Record>, source: string, j: nat) returns (k: nat)
    requires j < |records| && JudgesFor(records[j], source)
    ensures NewestAt(records, source, k)
    decreases |records|
  {
    var front, last := records[..|records| - 1], |records| - 1;
    assert forall i :: 0 <= i < last ==> front[i] == records[i];
    if i :| 0 <= i < last && JudgesFor(front[i], source) {
      k := SomeNewest(front, source, i);
      if JudgesFor(records[last], source) && records[last].number > records[k].number { k := last; }
    } else {
      k := j;
    }
  }

  // ------------------------------------------------------------ ranking

  function Overlap(feats: set<string>, field: set<string>): nat {
    |feats * field|
  }

  function CountersOf(latest: Latest, ids: seq<string>): seq<(string, Option<set<string>>)> {
    seq(|ids|, i requires 0 <= i < |ids| =>
      (ids[i], if ids[i] in latest && latest[ids[i]].Case? then Some(latest[ids[i]].scenario) else None))
  }

  /** The strongest tier on which the case meets the query. */
  function HitOf(latest: Latest, feats: set<string>, source: string): Option<Hit>
    requires source in latest
  {
    var r := latest[source];
    if !r.Case? then None
    else
      var direct, indirect, structural := Overlap(feats, r.scenario), Overlap(feats, r.applicable), Overlap(feats, r.affordance);
      var counters := CountersOf(latest, r.counters);
      if direct > 0 then Some(Hit(source, 0, direct, counters))
      else if indirect > 0 then Some(Hit(source, 1, indirect, counters))
      else if structural > 0 then Some(Hit(source, 2, structural, counters))
      else None
  }

  /** The field that a tier compares. */
  ghost function FieldOn(r: Record, tier: nat): set<string>
    requires r.Case?
  {
    if tier == 0 then r.scenario else if tier == 1 then r.applicable else r.affordance
  }

  /** The strongest tier on which the case shares a feature, and how many it shares there. */
  ghost predicate Meets(r: Record, feats: set<string>, hit: Hit) {
    && r.Case? && hit.tier <= 2
    && hit.score == |feats * FieldOn(r, hit.tier)| > 0
    && (forall tier: nat :: tier < hit.tier ==> feats !! FieldOn(r, tier))
  }

  /** Each counterexample goes with the scenario of its newest record, if it has one. */
  ghost predicate Countered(records: seq<Record>, r: Record, hit: Hit) {
    && r.Case? && |hit.counters| == |r.counters|
    && forall k :: 0 <= k < |r.counters| ==>
         && hit.counters[k].0 == r.counters[k]
         && (hit.counters[k].1.None? <==> !exists i :: NewestAt(records, r.counters[k], i))
         && (forall i :: NewestAt(records, r.counters[k], i) ==> hit.counters[k].1 == Some(records[i].scenario))
  }

  ghost predicate IsHit(records: seq<Record>, feats: set<string>, hit: Hit) {
    exists i :: NewestAt(records, hit.source, i) && Meets(records[i], feats, hit) && Countered(records, records[i], hit)
  }

  lemma OverlapMeans(feats: set<string>, field: set<string>)
    ensures Overlap(feats, field) == 0 <==> feats !! field
  {
    if Overlap(feats, field) == 0 { assert feats * field == {}; }
    forall x | x in feats ensures Overlap(feats, field) == 0 ==> x !in field {
      if x in field { assert x in feats * field; }
    }
    if feats !! field { assert feats * field == {}; }
  }

  lemma CountersMean(records: seq<Record>, r: Record, hit: Hit)
    requires r.Case?
    ensures hit.counters == CountersOf(LatestCases(records), r.counters) <==> Countered(records, r, hit)
  {
    var latest := LatestCases(records);
    forall k | 0 <= k < |r.counters| ensures HoldsNewest(records, r.counters[k], latest) {
      LatestIsNewest(records, r.counters[k]);
    }
    if Countered(records, r, hit) {
      forall k | 0 <= k < |r.counters| ensures hit.counters[k] == CountersOf(latest, r.counters)[k] {
        if i :| NewestAt(records, r.counters[k], i) { }
      }
    }
  }

  lemma TierMeans(latest: Latest, feats: set<string>, source: string, hit: Hit)
    requires source in latest && latest[source].Case?
    ensures HitOf(latest, feats, source) == Some(hit)
       <==> hit.source == source && Meets(latest[source], feats, hit) && hit.counters == CountersOf(latest, latest[source].counters)
  {
    var r := latest[source];
    OverlapMeans(feats, r.scenario);
    OverlapMeans(feats, r.applicable);
    OverlapMeans(feats, r.affordance);
    assert FieldOn(r, 0) == r.scenario && FieldOn(r, 1) == r.applicable && FieldOn(r, 2) == r.affordance;
  }

  lemma HitMeans(records: seq<Record>, feats: set<string>, hit: Hit)
    ensures HitIn(LatestCases(records), feats, LatestCases(records).Keys, hit) <==> IsHit(records, feats, hit)
  {
    var latest := LatestCases(records);
    LatestIsNewest(records, hit.source);
    if HitIn(latest, feats, latest.Keys, hit) {
      assert hit.source in latest;
      var i :| NewestAt(records, hit.source, i);
      TierMeans(latest, feats, hit.source, hit);
      CountersMean(records, records[i], hit);
    }
    if i :| NewestAt(records, hit.source, i) && Meets(records[i], feats, hit) && Countered(records, records[i], hit) {
      TierMeans(latest, feats, hit.source, hit);
      CountersMean(records, records[i], hit);
      assert hit.source in latest.Keys;
    }
  }

  /** Direct before indirect before structural, then the more shared features, then the id. */
  ghost predicate Better(a: Hit, b: Hit) {
    || a.tier < b.tier
    || (a.tier == b.tier && b.score < a.score)
    || ((a.tier, a.score) == (b.tier, b.score) && a.source != b.source && LexBefore(a.source, b.source))
  }

  lemma BeforeMeans(a: Hit, b: Hit)
    ensures Before(a, b) <==> Better(a, b)
  {
    LexMeans(a.source, b.source);
  }

  /** Stronger tier first, then higher score, then by id. */
  predicate Before(a: Hit, b: Hit) {
    if a.tier != b.tier then a.tier < b.tier
    else if a.score != b.score then a.score > b.score
    else a.source != b.source && LexLe(a.source, b.source)
  }

  lemma BeforeTransitive(a: Hit, b: Hit, c: Hit)
    requires Before(a, b) && Before(b, c)
    ensures Before(a, c)
  {
    if LexLe(a.source, b.source) && LexLe(b.source, c.source) {
      LexTransitive(a.source, b.source, c.source);
      if a.source == c.source { LexAntisymmetric(a.source, b.source); }
    }
  }

  lemma BeforeIsTransitive()
    ensures Transitive(Before)
  {
    forall a, b, c: Hit | Before(a, b) && Before(b, c) ensures Before(a, c) { BeforeTransitive(a, b, c); }
  }

  lemma {:induction false} LexAntisymmetric(a: string, b: string)
    requires LexLe(a, b) && LexLe(b, a)
    ensures a == b
  {
    if a != "" && b != "" {
      LexAntisymmetric(a[1..], b[1..]);
      assert a == [a[0]] + a[1..] && b == [b[0]] + b[1..];
    }
  }

  lemma BeforeTotal(a: Hit, b: Hit)
    requires a.source != b.source
    ensures Before(a, b) || Before(b, a)
  {
    LexTotal(a.source, b.source);
  }

  ghost predicate HitIn(latest: Latest, feats: set<string>, sources: set<string>, hit: Hit) {
    exists source :: source in sources && source in latest && HitOf(latest, feats, source) == Some(hit)
  }

  /** The hits of the sources, best first. */
  ghost predicate Ranks(latest: Latest, feats: set<string>, sources: set<string>, hits: seq<Hit>) {
    OrderedBy(hits, Before) && forall hit :: hit in hits <==> HitIn(latest, feats, sources, hit)
  }

  /** The order leaves no choice: two rankings of the same hits are the same. */
  lemma {:induction false} SortedIsUnique(a: seq<Hit>, b: seq<Hit>)
    requires OrderedBy(a, Before) && OrderedBy(b, Before) && forall x :: x in a <==> x in b
    ensures a == b
    decreases |a|
  {
    if a == [] {
      if b != [] {
        var x := FirstOf(b);
        assert false;
      }
    } else {
      assert a[0] in b;
      assert b != [];
      assert b[0] in a;
      FirstsAgree(a, b);
      forall x ensures x in a[1..] <==> x in b[1..] {
        TailMembers(a, x);
        TailMembers(b, x);
      }
      SortedIsUnique(a[1..], b[1..]);
      assert a == [a[0]] + a[1..] && b == [b[0]] + b[1..];
    }
  }

  lemma FirstsAgree(a: seq<Hit>, b: seq<Hit>)
    requires OrderedBy(a, Before) && OrderedBy(b, Before) && a != [] && b != [] && a[0] in b && b[0] in a
    ensures a[0] == b[0]
  {
    var i :| 0 <= i < |b| && b[i] == a[0];
    var j :| 0 <= j < |a| && a[j] == b[0];
    if i > 0 && j > 0 { BeforeTransitive(a[0], b[0], a[0]); }
  }

  lemma TailMembers(a: seq<Hit>, x: Hit)
    requires OrderedBy(a, Before) && a != []
    ensures x in a[1..] <==> x in a && x != a[0]
  {
    if x in a && x != a[0] {
      var i :| 0 <= i < |a| && a[i] == x;
      assert a[1..][i - 1] == x;
    }
    if x in a[1..] {
      var i :| 0 <= i < |a| - 1 && a[1..][i] == x;
      assert Before(a[0], a[i + 1]);
    }
  }

  /** Without features there is nothing to meet. */
  lemma NoFeaturesNoHits(latest: Latest)
    ensures Ranks(latest, {}, latest.Keys, [])
  {
    forall source | source in latest ensures HitOf(latest, {}, source).None? {
      assert forall field: set<string> :: {} * field == {};
    }
  }

  function Take<T>(s: seq<T>, limit: Option<nat>): seq<T> {
    if limit.Some? && limit.value < |s| then s[..limit.value] else s
  }

  /** The hits of the newest cases, best first, cut to the limit. */
  ghost predicate Retrieved(records: seq<Record>, feats: set<string>, limit: Option<nat>, hits: seq<Hit>) {
    exists all :: Ranks(LatestCases(records), feats, LatestCases(records).Keys, all) && hits == Take(all, limit)
  }

  /** Hits, best first, and every other hit comes after them and beyond the limit. */
  ghost predicate BestHits(records: seq<Record>, feats: set<string>, limit: Option<nat>, hits: seq<Hit>) {
    && (forall i, j :: 0 <= i < j < |hits| ==> Better(hits[i], hits[j]))
    && (forall hit :: hit in hits ==> IsHit(records, feats, hit))
    && (limit.Some? ==> |hits| <= limit.value)
    && (forall hit :: IsHit(records, feats, hit) && hit !in hits ==>
          limit == Some(|hits|) && forall i :: 0 <= i < |hits| ==> Better(hits[i], hit))
  }

  lemma RetrievedMeans(records: seq<Record>, feats: set<string>, limit: Option<nat>, hits: seq<Hit>)
    requires Retrieved(records, feats, limit, hits)
    ensures BestHits(records, feats, limit, hits)
  {
    var latest := LatestCases(records);
    var all :| Ranks(latest, feats, latest.Keys, all) && hits == Take(all, limit);
    forall i, j | 0 <= i < j < |all| ensures Better(all[i], all[j]) { BeforeMeans(all[i], all[j]); }
    forall hit ensures hit in all <==> IsHit(records, feats, hit) { HitMeans(records, feats, hit); }
    forall hit | IsHit(records, feats, hit) && hit !in hits
      ensures limit == Some(|hits|) && forall i :: 0 <= i < |hits| ==> Better(hits[i], hit)
    {
      var k :| 0 <= k < |all| && all[k] == hit;
      assert forall i :: 0 <= i < |hits| ==> hits[i] == all[i] && hits[i] in hits;
    }
  }

  method RetrieveJudgments(records: seq<Record>, feats: set<string>, limit: Option<nat>) returns (hits: seq<Hit>)
    ensures Retrieved(records, feats, limit, hits) && BestHits(records, feats, limit, hits)
  {
    hits := [];
    if feats == {} {
      NoFeaturesNoHits(LatestCases(records));
      assert hits == Take(hits, limit);
      RetrievedMeans(records, feats, limit, hits);
      return;
    }
    var latest := LatestEnrichedCases(records);
    var todo := latest.Keys;
    while todo != {}
      invariant todo <= latest.Keys && Ranks(latest, feats, latest.Keys - todo, hits)
      decreases |todo|
    {
      var source :| source in todo;
      var hit := HitOf(latest, feats, source);
      RankOneMore(latest, feats, latest.Keys - todo, hits, source);
      assert latest.Keys - (todo - {source}) == latest.Keys - todo + {source};
      todo := todo - {source};
      if hit.Some? { hits := InsertBy(hits, hit.value, Before); }
    }
    assert latest.Keys - todo == latest.Keys;
    ghost var all := hits;
    if limit.Some? && limit.value < |hits| { hits := hits[..limit.value]; }
    assert hits == Take(all, limit);
    RetrievedMeans(records, feats, limit, hits);
  }

  lemma RankOneMore(latest: Latest, feats: set<string>, sources: set<string>, hits: seq<Hit>, source: string)
    requires Ranks(latest, feats, sources, hits) && source in latest && source !in sources
    ensures var hit := HitOf(latest, feats, source);
            Ranks(latest, feats, sources + {source}, if hit.Some? then InsertBy(hits, hit.value, Before) else hits)
  {
    var hit := HitOf(latest, feats, source);
    var longer := if hit.Some? then InsertBy(hits, hit.value, Before) else hits;
    if hit.Some? {
      forall x | x in hits ensures Before(x, hit.value) || Before(hit.value, x) {
        var s :| s in sources && s in latest && HitOf(latest, feats, s) == Some(x);
        BeforeTotal(x, hit.value);
      }
      BeforeIsTransitive();
      InsertByOrders(hits, hit.value, Before);
    }
    forall x ensures x in longer <==> HitIn(latest, feats, sources + {source}, x) {
      if hit.Some? { InsertByMembers(hits, hit.value, Before, x); }
      if HitIn(latest, feats, sources, x) {
        var s :| s in sources && s in latest && HitOf(latest, feats, s) == Some(x);
        assert s in sources + {source};
      }
      if hit == Some(x) { assert source in sources + {source}; }
    }
  }

  // ------------------------------------------------------------ isolation of the held-out cases

  /** Everything but the case records, of whatever version, of the held-out sources. */
  function PoolRecords(records: seq<Record>, held: set<string>): seq<Record> {
    if records == [] then []
    else
      var r := records[|records| - 1];
      PoolRecords(records[..|records| - 1], held) + if r.Case? && r.source in held then [] else [r]
  }

  method PoolRecordsExcluding(records: seq<Record>, held: set<string>) returns (pool: seq<Record>)
    ensures pool == PoolRecords(records, held)
  {
    pool := [];
    assert records[..|records|] == records;
    for i := 0 to |records|
      invariant pool == PoolRecords(records[..i], held)
    {
      assert records[..i + 1][..i] == records[..i];
      if !(records[i].Case? && records[i].source in held) { pool := pool + [records[i]]; }
    }
  }

  predicate HeldCase(r: Record, held: set<string>) {
    r.Case? && r.source in held
  }

  /** The same ledger but for what the held-out case records say. */
  ghost predicate DiffersInHeld(records: seq<Record>, edited: seq<Record>, held: set<string>) {
    |records| == |edited|
    && forall i :: 0 <= i < |records| ==> records[i] == edited[i] || (HeldCase(records[i], held) && HeldCase(edited[i], held))
  }

  lemma {:induction false} EditsLeaveThePool(records: seq<Record>, edited: seq<Record>, held: set<string>)
    requires DiffersInHeld(records, edited, held)
    ensures PoolRecords(records, held) == PoolRecords(edited, held)
  {
    if records != [] { EditsLeaveThePool(records[..|records| - 1], edited[..|edited| - 1], held); }
  }

  /** For a fixed query, no edit of a held-out record, of any version, changes any hit. */
  lemma HitsIgnoreHeldOut(records: seq<Record>, edited: seq<Record>, held: set<string>, feats: set<string>,
                          hits: seq<Hit>, others: seq<Hit>)
    requires DiffersInHeld(records, edited, held)
    requires var latest := LatestCases(PoolRecords(records, held)); Ranks(latest, feats, latest.Keys, hits)
    requires var latest := LatestCases(PoolRecords(edited, held)); Ranks(latest, feats, latest.Keys, others)
    ensures hits == others
  {
    EditsLeaveThePool(records, edited, held);
    SortedIsUnique(hits, others);
  }

  lemma {:induction false} PoolHasNoHeldCase(records: seq<Record>, held: set<string>)
    ensures forall r :: r in PoolRecords(records, held) ==> !HeldCase(r, held)
  {
    if records != [] { PoolHasNoHeldCase(records[..|records| - 1], held); }
  }

  /** No held-out case is ever retrieved. */
  lemma NoHeldOutHit(records: seq<Record>, held: set<string>, feats: set<string>, hits: seq<Hit>, hit: Hit)
    requires var latest := LatestCases(PoolRecords(records, held)); Ranks(latest, feats, latest.Keys, hits)
    requires hit in hits
    ensures hit.source !in held
  {
    var pool := PoolRecords(records, held);
    var latest := LatestCases(pool);
    assert HitIn(latest, feats, latest.Keys, hit);
    LatestIsNewest(pool, hit.source);
    PoolHasNoHeldCase(records, held);
    var i :| NewestAt(pool, hit.source, i);
    assert !HeldCase(pool[i], held);
  }

  // ------------------------------------------------------------ the regression

  datatype CaseResult = CaseResult(heldOut: string, actual: string, predicted: string, retrieved: Option<string>, matched: bool)

  const NO_PREDICTION := "none"

  function MatchedCount(results: seq<CaseResult>): nat {
    if results == [] then 0
    else MatchedCount(results[..|results| - 1]) + if results[|results| - 1].matched then 1 else 0
  }

  function Sources(cases: seq<Record>): set<string> {
    set c | c in cases && c.Case? :: c.source
  }

  function SourceOfFirst(hits: seq<Hit>): Option<string> {
    if hits == [] then None else Some(hits[0].source)
  }

  /** The case that the pool ranks first for these features, if it has any hit. */
  ghost predicate BestInPool(pool: seq<Record>, feats: set<string>, best: Option<string>) {
    exists all :: Ranks(LatestCases(pool), feats, LatestCases(pool).Keys, all) && best == SourceOfFirst(all)
  }

  /** The ranking is one, so is its first. */
  lemma BestIsUnique(pool: seq<Record>, feats: set<string>, best: Option<string>, other: Option<string>)
    requires BestInPool(pool, feats, best) && BestInPool(pool, feats, other)
    ensures best == other
  {
    var latest := LatestCases(pool);
    var a :| Ranks(latest, feats, latest.Keys, a) && best == SourceOfFirst(a);
    var b :| Ranks(latest, feats, latest.Keys, b) && other == SourceOfFirst(b);
    SortedIsUnique(a, b);
  }

  /** The prediction is the direction of the best hit in the pool, none without any; no held-out
      case is that hit. */
  ghost predicate Judged(r: CaseResult, c: Record, pool: seq<Record>, held: set<string>, direction: string -> string)
  {
    && c.Case? && r.heldOut == c.source && r.actual == direction(c.source)
    && BestInPool(pool, c.scenario, r.retrieved)
    && (r.retrieved.Some? ==> r.retrieved.value !in held)
    && r.predicted == (if r.retrieved.Some? then direction(r.retrieved.value) else "none")
    && (r.matched <==> r.predicted != "none" && r.predicted == r.actual)
  }

  method EvaluateCase(ghost records: seq<Record>, pool: seq<Record>, ghost held: set<string>, c: Record, direction: string -> string)
    returns (r: CaseResult)
    requires c.Case? && pool == PoolRecords(records, held)
    ensures Judged(r, c, pool, held, direction)
  {
    var actual := direction(c.source);
    var hits := RetrieveJudgments(pool, c.scenario, Some(1));
    ghost var all :| Ranks(LatestCases(pool), c.scenario, LatestCases(pool).Keys, all) && hits == Take(all, Some(1));
    assert hits == [] <==> all == [];
    var retrieved: Option<string>, predicted := None, NO_PREDICTION;
    if hits != [] {
      assert hits[0] == all[0];
      NoHeldOutHit(records, held, c.scenario, all, hits[0]);
      retrieved, predicted := Some(hits[0].source), direction(hits[0].source);
    }
    r := CaseResult(c.source, actual, predicted, retrieved, predicted != NO_PREDICTION && predicted == actual);
  }

  /** Each answer fits its question. */
  ghost predicate Pairs<A, B>(answers: seq<A>, questions: seq<B>, fits: (A, B) -> bool) {
    |answers| <= |questions| && forall i :: 0 <= i < |answers| ==> fits(answers[i], questions[i])
  }

  lemma PairsOneMore<A, B>(answers: seq<A>, questions: seq<B>, fits: (A, B) -> bool, answer: A)
    requires Pairs(answers, questions, fits) && |answers| < |questions| && fits(answer, questions[|answers|])
    ensures Pairs(answers + [answer], questions, fits)
  {
  }

  ghost function Judging(pool: seq<Record>, held: set<string>, direction: string -> string): (CaseResult, Record) -> bool {
    (r, c) => Judged(r, c, pool, held, direction)
  }

  method EvaluateAll(records: seq<Record>, held: seq<Record>, direction: string -> string)
    returns (results: seq<CaseResult>, matched: nat)
    requires forall c :: c in held ==> c.Case?
    ensures |results| == |held| && matched == MatchedCount(results)
    ensures Pairs(results, held, Judging(PoolRecords(records, Sources(held)), Sources(held), direction))
  {
    var sources := Sources(held);
    var pool := PoolRecordsExcluding(records, sources);
    ghost var fits := Judging(pool, sources, direction);
    results, matched := [], 0;
    for i := 0 to |held|
      invariant |results| == i && matched == MatchedCount(results)
      invariant Pairs(results, held, fits)
    {
      var c := held[i];
      assert c in held;
      var r := EvaluateCase(records, pool, sources, c, direction);
      CountOneMore(results, r);
      PairsOneMore(results, held, fits, r);
      if r.matched { matched := matched + 1; }
      results := results + [r];
    }
  }

  lemma CountOneMore(results: seq<CaseResult>, r: CaseResult)
    ensures MatchedCount(results + [r]) == MatchedCount(results) + if r.matched then 1 else 0
  {
    assert (results + [r])[..|results|] == results;
  }

  predicate NumberNotAbove(a: Record, b: Record) {
    NumberOf(a) <= NumberOf(b)
  }

  /** The newest case of every source, once each, by number. */
  ghost predicate NewestCases(records: seq<Record>, cases: seq<Record>) {
    && (forall i, j :: 0 <= i < j < |cases| ==> cases[i].Case? && cases[j].Case? && cases[i].number <= cases[j].number)
    && (forall c :: c in cases <==> IsNewest(records, c))
    && (forall c :: multiset(cases)[c] <= 1)
  }

  ghost predicate IsNewest(records: seq<Record>, c: Record) {
    c.Case? && exists i :: NewestAt(records, c.source, i) && records[i] == c
  }

  ghost predicate NewestOf(latest: Latest, sources: set<string>, c: Record) {
    exists source :: source in sources && source in latest && latest[source] == c
  }

  lemma NewestMeans(records: seq<Record>, c: Record)
    ensures NewestOf(LatestCases(records), LatestCases(records).Keys, c) <==> IsNewest(records, c)
  {
    var latest := LatestCases(records);
    if source :| source in latest && latest[source] == c { LatestIsNewest(records, source); }
    if c.Case? { LatestIsNewest(records, c.source); }
  }

  /** Every source once, with its newest case. */
  ghost predicate Gathered(latest: Latest, sources: set<string>, cases: seq<Record>) {
    && OrderedBy(cases, NumberNotAbove)
    && (forall c :: c in cases <==> NewestOf(latest, sources, c))
    && (forall c :: multiset(cases)[c] <= 1)
  }

  lemma GatheredMeans(records: seq<Record>, cases: seq<Record>)
    requires Gathered(LatestCases(records), LatestCases(records).Keys, cases)
    ensures NewestCases(records, cases)
  {
    forall c ensures c in cases <==> IsNewest(records, c) { NewestMeans(records, c); }
    forall i, j | 0 <= i < j < |cases| ensures cases[i].Case? && cases[j].Case? && cases[i].number <= cases[j].number {
      assert cases[i] in cases && cases[j] in cases;
    }
  }

  method NewestCasesByNumber(records: seq<Record>) returns (cases: seq<Record>)
    ensures NewestCases(records, cases)
  {
    var latest := LatestEnrichedCases(records);
    var todo := latest.Keys;
    cases := [];
    forall source | source in latest ensures latest[source].Case? && latest[source].source == source { LatestIsNewest(records, source); }
    while todo != {}
      invariant todo <= latest.Keys && Gathered(latest, latest.Keys - todo, cases)
      decreases |todo|
    {
      var source :| source in todo;
      OneCaseMore(latest, latest.Keys - todo, cases, source);
      assert latest.Keys - (todo - {source}) == latest.Keys - todo + {source};
      todo := todo - {source};
      cases := InsertBy(cases, latest[source], NumberNotAbove);
    }
    assert latest.Keys - todo == latest.Keys;
    GatheredMeans(records, cases);
  }

  lemma OneCaseMore(latest: Latest, sources: set<string>, cases: seq<Record>, source: string)
    requires Gathered(latest, sources, cases) && source in latest && source !in sources
    requires forall s :: s in latest ==> latest[s].Case? && latest[s].source == s
    ensures Gathered(latest, sources + {source}, InsertBy(cases, latest[source], NumberNotAbove))
  {
    var longer := InsertBy(cases, latest[source], NumberNotAbove);
    InsertByKeeps(cases, latest[source], NumberNotAbove);
    assert latest[source] !in cases;
    InsertByOrders(cases, latest[source], NumberNotAbove);
    forall c ensures c in longer <==> NewestOf(latest, sources + {source}, c) {
      InsertByMembers(cases, latest[source], NumberNotAbove, c);
      if NewestOf(latest, sources, c) {
        var s :| s in sources && s in latest && latest[s] == c;
        assert s in sources + {source};
      }
      if c == latest[source] { assert source in sources + {source}; }
    }
  }

  /** `direction` tells a judgment's direction from its id. The cases are the newest usable ones. */
  method EvaluateRegression(records: seq<Record>, direction: string -> string, threshold: real, ratio: real)
    returns (results: seq<CaseResult>, score: real, passed: bool,
             ghost cases: seq<Record>, ghost held: seq<Record>, ghost pool: seq<Record>)
    ensures NewestCases(records, cases)
    ensures Holdout.IsPartition(cases, ratio, held, pool)
    ensures |results| == |held| == if |cases| < 2 then 0 else Holdout.HoldoutSize(|cases|, ratio)
    ensures Pairs(results, held, Judging(PoolRecords(records, Sources(held)), Sources(held), direction))
    ensures score == (if results == [] then 0.0 else MatchedCount(results) as real / |results| as real)
    ensures passed <==> results != [] && score >= threshold
  {
    var newest := NewestCasesByNumber(records);
    var heldOut, left := Holdout.PartitionHoldout(newest, ratio);
    cases := newest;
    held, pool := heldOut, left;
    forall c | c in heldOut ensures c.Case? {
      assert c in newest;
      assert IsNewest(records, c);
    }
    var matched: nat;
    results, matched := EvaluateAll(records, heldOut, direction);
    score := if |heldOut| == 0 then 0.0 else matched as real / |heldOut| as real;
    passed := |heldOut| > 0 && score >= threshold;
  }
}
