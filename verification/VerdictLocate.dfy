/** Finding a fork's verdict in the JSON it printed. */
module VerdictLocate {
  import opened Prelude

  /** A parsed JSON value; a dict keeps its insertion order. */
  datatype Json =
    | Null
    | Bool(b: bool)
    | Number(n: real)
    | Str(s: string)
    | List(items: seq<Json>)
    | Dict(entries: seq<(string, Json)>)

  const MAX_DEPTH := 8
  const TRUTHY := {"true", "yes", "passed", "pass", "ok"}
  const FALSY := {"false", "no", "failed", "fail"}

  /** dict.get: None for an absent key, and for anything but a dict. */
  function Get(d: Json, key: string): Option<Json> {
    if d.Dict? then Lookup(d.entries, key) else None
  }

  function Lookup(entries: seq<(string, Json)>, key: string): Option<Json> {
    if entries == [] then None
    else if entries[0].0 == key then Some(entries[0].1)
    else Lookup(entries[1..], key)
  }

  function CoercePassed(raw: Option<Json>): Option<bool> {
    match raw
    case Some(Bool(b)) => Some(b)
    case Some(Str(s)) =>
      var word := Lower(Strip(s));
      if word in TRUTHY then Some(true) else if word in FALSY then Some(false) else None
    case _ => None
  }

  /** What a dict says about itself, when it says anything recognisable. */
  function Judgement(d: Json, passedKey: string): Option<bool> {
    CoercePassed(Get(d, passedKey))
  }

  datatype Found = Found(verdict: Json, passed: bool)

  function LocateVerdict(d: Json, resultKey: string, passedKey: string, depth: nat): Option<Found>
    decreases d, 1, 0
  {
    if !d.Dict? || depth > MAX_DEPTH then None
    else
      var wrapped := Get(d, resultKey);
      if wrapped.Some? && Judgement(wrapped.value, passedKey).Some? then
        Some(Found(wrapped.value, Judgement(wrapped.value, passedKey).value))
      else if Judgement(d, passedKey).Some? then Some(Found(d, Judgement(d, passedKey).value))
      else LocateInValues(d, 0, resultKey, passedKey, depth)
  }

  /** The loop over the dict's values, from the i-th on. */
  function LocateInValues(d: Json, i: nat, resultKey: string, passedKey: string, depth: nat): Option<Found>
    requires d.Dict? && i <= |d.entries|
    decreases d, 0, |d.entries| - i
  {
    if i == |d.entries| then None
    else
      var found := LocateVerdict(d.entries[i].1, resultKey, passedKey, depth + 1);
      if found.Some? then found else LocateInValues(d, i + 1, resultKey, passedKey, depth)
  }

  // ------------------------------------------------------------ what a dict says, read off its entries

  ghost predicate EntryAt(entries: seq<(string, Json)>, key: string, v: Json, i: int) {
    0 <= i < |entries| && entries[i] == (key, v) && forall j :: 0 <= j < i ==> entries[j].0 != key
  }

  /** The dict has the value under the key. */
  ghost predicate HasEntry(d: Json, key: string, v: Json) {
    d.Dict? && exists i :: EntryAt(d.entries, key, v, i)
  }

  /** A bool says itself; a string says true or false when it is one of these words, blanks and case aside. */
  ghost predicate Says(v: Json, b: bool) {
    || v == Bool(b)
    || (v.Str? && exists word :: word in SayingWords(b) && Spells(v.s, word))
  }

  ghost function SayingWords(b: bool): set<string> {
    if b then {"true", "yes", "passed", "pass", "ok"} else {"false", "no", "failed", "fail"}
  }

  ghost predicate JudgedAs(d: Json, passedKey: string, b: bool) {
    exists v :: HasEntry(d, passedKey, v) && Says(v, b)
  }

  lemma {:induction false} LookupMeans(entries: seq<(string, Json)>, key: string, v: Json)
    ensures Lookup(entries, key) == Some(v) <==> exists i :: EntryAt(entries, key, v, i)
  {
    if entries != [] {
      LookupMeans(entries[1..], key, v);
      if entries[0].0 == key {
        assert entries[0].1 == v ==> EntryAt(entries, key, v, 0);
      } else {
        if i :| EntryAt(entries[1..], key, v, i) {
          assert forall j :: 0 < j <= i ==> entries[j] == entries[1..][j - 1];
          assert EntryAt(entries, key, v, i + 1);
        }
        if i :| EntryAt(entries, key, v, i) { assert EntryAt(entries[1..], key, v, i - 1); }
      }
    }
  }

  lemma GetMeans(d: Json, key: string, v: Json)
    ensures Get(d, key) == Some(v) <==> HasEntry(d, key, v)
  {
    if d.Dict? { LookupMeans(d.entries, key, v); }
  }

  lemma WordsMean(s: string, b: bool)
    ensures Lower(Strip(s)) in SayingWords(b) <==> exists word :: word in SayingWords(b) && Spells(s, word)
  {
    forall word | word in SayingWords(b) ensures Lower(Strip(s)) == word <==> Spells(s, word) { NormMeans(s, word); }
  }

  lemma CoerceMeans(v: Json, b: bool)
    ensures CoercePassed(Some(v)) == Some(b) <==> Says(v, b)
  {
    if v.Str? {
      WordsMean(v.s, true);
      WordsMean(v.s, false);
    }
  }

  lemma JudgementMeans(d: Json, passedKey: string, b: bool)
    ensures Judgement(d, passedKey) == Some(b) <==> JudgedAs(d, passedKey, b)
  {
    forall v ensures Get(d, passedKey) == Some(v) <==> HasEntry(d, passedKey, v) { GetMeans(d, passedKey, v); }
    if v :| HasEntry(d, passedKey, v) && Says(v, b) { CoerceMeans(v, b); }
    if Judgement(d, passedKey) == Some(b) {
      CoerceMeans(Get(d, passedKey).value, b);
      assert HasEntry(d, passedKey, Get(d, passedKey).value);
    }
  }

  // ------------------------------------------------------------ where a verdict can lie

  /** `target` is reached from `d` through exactly `level` dict values; lists are never entered. */
  ghost predicate AtLevel(d: Json, target: Json, level: nat)
    decreases level, 1
  {
    d.Dict? && if level == 0 then target == d else exists i :: ChildAtLevel(d, i, target, level)
  }

  ghost predicate ChildAtLevel(d: Json, i: int, target: Json, level: nat)
    decreases level, 0
  {
    d.Dict? && 0 <= i < |d.entries| && level > 0 && AtLevel(d.entries[i].1, target, level - 1)
  }

  /** `target` sits directly under `resultKey` of a dict at that level. */
  ghost predicate WrappedAt(d: Json, target: Json, level: nat, resultKey: string) {
    target.Dict? && exists host :: AtLevel(d, host, level) && Get(host, resultKey) == Some(target)
  }

  /** The dicts the search may look at when it has `budget` more levels below this one. */
  ghost predicate InRange(d: Json, target: Json, budget: nat, resultKey: string) {
    || (exists level: nat :: level <= budget && AtLevel(d, target, level))
    || WrappedAt(d, target, budget, resultKey)
  }

  lemma LookupIsEntry(entries: seq<(string, Json)>, key: string) returns (i: nat)
    requires Lookup(entries, key).Some?
    ensures i < |entries| && entries[i] == (key, Lookup(entries, key).value)
  {
    if entries[0].0 == key {
      i := 0;
    } else {
      i := LookupIsEntry(entries[1..], key);
      i := i + 1;
    }
  }

  lemma AtLevelUnfold(d: Json, target: Json, level: nat)
    requires AtLevel(d, target, level) && level > 0
    ensures exists i :: ChildAtLevel(d, i, target, level)
  {
  }

  /** A dict under the result key is one level down. */
  lemma WrappedIsBelow(d: Json, host: Json, target: Json, level: nat, resultKey: string)
    requires AtLevel(d, host, level) && Get(host, resultKey) == Some(target) && target.Dict?
    ensures AtLevel(d, target, level + 1)
    decreases level
  {
    if level == 0 {
      var i := LookupIsEntry(d.entries, resultKey);
      assert ChildAtLevel(d, i, target, 1);
    } else {
      var i :| ChildAtLevel(d, i, host, level);
      WrappedIsBelow(d.entries[i].1, host, target, level - 1, resultKey);
      assert ChildAtLevel(d, i, target, level + 1);
    }
  }

  /** A dict in range is the start itself, wrapped at the start, or in range of one of its values. */
  lemma InRangeUnfold(d: Json, target: Json, budget: nat, resultKey: string)
    requires d.Dict? && InRange(d, target, budget, resultKey)
    ensures || target == d
            || (target.Dict? && Get(d, resultKey) == Some(target))
            || (exists i :: InRangeOfChild(d, i, target, budget, resultKey))
  {
    if level: nat :| level <= budget && AtLevel(d, target, level) {
      if level > 0 {
        AtLevelUnfold(d, target, level);
        var i :| ChildAtLevel(d, i, target, level);
        assert AtLevel(d.entries[i].1, target, level - 1);
        assert InRangeOfChild(d, i, target, budget, resultKey);
      }
    } else {
      var host :| AtLevel(d, host, budget) && Get(host, resultKey) == Some(target);
      if budget > 0 {
        AtLevelUnfold(d, host, budget);
        var i :| ChildAtLevel(d, i, host, budget);
        assert WrappedAt(d.entries[i].1, target, budget - 1, resultKey);
        assert InRangeOfChild(d, i, target, budget, resultKey);
      }
    }
  }

  ghost predicate InRangeOfChild(d: Json, i: int, target: Json, budget: nat, resultKey: string) {
    d.Dict? && 0 <= i < |d.entries| && budget > 0 && InRange(d.entries[i].1, target, budget - 1, resultKey)
  }

  lemma InRangeFold(d: Json, i: nat, target: Json, budget: nat, resultKey: string)
    requires InRangeOfChild(d, i, target, budget, resultKey)
    ensures InRange(d, target, budget, resultKey)
  {
    var child := d.entries[i].1;
    if level: nat :| level <= budget - 1 && AtLevel(child, target, level) {
      assert ChildAtLevel(d, i, target, level + 1);
      assert AtLevel(d, target, level + 1);
    } else {
      var host :| AtLevel(child, host, budget - 1) && Get(host, resultKey) == Some(target);
      assert ChildAtLevel(d, i, host, budget);
      assert AtLevel(d, host, budget);
    }
  }

  // ------------------------------------------------------------ the search is exact

  ghost predicate Fits(d: Json, found: Found, budget: nat, resultKey: string, passedKey: string) {
    && found.verdict.Dict? && InRange(d, found.verdict, budget, resultKey)
    && Judgement(found.verdict, passedKey) == Some(found.passed)
  }

  lemma {:induction false} LocateSound(d: Json, resultKey: string, passedKey: string, depth: nat)
    requires depth <= MAX_DEPTH && LocateVerdict(d, resultKey, passedKey, depth).Some?
    ensures Fits(d, LocateVerdict(d, resultKey, passedKey, depth).value, MAX_DEPTH - depth, resultKey, passedKey)
    decreases d, 1, 0
  {
    var wrapped := Get(d, resultKey);
    if wrapped.Some? && Judgement(wrapped.value, passedKey).Some? {
      assert AtLevel(d, d, 0);
      if depth < MAX_DEPTH {
        WrappedIsBelow(d, d, wrapped.value, 0, resultKey);
      } else {
        assert WrappedAt(d, wrapped.value, 0, resultKey);
      }
    } else if Judgement(d, passedKey).Some? {
      assert AtLevel(d, d, 0);
    } else {
      LocateInValuesSound(d, 0, resultKey, passedKey, depth);
    }
  }

  lemma {:induction false} LocateInValuesSound(d: Json, i: nat, resultKey: string, passedKey: string, depth: nat)
    requires d.Dict? && i <= |d.entries| && depth <= MAX_DEPTH
    requires LocateInValues(d, i, resultKey, passedKey, depth).Some?
    ensures Fits(d, LocateInValues(d, i, resultKey, passedKey, depth).value, MAX_DEPTH - depth, resultKey, passedKey)
    decreases d, 0, |d.entries| - i
  {
    var here := LocateVerdict(d.entries[i].1, resultKey, passedKey, depth + 1);
    if here.Some? {
      LocateSound(d.entries[i].1, resultKey, passedKey, depth + 1);
      InRangeFold(d, i, here.value.verdict, MAX_DEPTH - depth, resultKey);
    } else {
      LocateInValuesSound(d, i + 1, resultKey, passedKey, depth);
    }
  }

  lemma {:induction false} LocateComplete(d: Json, target: Json, resultKey: string, passedKey: string, depth: nat)
    requires depth <= MAX_DEPTH && d.Dict?
    requires InRange(d, target, MAX_DEPTH - depth, resultKey) && Judgement(target, passedKey).Some?
    ensures LocateVerdict(d, resultKey, passedKey, depth).Some?
    decreases MAX_DEPTH - depth
  {
    InRangeUnfold(d, target, MAX_DEPTH - depth, resultKey);
    if target != d && !(target.Dict? && Get(d, resultKey) == Some(target)) {
      var i :| InRangeOfChild(d, i, target, MAX_DEPTH - depth, resultKey);
      InRangeIsDict(d.entries[i].1, target, MAX_DEPTH - depth - 1, resultKey);
      LocateComplete(d.entries[i].1, target, resultKey, passedKey, depth + 1);
      ValuesFindAny(d, 0, i, resultKey, passedKey, depth);
    }
  }

  lemma InRangeIsDict(d: Json, target: Json, budget: nat, resultKey: string)
    requires InRange(d, target, budget, resultKey)
    ensures d.Dict?
  {
  }

  lemma {:induction false} ValuesFindAny(d: Json, from: nat, i: nat, resultKey: string, passedKey: string, depth: nat)
    requires d.Dict? && from <= i < |d.entries|
    requires LocateVerdict(d.entries[i].1, resultKey, passedKey, depth + 1).Some?
    ensures LocateInValues(d, from, resultKey, passedKey, depth).Some?
    decreases i - from
  {
    if from < i { ValuesFindAny(d, from + 1, i, resultKey, passedKey, depth); }
  }

  /** A dict that says true or false, at levels 0 to 8 of the candidate, or at level 9 under the result key. */
  ghost predicate Verdictlike(d: Json, target: Json, resultKey: string, passedKey: string) {
    && (exists b :: JudgedAs(target, passedKey, b))
    && ((exists level: nat :: level <= 8 && AtLevel(d, target, level))
        || (exists host :: AtLevel(d, host, 8) && HasEntry(host, resultKey, target)))
  }

  lemma VerdictlikeMeans(d: Json, target: Json, resultKey: string, passedKey: string)
    ensures Verdictlike(d, target, resultKey, passedKey)
       <==> Judgement(target, passedKey).Some? && InRange(d, target, MAX_DEPTH, resultKey)
  {
    forall b ensures Judgement(target, passedKey) == Some(b) <==> JudgedAs(target, passedKey, b) { JudgementMeans(target, passedKey, b); }
    forall host ensures Get(host, resultKey) == Some(target) <==> HasEntry(host, resultKey, target) { GetMeans(host, resultKey, target); }
    if Judgement(target, passedKey).Some? { assert JudgedAs(target, passedKey, Judgement(target, passedKey).value); }
  }

  /** The search returns a verdict-like dict and what that dict says, and comes back empty iff there is none. */
  lemma LocateExact(d: Json, resultKey: string, passedKey: string)
    ensures LocateVerdict(d, resultKey, passedKey, 0).None? <==> !exists target :: Verdictlike(d, target, resultKey, passedKey)
    ensures var found := LocateVerdict(d, resultKey, passedKey, 0);
            found.Some? ==> Verdictlike(d, found.value.verdict, resultKey, passedKey)
                            && JudgedAs(found.value.verdict, passedKey, found.value.passed)
  {
    if LocateVerdict(d, resultKey, passedKey, 0).Some? {
      var found := LocateVerdict(d, resultKey, passedKey, 0).value;
      LocateSound(d, resultKey, passedKey, 0);
      VerdictlikeMeans(d, found.verdict, resultKey, passedKey);
      JudgementMeans(found.verdict, passedKey, found.passed);
    } else {
      forall target ensures !Verdictlike(d, target, resultKey, passedKey) {
        VerdictlikeMeans(d, target, resultKey, passedKey);
        if Judgement(target, passedKey).Some? && InRange(d, target, MAX_DEPTH, resultKey) {
          InRangeIsDict(d, target, MAX_DEPTH, resultKey);
          LocateComplete(d, target, resultKey, passedKey, 0);
        }
      }
    }
  }

  ghost predicate FirstValueWithOne(d: Json, i: int, found: Found, resultKey: string, passedKey: string) {
    && d.Dict? && 0 <= i < |d.entries|
    && LocateVerdict(d.entries[i].1, resultKey, passedKey, 1) == Some(found)
    && forall j :: 0 <= j < i ==> LocateVerdict(d.entries[j].1, resultKey, passedKey, 1).None?
  }

  /** Among several judged dicts, the wrapped one beats the dict itself, which beats its values, of
      which the first that leads to one decides. */
  lemma LocatePriority(d: Json, resultKey: string, passedKey: string)
    requires LocateVerdict(d, resultKey, passedKey, 0).Some?
    ensures var found := LocateVerdict(d, resultKey, passedKey, 0).value;
            && (forall v, b :: HasEntry(d, resultKey, v) && JudgedAs(v, passedKey, b) ==> found == Found(v, b))
            && (!WrappedSays(d, resultKey, passedKey) ==> forall b :: JudgedAs(d, passedKey, b) ==> found == Found(d, b))
            && (!WrappedSays(d, resultKey, passedKey) && !(exists b :: JudgedAs(d, passedKey, b))
                ==> exists i :: FirstValueWithOne(d, i, found, resultKey, passedKey))
  {
    var wrapped, found := Get(d, resultKey), LocateVerdict(d, resultKey, passedKey, 0).value;
    forall v, b | HasEntry(d, resultKey, v) && JudgedAs(v, passedKey, b) ensures found == Found(v, b) {
      GetMeans(d, resultKey, v);
      JudgementMeans(v, passedKey, b);
    }
    if wrapped.Some? && Judgement(wrapped.value, passedKey).Some? {
      GetMeans(d, resultKey, wrapped.value);
      JudgementMeans(wrapped.value, passedKey, Judgement(wrapped.value, passedKey).value);
    } else {
      forall b ensures Judgement(d, passedKey) == Some(b) <==> JudgedAs(d, passedKey, b) { JudgementMeans(d, passedKey, b); }
      if Judgement(d, passedKey).None? {
        var i := FirstOfValues(d, 0, resultKey, passedKey);
        assert FirstValueWithOne(d, i, found, resultKey, passedKey);
      } else {
        assert JudgedAs(d, passedKey, Judgement(d, passedKey).value);
      }
    }
  }

  ghost predicate WrappedSays(d: Json, resultKey: string, passedKey: string) {
    exists v, b :: HasEntry(d, resultKey, v) && JudgedAs(v, passedKey, b)
  }

  lemma {:induction false} FirstOfValues(d: Json, from: nat, resultKey: string, passedKey: string) returns (i: nat)
    requires d.Dict? && from <= |d.entries| && LocateInValues(d, from, resultKey, passedKey, 0).Some?
    ensures from <= i < |d.entries|
    ensures LocateVerdict(d.entries[i].1, resultKey, passedKey, 1) == LocateInValues(d, from, resultKey, passedKey, 0)
    ensures forall j :: from <= j < i ==> LocateVerdict(d.entries[j].1, resultKey, passedKey, 1).None?
    decreases |d.entries| - from
  {
    i := from;
    if LocateVerdict(d.entries[from].1, resultKey, passedKey, 1).None? {
      i := FirstOfValues(d, from + 1, resultKey, passedKey);
    }
  }

  /** The same JSON with every list, at every depth, replaced by null. */
  function HideLists(d: Json): Json {
    match d
    case List(_) => Null
    case Dict(entries) => Dict(seq(|entries|, i requires 0 <= i < |entries| => (entries[i].0, HideLists(entries[i].1))))
    case _ => d
  }

  lemma {:induction false} HideListsLookup(d: Json, n: nat, key: string)
    requires d.Dict? && n <= |d.entries|
    ensures var was, now := Lookup(d.entries[n..], key), Lookup(HideLists(d).entries[n..], key);
            now == if was.Some? then Some(HideLists(was.value)) else None
    decreases |d.entries| - n
  {
    if n < |d.entries| {
      assert d.entries[n..][1..] == d.entries[n + 1..];
      assert HideLists(d).entries[n..][1..] == HideLists(d).entries[n + 1..];
      HideListsLookup(d, n + 1, key);
    }
  }

  /** A list is never recognised as a judgement, and neither is null. */
  lemma HideListsJudgement(d: Json, key: string)
    ensures Judgement(HideLists(d), key) == Judgement(d, key)
    ensures Get(HideLists(d), key) == if Get(d, key).Some? then Some(HideLists(Get(d, key).value)) else None
  {
    if d.Dict? {
      HideListsLookup(d, 0, key);
      assert d.entries[0..] == d.entries && HideLists(d).entries[0..] == HideLists(d).entries;
    }
  }

  function HideFound(found: Option<Found>): Option<Found> {
    if found.None? then None else Some(Found(HideLists(found.value.verdict), found.value.passed))
  }

  lemma {:induction false} HideListsInValues(d: Json, i: nat, resultKey: string, passedKey: string, depth: nat)
    requires d.Dict? && i <= |d.entries|
    ensures LocateInValues(HideLists(d), i, resultKey, passedKey, depth)
         == HideFound(LocateInValues(d, i, resultKey, passedKey, depth))
    decreases d, 0, |d.entries| - i
  {
    if i < |d.entries| {
      ListsAreNeverEntered(d.entries[i].1, resultKey, passedKey, depth + 1);
      HideListsInValues(d, i + 1, resultKey, passedKey, depth);
    }
  }

  /** A list hides whatever it holds: with all lists replaced by null the search finds the same verdict. */
  lemma {:induction false} ListsAreNeverEntered(d: Json, resultKey: string, passedKey: string, depth: nat)
    ensures LocateVerdict(HideLists(d), resultKey, passedKey, depth) == HideFound(LocateVerdict(d, resultKey, passedKey, depth))
    decreases d, 1, 0
  {
    if d.Dict? && depth <= MAX_DEPTH {
      HideListsJudgement(d, resultKey);
      HideListsJudgement(d, passedKey);
      if Get(d, resultKey).Some? { HideListsJudgement(Get(d, resultKey).value, passedKey); }
      HideListsInValues(d, 0, resultKey, passedKey, depth);
    }
  }

  // ------------------------------------------------------------ the whole output

  datatype Parsed = NoVerdict | Verdict(verdict: Json, passed: bool)

  /** `candidates` are the dicts gathered from the output, in order; the last one that holds a verdict
      counts. */
  method ParseForkVerdict(candidates: seq<Json>, resultKey: string, passedKey: string) returns (parsed: Parsed)
    ensures parsed == LastVerdict(candidates, resultKey, passedKey)
  {
    var i: nat := |candidates|;
    assert candidates[..|candidates|] == candidates;
    while i > 0
      invariant 0 <= i <= |candidates|
      invariant LastVerdict(candidates, resultKey, passedKey) == LastVerdict(candidates[..i], resultKey, passedKey)
    {
      i := i - 1;
      assert candidates[..i + 1][..i] == candidates[..i];
      var found := LocateVerdict(candidates[i], resultKey, passedKey, 0);
      if found.Some? { return Verdict(found.value.verdict, found.value.passed); }
    }
    return NoVerdict;
  }

  function LastVerdict(candidates: seq<Json>, resultKey: string, passedKey: string): Parsed {
    if candidates == [] then NoVerdict
    else
      var last := |candidates| - 1;
      var found := LocateVerdict(candidates[last], resultKey, passedKey, 0);
      if found.Some? then Verdict(found.value.verdict, found.value.passed)
      else LastVerdict(candidates[..last], resultKey, passedKey)
  }

  ghost predicate HoldsVerdict(d: Json, resultKey: string, passedKey: string) {
    exists target :: Verdictlike(d, target, resultKey, passedKey)
  }

  /** The verdict comes from the last candidate that holds one, and says what is answered. */
  lemma {:induction false} LastVerdictIsLast(candidates: seq<Json>, resultKey: string, passedKey: string)
    ensures LastVerdict(candidates, resultKey, passedKey).NoVerdict?
            <==> forall i :: 0 <= i < |candidates| ==> !HoldsVerdict(candidates[i], resultKey, passedKey)
    ensures var parsed := LastVerdict(candidates, resultKey, passedKey);
            parsed.Verdict? ==> exists k :: ChosenFrom(candidates, k, parsed, resultKey, passedKey)
  {
    if candidates != [] {
      var last := |candidates| - 1;
      var parsed := LastVerdict(candidates, resultKey, passedKey);
      LocateExact(candidates[last], resultKey, passedKey);
      if LocateVerdict(candidates[last], resultKey, passedKey, 0).Some? {
        assert HoldsVerdict(candidates[last], resultKey, passedKey);
        assert ChosenFrom(candidates, last, parsed, resultKey, passedKey);
      } else {
        LastVerdictIsLast(candidates[..last], resultKey, passedKey);
        if parsed.Verdict? {
          var k :| ChosenFrom(candidates[..last], k, parsed, resultKey, passedKey);
          assert ChosenFrom(candidates, k, parsed, resultKey, passedKey);
        }
      }
    }
  }

  ghost predicate ChosenFrom(candidates: seq<Json>, k: int, parsed: Parsed, resultKey: string, passedKey: string)
    requires parsed.Verdict?
  {
    && 0 <= k < |candidates|
    && Verdictlike(candidates[k], parsed.verdict, resultKey, passedKey) && JudgedAs(parsed.verdict, passedKey, parsed.passed)
    && forall j :: k < j < |candidates| ==> !HoldsVerdict(candidates[j], resultKey, passedKey)
  }

  /** validate_verdict_schema, on whatever was parsed. */
  predicate SchemaValid(parsed: Parsed, passedKey: string, required: seq<string>) {
    && parsed.Verdict?
    && Judgement(parsed.verdict, passedKey).Some?
    && forall i :: 0 <= i < |required| ==> Get(parsed.verdict, required[i]).Some?
  }

  /** A parsed verdict can only fail the schema for want of a required field, never for what it says. */
  lemma SchemaIgnoresOutcome(candidates: seq<Json>, resultKey: string, passedKey: string, required: seq<string>)
    ensures var parsed := LastVerdict(candidates, resultKey, passedKey);
            parsed.Verdict? ==>
              && JudgedAs(parsed.verdict, passedKey, parsed.passed)
              && (SchemaValid(parsed, passedKey, required) <==> forall key :: key in required ==> exists v :: HasEntry(parsed.verdict, key, v))
  {
    var parsed := LastVerdict(candidates, resultKey, passedKey);
    LastVerdictIsLast(candidates, resultKey, passedKey);
    if parsed.Verdict? {
      JudgementMeans(parsed.verdict, passedKey, parsed.passed);
      forall key ensures Get(parsed.verdict, key).Some? <==> exists v :: HasEntry(parsed.verdict, key, v) {
        forall v ensures Get(parsed.verdict, key) == Some(v) <==> HasEntry(parsed.verdict, key, v) { GetMeans(parsed.verdict, key, v); }
        if Get(parsed.verdict, key).Some? { assert HasEntry(parsed.verdict, key, Get(parsed.verdict, key).value); }
      }
      assert forall i :: 0 <= i < |required| ==> required[i] in required;
      assert forall key :: key in required ==> exists i :: 0 <= i < |required| && required[i] == key;
    }
  }
}
