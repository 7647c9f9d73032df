/** The deletion guard around the event ledger, and the gate on writing a ledger's root sentinel. Paths
    are resolved (no links), given by their parts. */
module LedgerGuard {
  import opened Prelude

  type Path = seq<string>

  /** What a sentinel file holds: bad JSON, bytes that do not decode, JSON that is no object, or an
      object with its canonical_path (None when that names no path). */
  datatype Text = Garbled | Undecodable | NotObject | Object(canonical: Option<Path>)

  datatype Node = Dir | File(text: Text)

  type Tree = map<Path, Node>

  const SENTINEL := ".ledger-root"
  const LEDGER := ".towow"
  const WHITELIST := {"tmp", "worktrees", "snapshots", "snapshots-archive", "staging", "skills", ".towow-backup"}

  predicate IsDir(tree: Tree, p: Path) { p in tree && tree[p].Dir? }

  predicate IsFile(tree: Tree, p: Path) { p in tree && tree[p].File? }

  function SentinelOf(dir: Path): Path { dir + [SENTINEL] }

  function Name(p: Path): string { if p == [] then "" else p[|p| - 1] }

  predicate EndsWithTmp(name: string) { |name| >= 4 && name[|name| - 4..] == ".tmp" }

  predicate HasWhitelisted(parts: seq<string>) {
    exists i | 0 <= i < |parts| :: parts[i] in WHITELIST
  }

  /** A readable sentinel that names the directory it lies in. */
  predicate TrueRoot(tree: Tree, dir: Path) {
    IsFile(tree, SentinelOf(dir)) && tree[SentinelOf(dir)].text == Object(Some(dir))
  }

  /** Directly holds an events.log file or an events directory. */
  predicate RootShaped(tree: Tree, dir: Path) {
    IsFile(tree, dir + ["events.log"]) || IsDir(tree, dir + ["events"])
  }

  // ------------------------------------------------------------ the guard's decisions

  /** A sentinel found while walking down: a true one, or one that cannot be proved to be a copy. */
  predicate Suspect(tree: Tree, dir: Path) {
    && IsFile(tree, SentinelOf(dir))
    && match tree[SentinelOf(dir)].text
       case Object(canonical) => canonical == Some(dir)
       case _ => true
  }

  predicate HasSuspect(tree: Tree, target: Path) {
    IsDir(tree, target) && exists dir | dir in Holders(tree) :: target <= dir && Suspect(tree, dir)
  }

  /** The directories that hold a file with the sentinel's name. */
  function Holders(tree: Tree): set<Path> {
    set p | p in tree && tree[p].File? && p != [] && p[|p| - 1] == SENTINEL :: p[..|p| - 1]
  }

  /** What the ancestor at depth k, going by its sentinel, says of deleting the target. */
  predicate AncestorForbids(tree: Tree, target: Path, k: nat)
    requires k < |target|
  {
    var ancestor := target[..k];
    var sentinel := SentinelOf(ancestor);
    && sentinel in tree
    && match tree[sentinel]
       case File(Object(canonical)) =>
         canonical == Some(ancestor) && !HasWhitelisted(target[k..]) && !EndsWithTmp(Name(target))
       case _ => true
  }

  predicate InsideLedger(tree: Tree, target: Path) {
    exists k: nat | k < |target| :: AncestorForbids(tree, target, k)
  }

  predicate Whitelisted(target: Path, tmpRoot: Path) {
    tmpRoot <= target || HasWhitelisted(target) || EndsWithTmp(Name(target))
  }

  predicate Explained(reason: Option<string>) {
    reason.Some? && exists i | 0 <= i < |reason.value| :: !IsBlank(reason.value[i])
  }

  predicate Allowed(tree: Tree, tmpRoot: Path, target: Path, force: bool, reason: Option<string>) {
    && !RootShaped(tree, target)
    && !HasSuspect(tree, target)
    && !InsideLedger(tree, target)
    && (Whitelisted(target, tmpRoot) || (force && Explained(reason)))
  }

  /** rmtree on an allowed directory; `reachable` is what the operating system lets it remove before it
      fails, everything when it does not fail. On anything but a directory it raises at once. */
  function Removed(tree: Tree, tmpRoot: Path, target: Path, force: bool, reason: Option<string>, reachable: set<Path>): set<Path> {
    if IsDir(tree, target) && Allowed(tree, tmpRoot, target, force, reason) then
      set p | p in tree && target <= p && p in reachable
    else {}
  }

  /** `start` or the nearest ancestor whose .towow is a true root. */
  function CanonicalAbove(tree: Tree, start: Path): (above: Option<Path>)
    ensures above.Some? ==> above.value != [] && above.value[..|above.value| - 1] <= start
  {
    if TrueRoot(tree, start + [LEDGER]) then
      assert (start + [LEDGER])[..|start|] == start;
      Some(start + [LEDGER])
    else if start == [] then None
    else CanonicalAbove(tree, start[..|start| - 1])
  }

  function GrandParent(p: Path): Path {
    if |p| < 2 then [] else p[..|p| - 2]
  }

  /** The root above which a sentinel at `root` would fork the ledger. */
  function BirthForkViolation(tree: Tree, tmpRoot: Path, root: Path): Option<Path> {
    if tmpRoot <= root then None
    else
      var above := CanonicalAbove(tree, GrandParent(root));
      if above.None? then None
      else if HasWhitelisted(root[|above.value| - 1..]) then None
      else above
  }

  datatype Written = Current | Rewritten | Forked(above: Path) | Failed

  function WriteOutcome(tree: Tree, tmpRoot: Path, root: Path): Written {
    var sentinel := SentinelOf(root);
    if TrueRoot(tree, root) then Current
    else if IsFile(tree, sentinel) && (tree[sentinel].text.Undecodable? || tree[sentinel].text.NotObject?) then Failed
    else
      var fork := BirthForkViolation(tree, tmpRoot, root);
      if fork.Some? then Forked(fork.value)
      else if !IsDir(tree, root) || IsDir(tree, sentinel) then Failed
      else Rewritten
  }

  function AfterWrite(tree: Tree, tmpRoot: Path, root: Path): Tree {
    if WriteOutcome(tree, tmpRoot, root).Rewritten? then tree[SentinelOf(root) := File(Object(Some(root)))] else tree
  }

  // ------------------------------------------------------------ the code, on a mutable tree

  datatype Answer = Done | Missing | Refused | NotADirectory

  class FileSystem {
    var tree: Tree
    const tmpRoot: Path

    constructor (tree: Tree, tmpRoot: Path)
      ensures this.tree == tree && this.tmpRoot == tmpRoot
    {
      this.tree, this.tmpRoot := tree, tmpRoot;
    }

    method RealSentinelHits(target: Path) returns (hits: set<Path>)
      ensures hits == if IsDir(tree, target) then set dir | dir in Holders(tree) && target <= dir && Suspect(tree, dir) else {}
    {
      hits := {};
      if !IsDir(tree, target) { return; }
      var todo := Holders(tree);
      while todo != {}
        invariant todo <= Holders(tree)
        invariant hits == set dir | dir in Holders(tree) - todo && target <= dir && Suspect(tree, dir)
        decreases |todo|
      {
        var dir :| dir in todo;
        todo := todo - {dir};
        if target <= dir && Suspect(tree, dir) { hits := hits + {dir}; }
      }
    }

    method LedgerAncestorViolation(target: Path) returns (violation: Option<Path>)
      ensures violation.Some? <==> InsideLedger(tree, target)
    {
      var k := |target|;
      while k > 0
        invariant 0 <= k <= |target|
        invariant forall j: nat :: k <= j < |target| ==> !AncestorForbids(tree, target, j)
      {
        k := k - 1;
        var ancestor := target[..k];
        var sentinel := SentinelOf(ancestor);
        if sentinel in tree {
          match tree[sentinel] {
            case File(Object(canonical)) =>
              if canonical == Some(ancestor) {
                if !HasWhitelisted(target[k..]) && !EndsWithTmp(Name(target)) {
                  assert AncestorForbids(tree, target, k);
                  return Some(sentinel);
                }
              }
            case _ =>
              assert AncestorForbids(tree, target, k);
              return Some(sentinel);
          }
        }
      }
      return None;
    }

    method AssertRmtreeSafe(target: Path, force: bool, reason: Option<string>) returns (ok: bool)
      ensures ok == Allowed(tree, tmpRoot, target, force, reason)
      ensures IsDir(tree, target) ==> (ok <==> MayGo(tree, tmpRoot, target, force, reason))
    {
      AllowedMeans(tree, tmpRoot, target, force, reason);
      if RootShaped(tree, target) { return false; }
      var hits := RealSentinelHits(target);
      if hits != {} {
        var hit :| hit in hits;
        return false;
      }
      if IsDir(tree, target) { SuspectIsHit(tree, target, hits); }
      var violation := LedgerAncestorViolation(target);
      if violation.Some? { return false; }
      return Whitelisted(target, tmpRoot) || (force && Explained(reason));
    }

    method SafeRmtree(target: Path, force: bool, reason: Option<string>, reachable: set<Path>) returns (answer: Answer)
      modifies this
      ensures tree == old(tree) - Removed(old(tree), tmpRoot, target, force, reason, reachable)
      ensures answer.Missing? == (target !in old(tree))
      ensures answer.Done? == (IsDir(old(tree), target) && Allowed(old(tree), tmpRoot, target, force, reason))
      ensures answer.Done? <==> MayGo(old(tree), tmpRoot, target, force, reason)
      ensures tree == if answer.Done? then old(tree) - (set p | p in old(tree) && target <= p && p in reachable) else old(tree)
    {
      AllowedMeans(tree, tmpRoot, target, force, reason);
      if target !in tree { return Missing; }
      var ok := AssertRmtreeSafe(target, force, reason);
      if !ok { return Refused; }
      if tree[target].File? { return NotADirectory; }
      tree := tree - (set p | p in tree && target <= p && p in reachable);
      return Done;
    }

    method WriteLedgerSentinel(root: Path) returns (written: Written)
      modifies this
      ensures written == WriteOutcome(old(tree), tmpRoot, root)
      ensures tree == AfterWrite(old(tree), tmpRoot, root)
    {
      var sentinel := SentinelOf(root);
      if sentinel in tree && tree[sentinel].File? {
        match tree[sentinel].text {
          case Object(canonical) => if canonical == Some(root) { return Current; }
          case Garbled =>
          case _ => return Failed;
        }
      }
      var fork := BirthForkViolation(tree, tmpRoot, root);
      if fork.Some? { return Forked(fork.value); }
      if root !in tree || tree[root].File? || (sentinel in tree && tree[sentinel].Dir?) { return Failed; }
      tree := tree[sentinel := File(Object(Some(root)))];
      return Rewritten;
    }
  }

  // ------------------------------------------------------------ what may be removed, read off the tree

  ghost predicate TemporaryName(segment: string) {
    segment in {"tmp", "worktrees", "snapshots", "snapshots-archive", "staging", "skills", ".towow-backup"}
  }

  ghost predicate TmpSuffix(name: string) {
    exists stem :: name == stem + ".tmp"
  }

  ghost predicate HoldsEvents(tree: Tree, dir: Path) {
    var log, events := dir + ["events.log"], dir + ["events"];
    (log in tree && tree[log] != Dir) || (events in tree && tree[events] == Dir)
  }

  /** A sentinel file in the directory, which is no copy of another directory's. */
  ghost predicate MarkedAsRoot(tree: Tree, dir: Path) {
    var sentinel := dir + [".ledger-root"];
    sentinel in tree && tree[sentinel] != Dir && (tree[sentinel].text.Object? ==> tree[sentinel].text.canonical == Some(dir))
  }

  /** The k-th ancestor has a sentinel that is not its own readable one, or has it with nothing temporary
      on the way to the target. */
  ghost predicate AncestorHolds(tree: Tree, target: Path, k: nat) {
    && k < |target|
    && var ancestor := target[..k];
       var sentinel := ancestor + [".ledger-root"];
       && sentinel in tree
       && (tree[sentinel] != Dir && tree[sentinel].text.Object? ==>
             && tree[sentinel].text.canonical == Some(ancestor)
             && (forall i :: k <= i < |target| ==> !TemporaryName(target[i])) && !TmpSuffix(target[|target| - 1]))
  }

  ghost predicate Justified(tmpRoot: Path, target: Path, force: bool, reason: Option<string>) {
    || tmpRoot <= target
    || (exists i :: 0 <= i < |target| && TemporaryName(target[i]))
    || (target != [] && TmpSuffix(target[|target| - 1]))
    || (force && reason.Some? && exists i :: 0 <= i < |reason.value| && reason.value[i] !in BLANKS)
  }

  /** A directory that neither looks like a ledger, nor holds one, nor lies in one, and whose removal is
      justified by where it lies or by a reason given. */
  ghost predicate MayGo(tree: Tree, tmpRoot: Path, target: Path, force: bool, reason: Option<string>) {
    && target in tree && tree[target] == Dir
    && !HoldsEvents(tree, target)
    && (forall dir: Path :: target <= dir ==> !MarkedAsRoot(tree, dir))
    && (forall k: nat :: !AncestorHolds(tree, target, k))
    && Justified(tmpRoot, target, force, reason)
  }

  lemma TmpMeans(name: string)
    ensures EndsWithTmp(name) <==> TmpSuffix(name)
  {
    if EndsWithTmp(name) { assert name == name[..|name| - 4] + ".tmp"; }
  }

  lemma SuspectMeans(tree: Tree, target: Path)
    requires IsDir(tree, target)
    ensures HasSuspect(tree, target) <==> exists dir: Path :: target <= dir && MarkedAsRoot(tree, dir)
  {
    forall dir: Path ensures MarkedAsRoot(tree, dir) <==> dir in Holders(tree) && Suspect(tree, dir) {
      assert SentinelOf(dir)[..|dir|] == dir;
    }
  }

  lemma InsideMeans(tree: Tree, target: Path)
    ensures InsideLedger(tree, target) <==> exists k: nat :: AncestorHolds(tree, target, k)
  {
    forall k: nat | k < |target| ensures AncestorForbids(tree, target, k) <==> AncestorHolds(tree, target, k) {
      TmpMeans(Name(target));
      TemporaryBelow(target, k);
    }
  }

  lemma TemporaryBelow(target: Path, k: nat)
    requires k <= |target|
    ensures HasWhitelisted(target[k..]) <==> exists i :: k <= i < |target| && TemporaryName(target[i])
  {
    if i :| k <= i < |target| && TemporaryName(target[i]) { assert target[k..][i - k] == target[i]; }
  }

  lemma AllowedMeans(tree: Tree, tmpRoot: Path, target: Path, force: bool, reason: Option<string>)
    ensures IsDir(tree, target) && Allowed(tree, tmpRoot, target, force, reason) <==> MayGo(tree, tmpRoot, target, force, reason)
  {
    if IsDir(tree, target) {
      SuspectMeans(tree, target);
      InsideMeans(tree, target);
      TmpMeans(Name(target));
      TemporaryBelow(target, 0);
      assert target[0..] == target;
      if reason.Some? {
        forall i | 0 <= i < |reason.value| ensures IsBlank(reason.value[i]) <==> reason.value[i] in BLANKS { BlankMeans(reason.value[i]); }
      }
    }
  }

  lemma SuspectIsHit(tree: Tree, target: Path, hits: set<Path>)
    requires hits == set dir | dir in Holders(tree) && target <= dir && Suspect(tree, dir)
    ensures HasSuspect(tree, target) ==> hits != {}
  {
    if HasSuspect(tree, target) {
      var dir :| dir in Holders(tree) && target <= dir && Suspect(tree, dir);
      assert dir in hits;
    }
  }

  // ------------------------------------------------------------ what no run of deletions can remove

  datatype Op =
    | Rmtree(target: Path, force: bool, reason: Option<string>, reachable: set<Path>)
    | WriteSentinel(root: Path)
    | Create(path: Path, node: Node)

  function Step(tree: Tree, tmpRoot: Path, op: Op): Tree {
    match op
    case Rmtree(target, force, reason, reachable) => tree - Removed(tree, tmpRoot, target, force, reason, reachable)
    case WriteSentinel(root) => AfterWrite(tree, tmpRoot, root)
    case Create(path, node) => if path in tree then tree else tree[path := node]
  }

  function Run(tree: Tree, tmpRoot: Path, ops: seq<Op>): Tree {
    if ops == [] then tree
    else Step(Run(tree, tmpRoot, ops[..|ops| - 1]), tmpRoot, ops[|ops| - 1])
  }

  /** Some directory between the root and the file carries a whitelisted name, or one ending in .tmp. */
  predicate Exempt(root: Path, file: Path)
    requires root <= file
  {
    exists k | |root| <= k < |file| - 1 :: file[k] in WHITELIST || EndsWithTmp(file[k])
  }

  /** One call removes no file of a true ledger but an exempt one. */
  lemma StepKeepsLedger(tree: Tree, tmpRoot: Path, root: Path, file: Path, op: Op)
    requires TrueRoot(tree, root) && root < file && IsFile(tree, file) && !Exempt(root, file)
    ensures IsFile(Step(tree, tmpRoot, op), file)
  {
    if op.Rmtree? && op.target <= file && IsDir(tree, op.target) {
      PrefixesCompare(root, op.target, file);
      if op.target <= root {
        AboveIsSuspect(tree, root, op.target);
      } else {
        ProperPrefix(op.target, file);
        InsideIsForbidden(tree, root, op.target, file);
      }
    }
  }

  lemma PrefixesCompare(a: Path, b: Path, c: Path)
    requires a <= c && b <= c
    ensures a <= b || b <= a
  {
    if |a| <= |b| { assert a == b[..|a|]; } else { assert b == a[..|b|]; }
  }

  lemma ProperPrefix(a: Path, b: Path)
    requires a <= b && a != b
    ensures a < b
  {
  }

  lemma AboveIsSuspect(tree: Tree, root: Path, target: Path)
    requires TrueRoot(tree, root) && target <= root && IsDir(tree, target)
    ensures HasSuspect(tree, target)
  {
    assert SentinelOf(root)[..|root|] == root;
    assert root in Holders(tree);
  }

  lemma InsideIsForbidden(tree: Tree, root: Path, target: Path, file: Path)
    requires TrueRoot(tree, root) && root < target < file && !Exempt(root, file)
    ensures InsideLedger(tree, target)
  {
    assert target[..|root|] == root;
    forall i | 0 <= i < |target[|root|..]| ensures target[|root|..][i] !in WHITELIST {
      assert target[|root|..][i] == file[|root| + i];
    }
    assert Name(target) == file[|target| - 1];
    assert AncestorForbids(tree, target, |root|);
  }

  lemma StepKeepsTrueRoot(tree: Tree, tmpRoot: Path, root: Path, op: Op)
    requires TrueRoot(tree, root)
    ensures TrueRoot(Step(tree, tmpRoot, op), root)
  {
    StepKeepsLedger(tree, tmpRoot, root, SentinelOf(root), op);
    if op.WriteSentinel? && op.root != root {
      assert SentinelOf(op.root)[..|op.root|] == op.root;
      assert SentinelOf(root)[..|root|] == root;
      assert SentinelOf(op.root) != SentinelOf(root);
    }
  }

  /** Over any run of deletions with any force and reason, births and creations, a true ledger stays a
      true ledger and keeps every file that no exempting directory leads to. */
  lemma {:induction false} LedgerSurvivesEveryRun(tree: Tree, tmpRoot: Path, root: Path, file: Path, ops: seq<Op>)
    requires TrueRoot(tree, root) && root < file && IsFile(tree, file) && !Exempt(root, file)
    ensures TrueRoot(Run(tree, tmpRoot, ops), root) && IsFile(Run(tree, tmpRoot, ops), file)
  {
    if ops != [] {
      var before := Run(tree, tmpRoot, ops[..|ops| - 1]);
      LedgerSurvivesEveryRun(tree, tmpRoot, root, file, ops[..|ops| - 1]);
      StepKeepsTrueRoot(before, tmpRoot, root, ops[|ops| - 1]);
      StepKeepsLedger(before, tmpRoot, root, file, ops[|ops| - 1]);
    }
  }

  /** The root is the only sentinel on the way to or below it, and nothing below it looks like a root. */
  ghost predicate Lone(tree: Tree, root: Path) {
    && TrueRoot(tree, root)
    && (forall dir: Path :: SentinelOf(dir) in tree && (dir <= root || root <= dir) ==> dir == root)
    && (forall dir: Path :: root < dir ==> !RootShaped(tree, dir))
  }

  ghost predicate Deletable(tree: Tree, tmpRoot: Path, file: Path) {
    exists target: Path, force, reason :: target <= file && file in Removed(tree, tmpRoot, target, force, reason, {file})
  }

  /** The exemption is exact: in a lone ledger, one call can delete a file iff it is exempt. */
  lemma DeletableIffExempt(tree: Tree, tmpRoot: Path, root: Path, file: Path)
    requires Lone(tree, root) && root < file && IsFile(tree, file)
    requires forall k :: |root| <= k < |file| ==> IsDir(tree, file[..k])
    ensures Deletable(tree, tmpRoot, file) <==> Exempt(root, file)
  {
    if Exempt(root, file) {
      var k :| |root| <= k < |file| - 1 && (file[k] in WHITELIST || EndsWithTmp(file[k]));
      ExemptTargetAllowed(tree, tmpRoot, root, file, k);
      assert file in Removed(tree, tmpRoot, file[..k + 1], false, None, {file});
    } else {
      forall target: Path, force, reason | target <= file
        ensures file !in Removed(tree, tmpRoot, target, force, reason, {file})
      {
        StepKeepsLedger(tree, tmpRoot, root, file, Rmtree(target, force, reason, {file}));
      }
    }
  }

  lemma ExemptTargetAllowed(tree: Tree, tmpRoot: Path, root: Path, file: Path, k: nat)
    requires Lone(tree, root) && root < file
    requires |root| <= k < |file| - 1 && (file[k] in WHITELIST || EndsWithTmp(file[k]))
    ensures Allowed(tree, tmpRoot, file[..k + 1], false, None)
  {
    var target := file[..k + 1];
    assert root < target && target[k] == file[k] && Name(target) == file[k];
    forall dir | dir in Holders(tree) && target <= dir ensures !Suspect(tree, dir) {
      assert root <= dir && dir != root;
    }
    forall j: nat | j < |target| ensures !AncestorForbids(tree, target, j) {
      assert target[..j] <= root || root <= target[..j];
      if j == |root| { assert target[j..][k - j] == file[k]; }
    }
    if file[k] in WHITELIST { assert HasWhitelisted(target); }
  }

  // ------------------------------------------------------------ births and forks

  /** `outer` and `inner` are both true roots, the inner one lying, outside system-tmp and every
      whitelisted segment, below the project directory whose .towow is the outer one. */
  ghost predicate Fork(tree: Tree, tmpRoot: Path, project: Path, inner: Path) {
    && TrueRoot(tree, project + [".towow"]) && TrueRoot(tree, inner) && inner != project + [".towow"]
    && Shadows(tmpRoot, project, inner)
  }

  ghost predicate Shadows(tmpRoot: Path, project: Path, inner: Path) {
    && project <= inner && (project == [] || |project| + 2 <= |inner|)
    && !(tmpRoot <= inner)
    && forall i :: |project| <= i < |inner| ==> !TemporaryName(inner[i])
  }

  ghost predicate ForkFree(tree: Tree, tmpRoot: Path) {
    forall project: Path, inner: Path :: !Fork(tree, tmpRoot, project, inner)
  }

  lemma {:induction false} CanonicalAboveIsTrue(tree: Tree, start: Path)
    ensures var above := CanonicalAbove(tree, start);
            above.Some? ==> TrueRoot(tree, above.value) && above.value[|above.value| - 1] == LEDGER
  {
    if !TrueRoot(tree, start + [LEDGER]) && start != [] { CanonicalAboveIsTrue(tree, start[..|start| - 1]); }
  }

  lemma {:induction false} CanonicalAboveIsNearest(tree: Tree, start: Path, project: Path)
    requires project <= start && TrueRoot(tree, project + [LEDGER])
    ensures CanonicalAbove(tree, start).Some? && |project| < |CanonicalAbove(tree, start).value|
    decreases |start|
  {
    if |project| == |start| {
      assert project == start;
    } else {
      assert project <= start[..|start| - 1];
      CanonicalAboveIsNearest(tree, start[..|start| - 1], project);
    }
  }

  ghost predicate WouldFork(tree: Tree, tmpRoot: Path, project: Path, root: Path) {
    TrueRoot(tree, project + [".towow"]) && Shadows(tmpRoot, project, root)
  }

  lemma GateRefuses(tree: Tree, tmpRoot: Path, project: Path, root: Path)
    requires WouldFork(tree, tmpRoot, project, root)
    ensures BirthForkViolation(tree, tmpRoot, root).Some?
  {
    var start := GrandParent(root);
    PrefixesCompare(project, start, root);
    CanonicalAboveIsNearest(tree, start, project);
    var from := |CanonicalAbove(tree, start).value| - 1;
    assert !HasWhitelisted(root[from..]) by { TemporaryBelow(root, from); }
  }

  lemma GateFinds(tree: Tree, tmpRoot: Path, root: Path) returns (project: Path)
    requires BirthForkViolation(tree, tmpRoot, root).Some?
    ensures WouldFork(tree, tmpRoot, project, root)
  {
    var start := GrandParent(root);
    CanonicalAboveIsTrue(tree, start);
    var above := CanonicalAbove(tree, start).value;
    project := above[..|above| - 1];
    assert project + [LEDGER] == above;
    TemporaryBelow(root, |project|);
  }

  /** The gate, which asks only the nearest canonical root above, refuses exactly when some canonical
      root above would be forked. */
  lemma GateIsExact(tree: Tree, tmpRoot: Path, root: Path)
    ensures BirthForkViolation(tree, tmpRoot, root).Some? <==> exists project :: WouldFork(tree, tmpRoot, project, root)
  {
    if project :| WouldFork(tree, tmpRoot, project, root) { GateRefuses(tree, tmpRoot, project, root); }
    if BirthForkViolation(tree, tmpRoot, root).Some? { var project := GateFinds(tree, tmpRoot, root); }
  }

  /** A birth keeps the tree free of forks iff the new root does not itself lie above an older one; the
      gate, which only looks upward, does not ask. */
  lemma BirthKeepsForkFreeIff(tree: Tree, tmpRoot: Path, root: Path)
    requires ForkFree(tree, tmpRoot) && WriteOutcome(tree, tmpRoot, root).Rewritten?
    ensures ForkFree(AfterWrite(tree, tmpRoot, root), tmpRoot)
            <==> !exists project: Path, older: Path ::
                   root == project + [LEDGER] && TrueRoot(tree, older) && Shadows(tmpRoot, project, older)
  {
    var tree' := AfterWrite(tree, tmpRoot, root);
    GateIsExact(tree, tmpRoot, root);
    forall dir: Path ensures TrueRoot(tree', dir) <==> TrueRoot(tree, dir) || dir == root {
      assert SentinelOf(dir)[..|dir|] == dir && SentinelOf(root)[..|root|] == root;
    }
    if project: Path, older: Path :| root == project + [LEDGER] && TrueRoot(tree, older) && Shadows(tmpRoot, project, older) {
      assert Fork(tree', tmpRoot, project, older);
    } else {
      forall project: Path, inner: Path ensures !Fork(tree', tmpRoot, project, inner) {
        assert !Fork(tree, tmpRoot, project, inner);
        assert !WouldFork(tree, tmpRoot, project, root);
        assert !(root == project + [LEDGER] && TrueRoot(tree, inner) && Shadows(tmpRoot, project, inner));
      }
    }
  }

  /** The family that slips through: with no ledger born yet, bearing the inner of two shadowing roots
      first and the outer one second is never refused, and leaves a fork. */
  lemma OuterBornLaterForks(tree: Tree, tmpRoot: Path, project: Path, inner: Path)
    requires forall dir: Path :: SentinelOf(dir) !in tree
    requires Shadows(tmpRoot, project, inner) && inner != project + [LEDGER]
    requires IsDir(tree, inner) && IsDir(tree, project + [LEDGER])
    ensures ForkFree(tree, tmpRoot)
    ensures Fork(Run(tree, tmpRoot, Births(inner, project + [LEDGER])), tmpRoot, project, inner)
  {
    var outer := project + [LEDGER];
    var one := AfterWrite(tree, tmpRoot, inner);
    BirthsRun(tree, tmpRoot, inner, outer);
    GateIsExact(tree, tmpRoot, inner);
    assert forall dir: Path :: !TrueRoot(tree, dir);
    BornRoots(tree, tmpRoot, inner);
    forall other: Path ensures !WouldFork(one, tmpRoot, other, outer) {
      assert TrueRoot(one, other + [LEDGER]) ==> |other| + 1 == |inner|;
    }
    GateIsExact(one, tmpRoot, outer);
    BornRoots(one, tmpRoot, outer);
  }

  function Births(first: Path, second: Path): seq<Op> {
    [WriteSentinel(first)] + [WriteSentinel(second)]
  }

  lemma BirthsRun(tree: Tree, tmpRoot: Path, first: Path, second: Path)
    ensures Run(tree, tmpRoot, Births(first, second)) == AfterWrite(AfterWrite(tree, tmpRoot, first), tmpRoot, second)
  {
    var one := [WriteSentinel(first)];
    assert one[..0] == [] && Births(first, second)[..1] == one;
    assert Run(tree, tmpRoot, one) == AfterWrite(tree, tmpRoot, first);
  }

  lemma BornRoots(tree: Tree, tmpRoot: Path, root: Path)
    requires IsDir(tree, root) && SentinelOf(root) !in tree && BirthForkViolation(tree, tmpRoot, root).None?
    ensures forall dir: Path :: TrueRoot(AfterWrite(tree, tmpRoot, root), dir) <==> TrueRoot(tree, dir) || dir == root
    ensures forall dir: Path :: IsDir(tree, dir) ==> IsDir(AfterWrite(tree, tmpRoot, root), dir)
    ensures forall dir: Path :: dir != root && SentinelOf(dir) !in tree ==> SentinelOf(dir) !in AfterWrite(tree, tmpRoot, root)
  {
    forall dir: Path ensures SentinelOf(dir) == SentinelOf(root) ==> dir == root {
      assert SentinelOf(dir)[..|dir|] == dir && SentinelOf(root)[..|root|] == root;
    }
  }
}
