/** When a writer can fail.  For every list of jobs and every tree: no schedule makes a writer
    fail exactly if the files fit each other and the tree, and every directory that is missing
    at the start lies above entries of one writer only. */
module WriterFailures {
  import opened Sequences
  import opened WriteOnce

  ghost predicate AllCompatible(jobs: Jobs, start: Tree) {
    forall w, k {:trigger jobs[w][k]} :: 0 <= w < |jobs| && 0 <= k < |jobs[w]| ==> Compatible(start, jobs[w][k])
  }

  ghost predicate AllFit(jobs: Jobs) {
    forall v, i, w, j {:trigger jobs[v][i], jobs[w][j]} ::
      0 <= v < |jobs| && 0 <= i < |jobs[v]| && 0 <= w < |jobs| && 0 <= j < |jobs[w]| ==> Fit(jobs[v][i], jobs[w][j])
  }

  /** A missing directory above entries of two writers. */
  ghost predicate SharedBy(jobs: Jobs, start: Tree, p: Path, v: nat, i: nat, w: nat, j: nat) {
    v != w && ParentOf(jobs, p, v, i) && ParentOf(jobs, p, w, j) && p !in start
  }

  ghost predicate SharedMissing(jobs: Jobs, start: Tree) {
    exists p, v, i, w, j :: SharedBy(jobs, start, p, v, i, w, j)
  }

  ghost predicate Peaceful(jobs: Jobs, start: Tree) {
    AllCompatible(jobs, start) && AllFit(jobs) && !SharedMissing(jobs, start)
  }

  ghost predicate NobodyFailed(s: State) { forall w :: 0 <= w < |s.phases| ==> !s.phases[w].Failed? }

  ghost predicate NeverFails(jobs: Jobs, start: Tree) { forall schedule :: NobodyFailed(Run(jobs, start, schedule)) }

  // ---- Peaceful writers never fail ----

  ghost predicate MissingBelow(tree: Tree, path: Path, d: nat) {
    forall e {:trigger path[..e]} :: d < e < |path| ==> path[..e] !in tree
  }

  /** The directories a writer found missing are still missing, until it makes them itself. */
  ghost predicate Calm(tree: Tree, items: seq<Item>, p: Phase) {
    && !p.Failed?
    && (p.Running() && p.k < |items| ==>
        var path := items[p.k].path;
        && (p.Climbing? || p.Descending? ==> (p.d == 0 || p.d < |path|) && MissingBelow(tree, path, p.d))
        && (p.Comparing? || p.Recomparing? ==> path in tree))
  }

  ghost predicate AllCalm(jobs: Jobs, s: State) {
    |s.phases| == |jobs| && forall w :: 0 <= w < |jobs| ==> Calm(s.tree, jobs[w], s.phases[w])
  }

  lemma NotAnEntry(jobs: Jobs, p: Path, w: nat, j: nat)
    requires AllFit(jobs) && ParentOf(jobs, p, w, j)
    ensures forall v, i :: 0 <= v < |jobs| && 0 <= i < |jobs[v]| ==> jobs[v][i].path != p
  {
    forall v, i | 0 <= v < |jobs| && 0 <= i < |jobs[v]| ensures jobs[v][i].path != p {
      assert Fit(jobs[v][i], jobs[w][j]);
      assert p < jobs[w][j].path;
    }
  }

  lemma NotAParent(jobs: Jobs, w: nat, j: nat)
    requires AllFit(jobs) && w < |jobs| && j < |jobs[w]|
    ensures forall v: nat, i: nat :: !ParentOf(jobs, jobs[w][j].path, v, i)
  {
    forall v: nat, i: nat ensures !ParentOf(jobs, jobs[w][j].path, v, i) {
      assert v < |jobs| && i < |jobs[v]| ==> Fit(jobs[w][j], jobs[v][i]);
    }
  }

  lemma NotShared(jobs: Jobs, start: Tree, p: Path, v: nat, w: nat, j: nat)
    requires !SharedMissing(jobs, start) && v != w && p !in start && ParentOf(jobs, p, w, j)
    ensures forall i: nat :: !ParentOf(jobs, p, v, i)
  {
    forall i: nat ensures !ParentOf(jobs, p, v, i) {
      assert !SharedBy(jobs, start, p, v, i, w, j);
    }
  }

  lemma ContentHolds(jobs: Jobs, start: Tree, s: State, w: nat, k: nat)
    requires Inv(jobs, start, s) && AllCompatible(jobs, start) && AllFit(jobs)
    requires w < |jobs| && k < |jobs[w]| && jobs[w][k].path in s.tree
    ensures Holds(s.tree, jobs[w][k])
  {
    var item := jobs[w][k];
    if item.path in start {
      assert Compatible(start, item);
    } else {
      assert Explained(jobs, s.tree, item.path);
      NotAParent(jobs, w, k);
      var v: nat, i: nat :| PublishedBy(jobs, s.tree, item.path, s.tree[item.path].content, v, i);
      assert Fit(jobs[v][i], item);
    }
  }

  lemma AncestorIsDirectory(jobs: Jobs, start: Tree, s: State, w: nat, k: nat, d: nat)
    requires Inv(jobs, start, s) && AllCompatible(jobs, start) && AllFit(jobs)
    requires w < |jobs| && k < |jobs[w]| && 0 < d < |jobs[w][k].path| && jobs[w][k].path[..d] in s.tree
    ensures s.tree[jobs[w][k].path[..d]].Directory?
  {
    var p := jobs[w][k].path[..d];
    if p in start {
      assert Compatible(start, jobs[w][k]);
    } else {
      assert Explained(jobs, s.tree, p);
      NotAnEntry(jobs, p, w, k);
    }
  }

  lemma ClimbCalm(tree: Tree, items: seq<Item>, p: Phase)
    requires p.Climbing? && p.k < |items| && Calm(tree, items, p)
    requires 0 < p.d && items[p.k].path[..p.d] in tree ==> tree[items[p.k].path[..p.d]].Directory?
    ensures Calm(tree, items, Advance(tree, items, p).1)
  {
  }

  lemma DescendCalm(tree: Tree, items: seq<Item>, p: Phase)
    requires p.Descending? && p.k < |items| && Calm(tree, items, p)
    ensures Calm(Advance(tree, items, p).0, items, Advance(tree, items, p).1)
  {
    if p.d + 1 < |items[p.k].path| { MadeOne(tree, items[p.k].path, p.d); }
  }

  lemma WriteCalm(tree: Tree, items: seq<Item>, p: Phase)
    requires !p.Climbing? && !p.Descending? && Calm(tree, items, p)
    requires p.Running() && p.k < |items| && items[p.k].path in tree ==> Holds(tree, items[p.k])
    ensures Calm(Advance(tree, items, p).0, items, Advance(tree, items, p).1)
  {
  }

  lemma OwnStepCalm(jobs: Jobs, start: Tree, s: State, w: nat)
    requires Inv(jobs, start, s) && AllCompatible(jobs, start) && AllFit(jobs)
    requires w < |jobs| && Calm(s.tree, jobs[w], s.phases[w])
    ensures var (tree, next) := Advance(s.tree, jobs[w], s.phases[w]); Calm(tree, jobs[w], next)
  {
    var p := s.phases[w];
    if p.Running() && p.k < |jobs[w]| {
      var path := jobs[w][p.k].path;
      if p.Climbing? {
        if 0 < p.d && path[..p.d] in s.tree { AncestorIsDirectory(jobs, start, s, w, p.k, p.d); }
        ClimbCalm(s.tree, jobs[w], p);
      } else if p.Descending? {
        DescendCalm(s.tree, jobs[w], p);
      } else {
        if path in s.tree { ContentHolds(jobs, start, s, w, p.k); }
        WriteCalm(s.tree, jobs[w], p);
      }
    }
  }

  lemma MadeOne(tree: Tree, path: Path, d: nat)
    requires d + 1 < |path| && MissingBelow(tree, path, d)
    ensures path[..d + 1] !in tree && MissingBelow(tree[path[..d + 1] := Directory], path, d + 1)
  {
    forall e {:trigger path[..e]} | d + 1 < e < |path| ensures path[..e] !in tree[path[..d + 1] := Directory] {
      assert |path[..e]| != |path[..d + 1]|;
    }
  }

  /** A step adds at most one path: a directory above the writer's entry, or the entry. */
  lemma Added(jobs: Jobs, tree: Tree, v: nat, p: Phase, q: Path)
    requires v < |jobs|
    ensures q !in tree && q in Advance(tree, jobs[v], p).0 ==>
      && p.Running() && p.k < |jobs[v]|
      && ((AboutToMake(jobs[v], p, q) && ParentOf(jobs, q, v, p.k)) || q == jobs[v][p.k].path)
  {
  }

  predicate AboutToMake(items: seq<Item>, p: Phase, q: Path) {
    p.Descending? && p.k < |items| && p.d + 1 < |items[p.k].path| && items[p.k].path[..p.d + 1] == q
  }

  /** Nobody else makes what a writer found missing. */
  lemma StaysMissing(jobs: Jobs, start: Tree, s: State, v: nat, w: nat, k: nat, e: nat)
    requires Inv(jobs, start, s) && Peaceful(jobs, start) && v < |jobs| && w < |jobs| && v != w
    requires k < |jobs[w]| && 0 < e < |jobs[w][k].path| && jobs[w][k].path[..e] !in s.tree
    ensures jobs[w][k].path[..e] !in Advance(s.tree, jobs[v], s.phases[v]).0
  {
    var q := jobs[w][k].path[..e];
    Added(jobs, s.tree, v, s.phases[v], q);
    NotShared(jobs, start, q, v, w, k);
    NotAnEntry(jobs, q, w, k);
  }

  lemma OtherStepCalm(jobs: Jobs, start: Tree, s: State, v: nat, w: nat)
    requires Inv(jobs, start, s) && Peaceful(jobs, start) && v < |jobs| && w < |jobs| && v != w
    requires Calm(s.tree, jobs[w], s.phases[w])
    ensures Calm(Advance(s.tree, jobs[v], s.phases[v]).0, jobs[w], s.phases[w])
  {
    var p, after := s.phases[w], Advance(s.tree, jobs[v], s.phases[v]).0;
    AdvanceKeeps(jobs, s.tree, v, s.phases[v]);
    if p.Running() && p.k < |jobs[w]| && (p.Climbing? || p.Descending?) {
      forall e {:trigger jobs[w][p.k].path[..e]} | p.d < e < |jobs[w][p.k].path| ensures jobs[w][p.k].path[..e] !in after {
        StaysMissing(jobs, start, s, v, w, p.k, e);
      }
    }
  }

  lemma ApplyCalm(jobs: Jobs, start: Tree, s: State, a: Action)
    requires Inv(jobs, start, s) && Peaceful(jobs, start) && AllCalm(jobs, s)
    ensures AllCalm(jobs, Apply(jobs, s, a))
  {
    var t := Apply(jobs, s, a);
    forall w | 0 <= w < |jobs| ensures Calm(t.tree, jobs[w], t.phases[w]) {
      assert Calm(s.tree, jobs[w], s.phases[w]);
      if a.Step? && a.writer < |jobs| {
        if w == a.writer { OwnStepCalm(jobs, start, s, w); } else { OtherStepCalm(jobs, start, s, a.writer, w); }
      }
    }
  }

  lemma {:induction false} PeacefulIsCalm(jobs: Jobs, start: Tree, schedule: seq<Action>)
    requires Peaceful(jobs, start)
    ensures AllCalm(jobs, Run(jobs, start, schedule))
  {
    if schedule != [] {
      var before := schedule[..|schedule| - 1];
      PeacefulIsCalm(jobs, start, before);
      RunKeeps(jobs, start, before);
      ApplyCalm(jobs, start, Run(jobs, start, before), schedule[|schedule| - 1]);
    }
  }

  lemma PeacefulNeverFails(jobs: Jobs, start: Tree)
    requires Peaceful(jobs, start)
    ensures NeverFails(jobs, start)
  {
    forall schedule ensures NobodyFailed(Run(jobs, start, schedule)) {
      PeacefulIsCalm(jobs, start, schedule);
    }
  }

  // ---- A writer left alone comes to an end ----

  function PhaseOf(jobs: Jobs, start: Tree, schedule: seq<Action>, w: nat): Phase {
    var s := Run(jobs, start, schedule);
    if w < |s.phases| then s.phases[w] else Failed
  }

  predicate Solo(actions: seq<Action>, w: nat) { forall a <- actions :: a.writer == w && !a.Crash? }

  /** What the writer does next when nothing stops it; it stages its content at once. */
  function NextAction(items: seq<Item>, w: nat, p: Phase): Action {
    if p.Staging? && p.k < |items| && |p.staged| < |items[p.k].content|
    then Flush(w, |items[p.k].content| - |p.staged|)
    else Step(w)
  }

  predicate Ended(p: Phase) { p.Done? || p.Failed? }

  function EntriesLeft(items: seq<Item>, p: Phase): nat {
    if !p.Running() then 0 else if p.k < |items| then 1 + |items| - p.k else 1
  }

  function StepsLeft(p: Phase): nat {
    match p
    case At(_) => 8
    case Climbing(_, _) => 7
    case Descending(_, _) => 6
    case Checking(_) => 5
    case Comparing(_) => 4
    case Staging(_, _) => 3
    case Linking(_, _) => 2
    case Recomparing(_) => 1
    case _ => 0
  }

  function RoundsLeft(items: seq<Item>, p: Phase): nat {
    if !p.Running() || p.k >= |items| then 0
    else
      match p
      case Climbing(_, d) => d
      case Descending(k, d) => if d < |items[k].path| then |items[k].path| - d else 0
      case Staging(k, staged) => if |staged| < |items[k].content| then |items[k].content| - |staged| else 0
      case _ => 0
  }

  /** Each step of a writer, on whatever tree, brings it nearer to its end. */
  predicate Nearer(items: seq<Item>, p: Phase, next: Phase) {
    || EntriesLeft(items, next) < EntriesLeft(items, p)
    || (EntriesLeft(items, next) == EntriesLeft(items, p)
        && (StepsLeft(next) < StepsLeft(p) || (StepsLeft(next) == StepsLeft(p) && RoundsLeft(items, next) < RoundsLeft(items, p))))
  }

  lemma AdvanceNearer(tree: Tree, items: seq<Item>, p: Phase)
    requires p.Running() && (p.Staging? && p.k < |items| ==> |p.staged| == |items[p.k].content|)
    ensures Nearer(items, p, Advance(tree, items, p).1) && !Advance(tree, items, p).1.Crashed?
  {
  }

  lemma RunMore(jobs: Jobs, start: Tree, schedule: seq<Action>, a: Action)
    ensures Run(jobs, start, schedule + [a]) == Apply(jobs, Run(jobs, start, schedule), a)
  {
    assert (schedule + [a])[..|schedule|] == schedule;
  }

  /** The writer's next action brings it nearer to its end. */
  lemma NextNearer(jobs: Jobs, start: Tree, schedule: seq<Action>, w: nat) returns (a: Action)
    requires w < |jobs| && PhaseOf(jobs, start, schedule, w).Running()
    ensures a.writer == w && !a.Crash? && !PhaseOf(jobs, start, schedule + [a], w).Crashed?
    ensures Nearer(jobs[w], PhaseOf(jobs, start, schedule, w), PhaseOf(jobs, start, schedule + [a], w))
  {
    var s := Run(jobs, start, schedule);
    RunKeeps(jobs, start, schedule);
    assert Reached(s.tree, jobs[w], s.phases[w]);
    a := NextAction(jobs[w], w, s.phases[w]);
    RunMore(jobs, start, schedule, a);
    if a.Step? { AdvanceNearer(s.tree, jobs[w], s.phases[w]); }
  }

  /** From every state of every run, a writer that has not crashed returns or fails when it is
      left alone. */
  lemma {:induction false} SoloEnds(jobs: Jobs, start: Tree, schedule: seq<Action>, w: nat) returns (more: seq<Action>)
    requires w < |jobs| && !PhaseOf(jobs, start, schedule, w).Crashed?
    ensures Solo(more, w) && Ended(PhaseOf(jobs, start, schedule + more, w))
    decreases EntriesLeft(jobs[w], PhaseOf(jobs, start, schedule, w)), StepsLeft(PhaseOf(jobs, start, schedule, w)),
              RoundsLeft(jobs[w], PhaseOf(jobs, start, schedule, w))
  {
    if PhaseOf(jobs, start, schedule, w).Running() {
      var a := NextNearer(jobs, start, schedule, w);
      var rest := SoloEnds(jobs, start, schedule + [a], w);
      more := [a] + rest;
      assert schedule + more == schedule + [a] + rest;
    } else {
      more := [];
      assert schedule + more == schedule;
    }
  }

  lemma {:induction false} SoloLeavesOthers(jobs: Jobs, start: Tree, schedule: seq<Action>, more: seq<Action>, w: nat, v: nat)
    requires Solo(more, w) && v != w
    ensures PhaseOf(jobs, start, schedule + more, v) == PhaseOf(jobs, start, schedule, v)
  {
    if more == [] {
      assert schedule + more == schedule;
    } else {
      var init, a := more[..|more| - 1], more[|more| - 1];
      assert schedule + more == schedule + init + [a] && a in more;
      SoloLeavesOthers(jobs, start, schedule, init, w, v);
      RunMore(jobs, start, schedule + init, a);
    }
  }

  // ---- A shared missing directory makes a writer fail ----

  lemma {:induction false} FirstMade(jobs: Jobs, start: Tree, schedule: seq<Action>, more: seq<Action>, p: Path) returns (n: nat)
    requires p !in Run(jobs, start, schedule).tree && p in Run(jobs, start, schedule + more).tree
    ensures n < |more| && p !in Run(jobs, start, schedule + more[..n]).tree
    ensures p in Run(jobs, start, schedule + more[..n + 1]).tree
    decreases |more|
  {
    assert schedule + [] == schedule;
    n := 0;
    if more != [] {
      var init := more[..|more| - 1];
      if p in Run(jobs, start, schedule + init).tree {
        n := FirstMade(jobs, start, schedule, init, p);
        assert init[..n] == more[..n] && init[..n + 1] == more[..n + 1];
      } else {
        n := |init|;
        assert more[..n + 1] == more;
      }
    }
  }

  /** The directories above a file that is in place are there. */
  lemma HeldHasParents(jobs: Jobs, start: Tree, schedule: seq<Action>, w: nat, j: nat, p: Path)
    requires TreeOk(start) && Named(jobs) && ParentOf(jobs, p, w, j) && PhaseOf(jobs, start, schedule, w).Done?
    ensures p in Run(jobs, start, schedule).tree
  {
    RunKeeps(jobs, start, schedule);
    RunRooted(jobs, start, schedule);
    var s := Run(jobs, start, schedule);
    assert Reached(s.tree, jobs[w], s.phases[w]);
    assert Holds(s.tree, jobs[w][j]);
    assert jobs[w][j].path[..|p|] in s.tree;
  }

  lemma EndHasParents(jobs: Jobs, start: Tree, schedule: seq<Action>, w: nat, j: nat, p: Path)
    requires TreeOk(start) && Named(jobs) && NeverFails(jobs, start)
    requires ParentOf(jobs, p, w, j) && Ended(PhaseOf(jobs, start, schedule, w))
    ensures p in Run(jobs, start, schedule).tree
  {
    RunKeeps(jobs, start, schedule);
    assert NobodyFailed(Run(jobs, start, schedule));
    HeldHasParents(jobs, start, schedule, w, j, p);
  }

  /** A writer can be stopped just before it makes a missing directory above one of its entries. */
  lemma StopBeforeMaking(jobs: Jobs, start: Tree, schedule: seq<Action>, w: nat, j: nat, p: Path) returns (more: seq<Action>)
    requires TreeOk(start) && Named(jobs) && AllFit(jobs) && NeverFails(jobs, start)
    requires ParentOf(jobs, p, w, j) && p !in Run(jobs, start, schedule).tree
    requires !PhaseOf(jobs, start, schedule, w).Crashed?
    ensures Solo(more, w) && p !in Run(jobs, start, schedule + more).tree
    ensures AboutToMake(jobs[w], PhaseOf(jobs, start, schedule + more, w), p)
  {
    var all := SoloEnds(jobs, start, schedule, w);
    EndHasParents(jobs, start, schedule + all, w, j, p);
    more := StopAtMaking(jobs, start, schedule, all, w, j, p);
  }

  lemma StopAtMaking(jobs: Jobs, start: Tree, schedule: seq<Action>, all: seq<Action>, w: nat, j: nat, p: Path)
      returns (more: seq<Action>)
    requires AllFit(jobs) && ParentOf(jobs, p, w, j) && Solo(all, w)
    requires p !in Run(jobs, start, schedule).tree && p in Run(jobs, start, schedule + all).tree
    ensures Solo(more, w) && p !in Run(jobs, start, schedule + more).tree
    ensures AboutToMake(jobs[w], PhaseOf(jobs, start, schedule + more, w), p)
  {
    var n := FirstMade(jobs, start, schedule, all, p);
    more := all[..n];
    SoloPrefix(all, n, w);
    assert schedule + all[..n + 1] == schedule + more + [all[n]];
    MadeByStep(jobs, start, schedule + more, w, j, p, all[n]);
  }

  lemma SoloPrefix(all: seq<Action>, n: nat, w: nat)
    requires Solo(all, w) && n < |all|
    ensures Solo(all[..n], w) && all[n].writer == w
  {
    assert all[n] in all;
  }

  lemma MadeByStep(jobs: Jobs, start: Tree, schedule: seq<Action>, w: nat, j: nat, p: Path, a: Action)
    requires AllFit(jobs) && ParentOf(jobs, p, w, j) && a.writer == w
    requires p !in Run(jobs, start, schedule).tree && p in Run(jobs, start, schedule + [a]).tree
    ensures AboutToMake(jobs[w], PhaseOf(jobs, start, schedule, w), p)
  {
    RunKeeps(jobs, start, schedule);
    RunMore(jobs, start, schedule, a);
    var s := Run(jobs, start, schedule);
    Added(jobs, s.tree, w, s.phases[w], p);
    NotAnEntry(jobs, p, w, j);
  }

  lemma SecondMakerFails(jobs: Jobs, start: Tree, schedule: seq<Action>, v: nat, w: nat, p: Path)
    requires v < |jobs| && w < |jobs| && v != w && p !in Run(jobs, start, schedule).tree
    requires AboutToMake(jobs[v], PhaseOf(jobs, start, schedule, v), p)
    requires AboutToMake(jobs[w], PhaseOf(jobs, start, schedule, w), p)
    ensures !NobodyFailed(Run(jobs, start, schedule + [Step(w)] + [Step(v)]))
  {
    RunKeeps(jobs, start, schedule);
    RunMore(jobs, start, schedule, Step(w));
    RunMore(jobs, start, schedule + [Step(w)], Step(v));
    var s := Run(jobs, start, schedule);
    var t := Apply(jobs, s, Step(w));
    assert p in t.tree && t.phases[v] == s.phases[v];
    assert Apply(jobs, t, Step(v)).phases[v].Failed?;
  }

  lemma StopBoth(jobs: Jobs, start: Tree, p: Path, v: nat, i: nat, w: nat, j: nat) returns (both: seq<Action>)
    requires TreeOk(start) && Named(jobs) && AllFit(jobs) && SharedBy(jobs, start, p, v, i, w, j) && NeverFails(jobs, start)
    ensures p !in Run(jobs, start, both).tree
    ensures AboutToMake(jobs[v], PhaseOf(jobs, start, both, v), p) && AboutToMake(jobs[w], PhaseOf(jobs, start, both, w), p)
  {
    assert Run(jobs, start, []) == Start(jobs, start);
    var first := StopBeforeMaking(jobs, start, [], v, i, p);
    SoloLeavesOthers(jobs, start, [], first, v, w);
    var second := StopBeforeMaking(jobs, start, [] + first, w, j, p);
    SoloLeavesOthers(jobs, start, [] + first, second, w, v);
    both := [] + first + second;
  }

  /** Both writers stop just before making the shared directory; then both go on. */
  lemma SharedDirectoryCanFail(jobs: Jobs, start: Tree, p: Path, v: nat, i: nat, w: nat, j: nat)
    requires TreeOk(start) && Named(jobs) && AllFit(jobs) && SharedBy(jobs, start, p, v, i, w, j)
    ensures !NeverFails(jobs, start)
  {
    if NeverFails(jobs, start) {
      var both := StopBoth(jobs, start, p, v, i, w, j);
      SecondMakerFails(jobs, start, both, v, w, p);
    }
  }

  // ---- Files that do not fit make a writer fail ----

  /** One writer after the other. */
  lemma {:induction false} OneAfterTheOther(jobs: Jobs, start: Tree, n: nat) returns (schedule: seq<Action>)
    requires n <= |jobs|
    ensures forall w :: 0 <= w < n ==> Ended(PhaseOf(jobs, start, schedule, w))
    ensures forall w :: n <= w < |jobs| ==> PhaseOf(jobs, start, schedule, w) == At(0)
  {
    if n == 0 {
      schedule := [];
    } else {
      var before := OneAfterTheOther(jobs, start, n - 1);
      var more := SoloEnds(jobs, start, before, n - 1);
      schedule := before + more;
      forall w | 0 <= w < |jobs| && w != n - 1 ensures PhaseOf(jobs, start, schedule, w) == PhaseOf(jobs, start, before, w) {
        SoloLeavesOthers(jobs, start, before, more, n - 1, w);
      }
    }
  }

  lemma PrefixIsSlice(a: Path, b: Path)
    ensures a < b ==> b[..|a|] == a
  {
  }

  lemma BothHeldFit(tree: Tree, a: Item, b: Item)
    requires TreeOk(tree) && Holds(tree, a) && Holds(tree, b) && a.path != []
    ensures Fit(a, b)
  {
    assert forall d :: 0 < d < |b.path| ==> b.path[..d] in tree && tree[b.path[..d]].Directory?;
    PrefixIsSlice(a.path, b.path);
  }

  lemma HeldIsCompatible(start: Tree, tree: Tree, item: Item)
    requires Extends(start, tree) && TreeOk(tree) && Holds(tree, item)
    ensures Compatible(start, item)
  {
    forall d | 0 < d < |item.path| && item.path[..d] in start ensures start[item.path[..d]].Directory? {
      assert item.path[..d] in tree;
    }
  }

  lemma NeverFailingFits(jobs: Jobs, start: Tree)
    requires TreeOk(start) && Named(jobs) && NeverFails(jobs, start)
    ensures AllCompatible(jobs, start) && AllFit(jobs)
  {
    var schedule := OneAfterTheOther(jobs, start, |jobs|);
    RunKeeps(jobs, start, schedule);
    RunRooted(jobs, start, schedule);
    var s := Run(jobs, start, schedule);
    assert NobodyFailed(s);
    forall w, k | 0 <= w < |jobs| && 0 <= k < |jobs[w]| ensures Holds(s.tree, jobs[w][k]) {
      assert Ended(PhaseOf(jobs, start, schedule, w)) && Reached(s.tree, jobs[w], s.phases[w]);
    }
    forall w, k {:trigger jobs[w][k]} | 0 <= w < |jobs| && 0 <= k < |jobs[w]| ensures Compatible(start, jobs[w][k]) {
      HeldIsCompatible(start, s.tree, jobs[w][k]);
    }
    forall v, i, w, j {:trigger jobs[v][i], jobs[w][j]} |
        0 <= v < |jobs| && 0 <= i < |jobs[v]| && 0 <= w < |jobs| && 0 <= j < |jobs[w]|
      ensures Fit(jobs[v][i], jobs[w][j])
    {
      BothHeldFit(s.tree, jobs[v][i], jobs[w][j]);
    }
  }

  /** No schedule makes a writer fail exactly if the files fit the tree and each other, and no
      missing directory is shared by two writers. */
  lemma NeverFailsExactly(jobs: Jobs, start: Tree)
    requires TreeOk(start) && Named(jobs)
    ensures NeverFails(jobs, start) <==> Peaceful(jobs, start)
  {
    if Peaceful(jobs, start) { PeacefulNeverFails(jobs, start); }
    if NeverFails(jobs, start) {
      NeverFailingFits(jobs, start);
      if SharedMissing(jobs, start) {
        var p, v, i, w, j :| SharedBy(jobs, start, p, v, i, w, j);
        SharedDirectoryCanFail(jobs, start, p, v, i, w, j);
      }
    }
  }
}
