/** Write-once publication: check, stage, sync, link if absent, compare.  Any number of
    writers run the protocol over one directory tree, each with its own list of files;
    between any two steps a writer may be overtaken or crash.  Starting again after a crash
    is one more writer with the same list. */
module WriteOnce {
  import opened Sequences

  datatype Node = Directory | File(content: Bytes)
  type Tree = map<Path, Node>

  datatype Item = Item(path: Path, content: Bytes)

  /** Where a writer stands in its list. */
  datatype Phase =
    | At(k: nat)                    // about to handle entry k
    | Climbing(k: nat, d: nat)      // looking for the nearest existing ancestor
    | Descending(k: nat, d: nat)    // creating the missing directories, top down
    | Checking(k: nat)
    | Comparing(k: nat)
    | Staging(k: nat, staged: Bytes) // what the staged file holds so far
    | Linking(k: nat, staged: Bytes)
    | Recomparing(k: nat)           // the link found the name taken
    | Done
    | Failed
    | Crashed
  {
    predicate Running() { !Done? && !Failed? && !Crashed? }
  }

  datatype State = State(tree: Tree, phases: seq<Phase>)

  datatype Action = Step(writer: nat) | Flush(writer: nat, bytes: nat) | Crash(writer: nat)

  type Jobs = seq<seq<Item>>

  predicate Holds(tree: Tree, item: Item) {
    item.path in tree && tree[item.path] == File(item.content)
  }

  predicate ParentsUsable(tree: Tree, p: Path) {
    forall d :: 0 < d < |p| && p[..d] in tree ==> tree[p[..d]].Directory?
  }

  /** The tree lets the file be put in its place, or holds it already. */
  predicate Compatible(tree: Tree, item: Item) {
    ParentsUsable(tree, item.path) && (item.path in tree ==> Holds(tree, item))
  }

  /** The two files agree where they meet, and the first is not in the way of the second. */
  predicate Fit(a: Item, b: Item) {
    (a.path == b.path ==> a.content == b.content) && !(a.path < b.path)
  }

  function AfterClimb(tree: Tree, item: Item, k: nat, d: nat): Phase {
    if d == 0 || d > |item.path| then Descending(k, 0)
    else if item.path[..d] !in tree then Climbing(k, d - 1)
    else if tree[item.path[..d]].Directory? then Descending(k, d)
    else Failed
  }

  /** The writer's next step: the new tree and where the writer then stands. */
  function Advance(tree: Tree, items: seq<Item>, p: Phase): (Tree, Phase) {
    if p.Running() && p.k >= |items| then (tree, Done)
    else
      match p
      case At(k) => (tree, Climbing(k, if items[k].path == [] then 0 else |items[k].path| - 1))
      case Climbing(k, d) => (tree, AfterClimb(tree, items[k], k, d))
      case Descending(k, d) =>
        if d + 1 >= |items[k].path| then (tree, Checking(k))
        else if items[k].path[..d + 1] in tree then (tree, Failed)     // mkdir(exist_ok=False)
        else (tree[items[k].path[..d + 1] := Directory], Descending(k, d + 1))
      case Checking(k) => (tree, if items[k].path in tree then Comparing(k) else Staging(k, []))
      case Comparing(k) => (tree, if Holds(tree, items[k]) then At(k + 1) else Failed)
      case Staging(k, staged) => (tree, if |staged| == |items[k].content| then Linking(k, staged) else p)
      case Linking(k, staged) =>
        if items[k].path in tree then (tree, Recomparing(k))
        else (tree[items[k].path := File(staged)], At(k + 1))
      case Recomparing(k) => (tree, if Holds(tree, items[k]) then At(k + 1) else Failed)
      case _ => (tree, p)
  }

  function Apply(jobs: Jobs, s: State, a: Action): State {
    if a.writer >= |jobs| || a.writer >= |s.phases| then s
    else
      var p := s.phases[a.writer];
      match a
      case Step(w) =>
        var (tree, next) := Advance(s.tree, jobs[w], p);
        State(tree, s.phases[w := next])
      case Flush(w, bytes) =>
        if p.Staging? && p.k < |jobs[w]| && |p.staged| + bytes <= |jobs[w][p.k].content|
        then
          var more := jobs[w][p.k].content[|p.staged|..|p.staged| + bytes];
          s.(phases := s.phases[w := Staging(p.k, p.staged + more)])
        else s
      case Crash(w) => if p.Running() then s.(phases := s.phases[w := Crashed]) else s
  }

  function Start(jobs: Jobs, tree: Tree): State {
    State(tree, seq(|jobs|, _ => At(0)))
  }

  function Run(jobs: Jobs, tree: Tree, schedule: seq<Action>): State {
    if schedule == [] then Start(jobs, tree)
    else Apply(jobs, Run(jobs, tree, schedule[..|schedule| - 1]), schedule[|schedule| - 1])
  }

  // ---- What every step keeps ----

  /** Nothing disappears and nothing changes. */
  ghost predicate Extends(before: Tree, after: Tree) {
    forall p :: p in before ==> p in after && after[p] == before[p]
  }

  /** The first `n` files of a list are in place with exactly their content. */
  ghost predicate HoldsFirst(tree: Tree, items: seq<Item>, n: nat) {
    n <= |items| && forall j :: 0 <= j < n ==> Holds(tree, items[j])
  }

  /** Entry `k` of writer `w` is this file, and everything before it is already in place. */
  ghost predicate PublishedBy(jobs: Jobs, tree: Tree, p: Path, content: Bytes, w: nat, k: nat) {
    && w < |jobs| && k < |jobs[w]|
    && jobs[w][k] == Item(p, content)
    && HoldsFirst(tree, jobs[w], k)
  }

  ghost predicate ParentOf(jobs: Jobs, p: Path, w: nat, k: nat) {
    w < |jobs| && k < |jobs[w]| && 0 < |p| < |jobs[w][k].path| && jobs[w][k].path[..|p|] == p
  }

  /** A path that was not there at the start is a directory above some entry, or a whole
      file some writer published after everything listed before it. */
  ghost predicate Explained(jobs: Jobs, tree: Tree, p: Path)
    requires p in tree
  {
    match tree[p]
    case Directory => exists w, k :: ParentOf(jobs, p, w, k)
    case File(content) => exists w, k :: PublishedBy(jobs, tree, p, content, w, k)
  }

  ghost predicate Reached(tree: Tree, items: seq<Item>, p: Phase) {
    && (p.Done? ==> HoldsFirst(tree, items, |items|))
    && (p.Running() ==> HoldsFirst(tree, items, p.k))
    && (p.Staging? && p.k < |items| ==> p.staged <= items[p.k].content)
    && (p.Linking? && p.k < |items| ==> p.staged == items[p.k].content)
  }

  ghost predicate Inv(jobs: Jobs, start: Tree, s: State) {
    && |s.phases| == |jobs|
    && Extends(start, s.tree)
    && (forall w :: 0 <= w < |jobs| ==> Reached(s.tree, jobs[w], s.phases[w]))
    && (forall p :: p in s.tree && p !in start ==> Explained(jobs, s.tree, p))
  }

  lemma HoldsFirstStays(before: Tree, after: Tree, items: seq<Item>, n: nat)
    requires Extends(before, after) && HoldsFirst(before, items, n)
    ensures HoldsFirst(after, items, n)
  {
    forall j | 0 <= j < n ensures Holds(after, items[j]) {
      assert Holds(before, items[j]);
    }
  }

  lemma ExplainedStays(jobs: Jobs, before: Tree, after: Tree, p: Path)
    requires Extends(before, after) && p in before && Explained(jobs, before, p)
    ensures p in after && Explained(jobs, after, p)
  {
    if before[p].File? {
      var w: nat, k: nat :| PublishedBy(jobs, before, p, before[p].content, w, k);
      HoldsFirstStays(before, after, jobs[w], k);
      assert PublishedBy(jobs, after, p, after[p].content, w, k);
    }
  }

  lemma AdvanceKeeps(jobs: Jobs, tree: Tree, w: nat, p: Phase)
    requires w < |jobs| && Reached(tree, jobs[w], p)
    ensures var (after, next) := Advance(tree, jobs[w], p);
            && Extends(tree, after)
            && Reached(after, jobs[w], next)
            && (forall q :: q in after && q !in tree ==> Explained(jobs, after, q))
  {
    var items := jobs[w];
    var (after, next) := Advance(tree, items, p);
    if p.Descending? && after != tree {
      assert ParentOf(jobs, items[p.k].path[..p.d + 1], w, p.k);
      HoldsFirstStays(tree, after, items, p.k);
    } else if p.Linking? && after != tree {
      HoldsFirstStays(tree, after, items, p.k);
      assert PublishedBy(jobs, after, items[p.k].path, items[p.k].content, w, p.k);
    }
  }

  lemma StepKeeps(jobs: Jobs, start: Tree, s: State, a: Action)
    requires Inv(jobs, start, s)
    ensures Inv(jobs, start, Apply(jobs, s, a))
    ensures Extends(s.tree, Apply(jobs, s, a).tree)
  {
    var t := Apply(jobs, s, a);
    if a.Step? && a.writer < |jobs| {
      AdvanceKeeps(jobs, s.tree, a.writer, s.phases[a.writer]);
      forall w | 0 <= w < |jobs| ensures Reached(t.tree, jobs[w], t.phases[w]) {
        if w != a.writer {
          assert Reached(s.tree, jobs[w], s.phases[w]);
          if s.phases[w].Done? { HoldsFirstStays(s.tree, t.tree, jobs[w], |jobs[w]|); }
          if s.phases[w].Running() { HoldsFirstStays(s.tree, t.tree, jobs[w], s.phases[w].k); }
        }
      }
      forall p | p in t.tree && p !in start ensures Explained(jobs, t.tree, p) {
        if p in s.tree { ExplainedStays(jobs, s.tree, t.tree, p); }
      }
    }
  }

  lemma {:induction false} RunKeeps(jobs: Jobs, start: Tree, schedule: seq<Action>)
    ensures Inv(jobs, start, Run(jobs, start, schedule))
  {
    if schedule != [] {
      RunKeeps(jobs, start, schedule[..|schedule| - 1]);
      StepKeeps(jobs, start, Run(jobs, start, schedule[..|schedule| - 1]), schedule[|schedule| - 1]);
    }
  }

  /** Whatever is published stays as it is for the rest of the run. */
  lemma {:induction false} PublishedNeverChanges(jobs: Jobs, start: Tree, schedule: seq<Action>, n: nat)
    requires n <= |schedule|
    ensures Extends(Run(jobs, start, schedule[..n]).tree, Run(jobs, start, schedule).tree)
  {
    if n == |schedule| {
      assert schedule[..n] == schedule;
    } else {
      var before := schedule[..|schedule| - 1];
      PublishedNeverChanges(jobs, start, before, n);
      assert before[..n] == schedule[..n];
      RunKeeps(jobs, start, before);
      StepKeeps(jobs, start, Run(jobs, start, before), schedule[|schedule| - 1]);
    }
  }

  /** A path goes from absent to one whole content: a file that was not there at the start
      is some writer's complete file, and that writer's earlier files are all in place. */
  lemma PublishedInOrder(jobs: Jobs, start: Tree, schedule: seq<Action>, p: Path)
    requires p !in start && p in Run(jobs, start, schedule).tree && Run(jobs, start, schedule).tree[p].File?
    ensures var tree := Run(jobs, start, schedule).tree;
            exists w, k :: PublishedBy(jobs, tree, p, tree[p].content, w, k)
  {
    RunKeeps(jobs, start, schedule);
    assert Explained(jobs, Run(jobs, start, schedule).tree, p);
  }

  /** A writer returns normally only if every one of its files is in place with its content. */
  lemma DoneMeansOwnContent(jobs: Jobs, start: Tree, schedule: seq<Action>, w: nat)
    requires w < |jobs|
    ensures |Run(jobs, start, schedule).phases| == |jobs|
    ensures Run(jobs, start, schedule).phases[w].Done? ==>
              HoldsFirst(Run(jobs, start, schedule).tree, jobs[w], |jobs[w]|)
  {
    RunKeeps(jobs, start, schedule);
  }

  lemma HeldTogetherAgree(tree: Tree, a: seq<Item>, b: seq<Item>, i: nat, j: nat)
    requires i < |a| && j < |b| && a[i].path == b[j].path
    ensures HoldsFirst(tree, a, |a|) && HoldsFirst(tree, b, |b|) ==> a[i].content == b[j].content
  {
    assert HoldsFirst(tree, a, |a|) && HoldsFirst(tree, b, |b|) ==> Holds(tree, a[i]) && Holds(tree, b[j]);
  }

  /** Two writers that want different contents at one path never both succeed. */
  lemma ConflictingWritersNeverBothSucceed(jobs: Jobs, start: Tree, schedule: seq<Action>, v: nat, w: nat, i: nat, j: nat)
    requires v < |jobs| && w < |jobs| && i < |jobs[v]| && j < |jobs[w]|
    requires jobs[v][i].path == jobs[w][j].path && jobs[v][i].content != jobs[w][j].content
    ensures |Run(jobs, start, schedule).phases| == |jobs|
    ensures !(Run(jobs, start, schedule).phases[v].Done? && Run(jobs, start, schedule).phases[w].Done?)
  {
    RunKeeps(jobs, start, schedule);
    var s := Run(jobs, start, schedule);
    assert Reached(s.tree, jobs[v], s.phases[v]) && Reached(s.tree, jobs[w], s.phases[w]);
    HeldTogetherAgree(s.tree, jobs[v], jobs[w], i, j);
  }

  // ---- The tree stays a tree ----

  ghost predicate Named(jobs: Jobs) { forall w, k :: 0 <= w < |jobs| && 0 <= k < |jobs[w]| ==> jobs[w][k].path != [] }

  /** Every name above an existing path is a directory. */
  ghost predicate TreeOk(tree: Tree) {
    forall p, d {:trigger p[..d] in tree} :: p in tree && 0 < d < |p| ==> p[..d] in tree && tree[p[..d]].Directory?
  }

  ghost predicate DirectoryAt(tree: Tree, p: Path, d: nat) {
    d == 0 || (d <= |p| && p[..d] in tree && tree[p[..d]].Directory?)
  }

  /** What a phase knows about the directories above its entry. */
  ghost predicate ParentsMade(tree: Tree, items: seq<Item>, p: Phase) {
    p.Running() && p.k < |items| && items[p.k].path != [] ==>
      && (p.Climbing? ==> p.d < |items[p.k].path|)
      && (p.Descending? ==> p.d < |items[p.k].path| && DirectoryAt(tree, items[p.k].path, p.d))
      && (p.Checking? || p.Staging? || p.Linking? ==> DirectoryAt(tree, items[p.k].path, |items[p.k].path| - 1))
  }

  ghost predicate Rooted(jobs: Jobs, s: State) {
    && |s.phases| == |jobs|
    && TreeOk(s.tree)
    && (forall w :: 0 <= w < |jobs| ==> ParentsMade(s.tree, jobs[w], s.phases[w]))
  }

  lemma TreeOkAdd(tree: Tree, p: Path, node: Node)
    requires TreeOk(tree) && p !in tree && p != [] && DirectoryAt(tree, p, |p| - 1)
    ensures TreeOk(tree[p := node])
  {
    var t := tree[p := node];
    forall q, d | q in t && 0 < d < |q| ensures q[..d] in t && t[q[..d]].Directory? {
      if q == p && d < |p| - 1 {
        assert p[..|p| - 1][..d] == p[..d];
      }
    }
  }

  lemma RootedStep(jobs: Jobs, s: State, a: Action)
    requires Rooted(jobs, s)
    requires Named(jobs)
    ensures Rooted(jobs, Apply(jobs, s, a))
  {
    if a.Step? && a.writer < |jobs| {
      var items, p := jobs[a.writer], s.phases[a.writer];
      assert ParentsMade(s.tree, items, p);
      var t := Apply(jobs, s, a);
      if t.tree != s.tree {
        var path := items[p.k].path;
        if p.Descending? {
          assert path[..p.d + 1][..p.d] == path[..p.d];
          TreeOkAdd(s.tree, path[..p.d + 1], Directory);
        } else {
          assert p.Linking?;
          TreeOkAdd(s.tree, path, File(p.staged));
        }
      }
      forall w | 0 <= w < |jobs| ensures ParentsMade(t.tree, jobs[w], t.phases[w]) {
        assert ParentsMade(s.tree, jobs[w], s.phases[w]);
      }
    } else {
      var t := Apply(jobs, s, a);
      forall w | 0 <= w < |jobs| ensures ParentsMade(t.tree, jobs[w], t.phases[w]) {
        assert ParentsMade(s.tree, jobs[w], s.phases[w]);
      }
    }
  }

  lemma {:induction false} RunRooted(jobs: Jobs, start: Tree, schedule: seq<Action>)
    requires TreeOk(start)
    requires Named(jobs)
    ensures Rooted(jobs, Run(jobs, start, schedule))
  {
    if schedule != [] {
      RunRooted(jobs, start, schedule[..|schedule| - 1]);
      RootedStep(jobs, Run(jobs, start, schedule[..|schedule| - 1]), schedule[|schedule| - 1]);
    }
  }
}
