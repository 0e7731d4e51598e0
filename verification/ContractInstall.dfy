/** Installing verified read contracts: every dependency is written once, the pointers that
    select them last, the evidence after the pointers. */
module ContractInstall {
  import opened Sequences
  import opened WriteOnce
  import opened WriterFailures

  const ACTIVE_NAME := "active-candidate.json"

  predicate IsPointer(item: Item) {
    item.path != [] && item.path[|item.path| - 1] == ACTIVE_NAME
  }

  function Pointers(deps: seq<Item>): seq<Item> {
    if deps == [] then []
    else Pointers(deps[..|deps| - 1]) + (if IsPointer(deps[|deps| - 1]) then [deps[|deps| - 1]] else [])
  }

  function NonPointers(deps: seq<Item>): seq<Item> {
    if deps == [] then []
    else NonPointers(deps[..|deps| - 1]) + (if IsPointer(deps[|deps| - 1]) then [] else [deps[|deps| - 1]])
  }

  /** The order in which one installer writes its files. */
  function Plan(deps: seq<Item>, evidence: Item): seq<Item> {
    NonPointers(deps) + Pointers(deps) + [evidence]
  }

  lemma {:induction false} PlanKeepsEverything(deps: seq<Item>)
    ensures multiset(NonPointers(deps)) + multiset(Pointers(deps)) == multiset(deps)
    ensures forall i <- NonPointers(deps) :: !IsPointer(i)
    ensures forall i <- Pointers(deps) :: IsPointer(i)
    ensures forall i <- deps :: i in (if IsPointer(i) then Pointers(deps) else NonPointers(deps))
  {
    if deps != [] {
      var last := |deps| - 1;
      PlanKeepsEverything(deps[..last]);
      assert deps == deps[..last] + [deps[last]];
    }
  }

  // ---- One installer on its own ----

  function Ancestors(p: Path): set<Path> {
    set d | 0 < d < |p| :: p[..d]
  }

  function WithParents(tree: Tree, p: Path): Tree {
    map q | q in tree.Keys + Ancestors(p) :: if q in tree then tree[q] else Directory
  }

  function Put(tree: Tree, item: Item): Tree {
    WithParents(tree, item.path)[item.path := File(item.content)]
  }

  function PutAll(tree: Tree, items: seq<Item>): Tree {
    if items == [] then tree else Put(PutAll(tree, items[..|items| - 1]), items[|items| - 1])
  }

  /** Every file of the list finds its place when they are written in order. */
  predicate Completes(tree: Tree, items: seq<Item>) {
    items == [] ||
    (Completes(tree, items[..|items| - 1]) && Compatible(PutAll(tree, items[..|items| - 1]), items[|items| - 1]))
  }

  lemma PutTreeOk(tree: Tree, item: Item)
    requires TreeOk(tree) && Compatible(tree, item) && item.path != []
    ensures TreeOk(Put(tree, item)) && Extends(tree, Put(tree, item)) && Holds(Put(tree, item), item)
  {
    var t := Put(tree, item);
    forall q, d | q in t && 0 < d < |q| ensures q[..d] in t && t[q[..d]].Directory? {
      if q !in tree {
        var e :| 0 < e <= |item.path| && q == item.path[..e];
        assert q[..d] == item.path[..d];
        assert item.path[..d] in Ancestors(item.path);
      } else {
        assert q[..d] in tree;
        assert item.path in tree ==> Holds(tree, item);
      }
    }
  }

  // ---- Which lists complete, and to what ----

  ghost predicate Nonempty(items: seq<Item>) {
    forall i <- items :: i.path != []
  }

  /** No two entries disagree on a path, and none uses another's file as a directory. */
  ghost predicate Harmonious(items: seq<Item>) {
    forall i, j {:trigger items[i], items[j]} :: 0 <= i < |items| && 0 <= j < |items| ==> Fit(items[i], items[j])
  }

  function Covered(items: seq<Item>): set<Path> {
    set i, q | 0 <= i < |items| && q in Ancestors(items[i].path) + {items[i].path} :: q
  }

  ghost predicate NewAreDirectories(tree: Tree, items: seq<Item>, after: Tree) {
    forall q :: q in after && q !in tree && (forall i :: 0 <= i < |items| ==> items[i].path != q) ==> after[q] == Directory
  }

  /** What writing a whole list does to a tree: nothing is lost, the entries are in place,
      and the only other new nodes are the directories above them. */
  ghost predicate Describes(tree: Tree, items: seq<Item>, after: Tree) {
    && Extends(tree, after)
    && after.Keys == tree.Keys + Covered(items)
    && (forall i :: 0 <= i < |items| ==> Holds(after, items[i]))
    && NewAreDirectories(tree, items, after)
  }

  lemma PutShape(tree: Tree, item: Item)
    ensures Put(tree, item).Keys == tree.Keys + Ancestors(item.path) + {item.path}
    ensures forall q :: q in Put(tree, item) && q !in tree && q != item.path ==> Put(tree, item)[q] == Directory
  {
  }

  lemma HoldsAppend(items: seq<Item>, before: Tree, after: Tree, item: Item)
    requires (forall i :: 0 <= i < |items| ==> Holds(before, items[i])) && Extends(before, after) && Holds(after, item)
    ensures forall i :: 0 <= i < |items + [item]| ==> Holds(after, (items + [item])[i])
  {
    forall i | 0 <= i < |items + [item]| ensures Holds(after, (items + [item])[i]) {
      if i < |items| { assert (items + [item])[i] == items[i] && Holds(before, items[i]); }
    }
  }

  lemma DirectoriesAppend(tree: Tree, items: seq<Item>, before: Tree, after: Tree, item: Item)
    requires NewAreDirectories(tree, items, before) && Extends(before, after)
    requires forall q :: q in after && q !in before && q != item.path ==> after[q] == Directory
    ensures NewAreDirectories(tree, items + [item], after)
  {
    var all := items + [item];
    forall q | q in after && q !in tree && forall i :: 0 <= i < |all| ==> all[i].path != q
      ensures after[q] == Directory
    {
      assert all[|items|] == item;
      assert forall i :: 0 <= i < |items| ==> items[i].path == all[i].path;
    }
  }

  lemma SameSum(keys: set<Path>, covered: set<Path>, above: set<Path>, p: Path)
    ensures keys + covered + above + {p} == keys + (covered + above + {p})
  {
  }

  lemma ExtendsFurther(tree: Tree, before: Tree, after: Tree)
    requires Extends(tree, before) && Extends(before, after)
    ensures Extends(tree, after)
  {
  }

  lemma DescribesAppend(tree: Tree, items: seq<Item>, before: Tree, after: Tree, item: Item)
    requires Describes(tree, items, before) && Extends(before, after) && Holds(after, item)
    requires after.Keys == before.Keys + Ancestors(item.path) + {item.path}
    requires forall q :: q in after && q !in before && q != item.path ==> after[q] == Directory
    ensures Describes(tree, items + [item], after)
  {
    assert after.Keys == tree.Keys + Covered(items + [item]) by {
      CoveredAppend(items, item);
      SameSum(tree.Keys, Covered(items), Ancestors(item.path), item.path);
    }
    assert Extends(tree, after) by { ExtendsFurther(tree, before, after); }
    HoldsAppend(items, before, after, item);
    DirectoriesAppend(tree, items, before, after, item);
  }

  lemma {:induction false} PutAllDescribes(tree: Tree, items: seq<Item>)
    requires TreeOk(tree) && Nonempty(items) && Completes(tree, items)
    ensures TreeOk(PutAll(tree, items)) && Describes(tree, items, PutAll(tree, items))
  {
    if items != [] {
      var last := |items| - 1;
      assert items == items[..last] + [items[last]];
      PutAllDescribes(tree, items[..last]);
      PutTreeOk(PutAll(tree, items[..last]), items[last]);
      PutShape(PutAll(tree, items[..last]), items[last]);
      DescribesAppend(tree, items[..last], PutAll(tree, items[..last]), PutAll(tree, items), items[last]);
    }
  }

  lemma CoveredAppend(items: seq<Item>, item: Item)
    ensures Covered(items + [item]) == Covered(items) + Ancestors(item.path) + {item.path}
  {
    var all := items + [item];
    forall q ensures q in Covered(all) <==> q in Covered(items) + Ancestors(item.path) + {item.path} {
      if q in Covered(items) {
        var i :| 0 <= i < |items| && q in Ancestors(items[i].path) + {items[i].path};
        assert all[i] == items[i];
      }
      if q in Ancestors(item.path) + {item.path} { assert all[|items|] == item; }
    }
  }

  lemma CompletingListFits(tree: Tree, items: seq<Item>, item: Item)
    requires TreeOk(tree) && Nonempty(items) && item.path != [] && Completes(tree, items)
    requires Compatible(PutAll(tree, items), item) && Harmonious(items)
    ensures Compatible(tree, item) && Harmonious(items + [item])
  {
    PutAllDescribes(tree, items);
    FittingLastIsHarmonious(tree, items, item);
    FittingLastFitsTheStart(tree, PutAll(tree, items), item);
  }

  lemma HarmoniousPrefix(items: seq<Item>, item: Item)
    requires Harmonious(items + [item])
    ensures Harmonious(items)
  {
    var all := items + [item];
    assert forall i :: 0 <= i < |items| ==> items[i] == all[i];
  }

  lemma HarmoniousListFits(tree: Tree, items: seq<Item>, item: Item)
    requires TreeOk(tree) && Nonempty(items) && Completes(tree, items)
    requires Compatible(tree, item) && Harmonious(items + [item])
    ensures Compatible(PutAll(tree, items), item)
  {
    PutAllDescribes(tree, items);
    HarmoniousLastFits(tree, items, PutAll(tree, items), item);
  }

  /** Nothing in the target conflicts with the files, nor they with each other. */
  ghost predicate NoConflict(tree: Tree, items: seq<Item>) {
    (forall i <- items :: Compatible(tree, i)) && Harmonious(items)
  }

  /** An installer on its own completes exactly when there is no conflict. */
  lemma {:induction false} CompletesExactly(tree: Tree, items: seq<Item>)
    requires TreeOk(tree) && Nonempty(items)
    ensures Completes(tree, items) <==> NoConflict(tree, items)
  {
    if items != [] {
      var some, item := items[..|items| - 1], items[|items| - 1];
      assert items == some + [item] && item in items;
      CompletesExactly(tree, some);
      if Completes(tree, items) {
        CompletingListFits(tree, some, item);
      }
      if NoConflict(tree, items) {
        HarmoniousPrefix(some, item);
        HarmoniousListFits(tree, some, item);
      }
    }
  }

  lemma PrefixSlice(a: Path, b: Path)
    ensures a < b ==> b[..|a|] == a
  {
  }

  lemma FittingLastIsHarmonious(tree: Tree, items: seq<Item>, item: Item)
    requires TreeOk(tree) && Nonempty(items) && item.path != [] && Completes(tree, items)
    requires Harmonious(items) && Compatible(PutAll(tree, items), item)
    ensures Harmonious(items + [item])
  {
    var after, all := PutAll(tree, items), items + [item];
    PutAllDescribes(tree, items);
    forall i, j | 0 <= i < |all| && 0 <= j < |all|
      ensures all[i].path == all[j].path ==> all[i].content == all[j].content
      ensures !(all[i].path < all[j].path)
    {
      if i < |items| && j < |items| {
        assert all[i] == items[i] && all[j] == items[j];
      } else if i < |items| {
        assert Holds(after, items[i]);
        PrefixSlice(items[i].path, item.path);
      } else if j < |items| {
        assert Holds(after, items[j]);
        if item.path < items[j].path { EntryIsNotAParent(tree, items, j, item.path); }
      }
    }
  }

  lemma FittingLastFitsTheStart(tree: Tree, after: Tree, item: Item)
    requires Extends(tree, after) && Compatible(after, item)
    ensures Compatible(tree, item)
  {
    forall d | 0 < d < |item.path| && item.path[..d] in tree ensures tree[item.path[..d]].Directory? {
      assert item.path[..d] in after;
    }
  }

  lemma AboveIsDirectory(tree: Tree, items: seq<Item>, after: Tree, item: Item, q: Path)
    requires NewAreDirectories(tree, items, after) && Harmonious(items + [item])
    requires q < item.path && q in after && q !in tree
    ensures after[q].Directory?
  {
    var all := items + [item];
    assert all[|items|] == item;
    forall i | 0 <= i < |items| ensures items[i].path != q {
      assert all[i] == items[i];
    }
  }

  lemma NoFileAbove(tree: Tree, items: seq<Item>, after: Tree, item: Item)
    requires Describes(tree, items, after) && ParentsUsable(tree, item.path) && Harmonious(items + [item])
    ensures ParentsUsable(after, item.path)
  {
    forall d | 0 < d < |item.path| && item.path[..d] in after ensures after[item.path[..d]].Directory? {
      if item.path[..d] !in tree { AboveIsDirectory(tree, items, after, item, item.path[..d]); }
    }
  }

  lemma CoveredIsAbove(items: seq<Item>, p: Path) returns (i: nat)
    requires p in Covered(items)
    ensures i < |items| && p <= items[i].path
  {
    i :| 0 <= i < |items| && p in Ancestors(items[i].path) + {items[i].path};
  }

  lemma TakenByTheSameContent(tree: Tree, items: seq<Item>, after: Tree, item: Item)
    requires Describes(tree, items, after) && Harmonious(items + [item])
    requires item.path in after && item.path !in tree
    ensures Holds(after, item)
  {
    var all := items + [item];
    var i := CoveredIsAbove(items, item.path);
    assert all[i] == items[i] && all[|items|] == item;
    if item.path == items[i].path { assert Holds(after, items[i]); }
  }

  lemma HarmoniousLastFits(tree: Tree, items: seq<Item>, after: Tree, item: Item)
    requires Describes(tree, items, after)
    requires Compatible(tree, item) && Harmonious(items + [item])
    ensures Compatible(after, item)
  {
    NoFileAbove(tree, items, after, item);
    if item.path in after {
      if item.path !in tree { TakenByTheSameContent(tree, items, after, item); }
    }
  }

  lemma EntryIsNotAParent(tree: Tree, items: seq<Item>, j: nat, q: Path)
    requires TreeOk(tree) && Nonempty(items) && Completes(tree, items)
    requires j < |items| && q != [] && q < items[j].path
    ensures q in PutAll(tree, items) && PutAll(tree, items)[q] == Directory
  {
    PutAllDescribes(tree, items);
    assert Holds(PutAll(tree, items), items[j]);
    assert items[j].path[..|q|] == q;
  }

  lemma FitsInBetween(crashed: Tree, final: Tree, item: Item)
    requires Extends(crashed, final) && TreeOk(final) && Holds(final, item)
    ensures Compatible(crashed, item)
  {
    forall d | 0 < d < |item.path| && item.path[..d] in crashed ensures crashed[item.path[..d]].Directory? {
      assert item.path[..d] in final;
    }
  }

  lemma DescribedAlike(start: Tree, crashed: Tree, items: seq<Item>, final: Tree, again: Tree)
    requires Extends(start, crashed) && Extends(crashed, final)
    requires Describes(start, items, final) && Describes(crashed, items, again)
    ensures again == final
  {
    forall q | q in final ensures again[q] == final[q] {
      if q !in crashed {
        if i :| 0 <= i < |items| && items[i].path == q {
          assert Holds(final, items[i]) && Holds(again, items[i]);
        }
      }
    }
  }

  /** Starting again from any tree between the first start and the complete installation
      completes, to the same tree. */
  lemma ResumeReachesTheSameTree(start: Tree, crashed: Tree, items: seq<Item>)
    requires TreeOk(start) && TreeOk(crashed) && Nonempty(items) && Completes(start, items)
    requires Extends(start, crashed) && Extends(crashed, PutAll(start, items))
    ensures Completes(crashed, items) && PutAll(crashed, items) == PutAll(start, items)
  {
    var final := PutAll(start, items);
    PutAllDescribes(start, items);
    CompletesExactly(start, items);
    CompletesExactly(crashed, items);
    forall item | item in items ensures Compatible(crashed, item) {
      var i :| 0 <= i < |items| && items[i] == item;
      assert Holds(final, items[i]);
      FitsInBetween(crashed, final, item);
    }
    PutAllDescribes(crashed, items);
    DescribedAlike(start, crashed, items, final, PutAll(crashed, items));
  }

  // ---- Any number of installers, crashing anywhere ----

  /** The write lists of installers that read these sources and wrote this evidence. */
  function JobsOf(sources: seq<seq<Item>>, evidences: seq<Item>): Jobs
    requires |sources| == |evidences|
  {
    if sources == [] then [] else [Plan(sources[0], evidences[0])] + JobsOf(sources[1..], evidences[1..])
  }

  lemma {:induction false} JobsOfAt(sources: seq<seq<Item>>, evidences: seq<Item>, w: nat)
    requires |sources| == |evidences| && w < |sources|
    ensures |JobsOf(sources, evidences)| == |sources|
    ensures JobsOf(sources, evidences)[w] == Plan(sources[w], evidences[w])
  {
    if w > 0 {
      JobsOfAt(sources[1..], evidences[1..], w - 1);
    } else if |sources| > 1 {
      JobsOfAt(sources[1..], evidences[1..], 0);
    }
  }

  /** This installer read the file as one of its dependencies, or wrote it as its evidence, and every
      dependency of its that is not a pointer is in the tree with the content it read. */
  ghost predicate SelectedAfterItsClosure(deps: seq<Item>, evidence: Item, tree: Tree, file: Item) {
    (file in deps || file == evidence) && forall i <- deps :: !IsPointer(i) ==> Holds(tree, i)
  }

  lemma FirstPartHeld(deps: seq<Item>, evidence: Item, tree: Tree, k: nat)
    requires |NonPointers(deps)| <= k && HoldsFirst(tree, Plan(deps, evidence), k)
    ensures forall i <- deps :: !IsPointer(i) ==> Holds(tree, i)
  {
    var plan, first := Plan(deps, evidence), |NonPointers(deps)|;
    PlanKeepsEverything(deps);
    forall i | i in deps && !IsPointer(i) ensures Holds(tree, i) {
      var n :| 0 <= n < first && NonPointers(deps)[n] == i;
      assert plan[n] == i;
    }
  }

  lemma NonPointerAt(deps: seq<Item>, k: nat)
    requires k < |NonPointers(deps)|
    ensures !IsPointer(NonPointers(deps)[k])
  {
    PlanKeepsEverything(deps);
    assert NonPointers(deps)[k] in NonPointers(deps);
  }

  lemma PointersAreDeps(deps: seq<Item>, k: nat)
    requires k < |Pointers(deps)|
    ensures Pointers(deps)[k] in deps
  {
    PlanKeepsEverything(deps);
    assert Pointers(deps)[k] in multiset(Pointers(deps));
    assert Pointers(deps)[k] in multiset(deps);
  }

  /** Where a pointer stands in the plan: behind the other dependencies. */
  lemma PointerAt(deps: seq<Item>, evidence: Item, file: Item, k: nat)
    requires IsPointer(file) && k < |Plan(deps, evidence)| && Plan(deps, evidence)[k] == file
    ensures |NonPointers(deps)| <= k && (file in deps || file == evidence)
  {
    var first := |NonPointers(deps)|;
    if k < first { NonPointerAt(deps, k); }
    if first <= k < first + |Pointers(deps)| { PointersAreDeps(deps, k - first); }
  }

  lemma PlannedPointer(deps: seq<Item>, evidence: Item, tree: Tree, file: Item, k: nat)
    requires IsPointer(file)
    requires k < |Plan(deps, evidence)| && Plan(deps, evidence)[k] == file
    requires HoldsFirst(tree, Plan(deps, evidence), k)
    ensures SelectedAfterItsClosure(deps, evidence, tree, file)
  {
    PointerAt(deps, evidence, file, k);
    FirstPartHeld(deps, evidence, tree, k);
  }

  /** When a selecting pointer appears in the target, some installer put it there after every
      other dependency it had read was in place with the content it had read. */
  lemma PointerComesLast(sources: seq<seq<Item>>, evidences: seq<Item>, start: Tree, schedule: seq<Action>, p: Path)
    requires |sources| == |evidences|
    requires p != [] && p[|p| - 1] == ACTIVE_NAME && p !in start
    requires p in Run(JobsOf(sources, evidences), start, schedule).tree
    requires Run(JobsOf(sources, evidences), start, schedule).tree[p].File?
    ensures var tree := Run(JobsOf(sources, evidences), start, schedule).tree;
            exists w :: 0 <= w < |sources| && SelectedAfterItsClosure(sources[w], evidences[w], tree, Item(p, tree[p].content))
  {
    var jobs := JobsOf(sources, evidences);
    var tree := Run(jobs, start, schedule).tree;
    PublishedInOrder(jobs, start, schedule, p);
    var w: nat, k: nat :| PublishedBy(jobs, tree, p, tree[p].content, w, k);
    if |sources| > 0 { JobsOfAt(sources, evidences, 0); }
    JobsOfAt(sources, evidences, w);
    PlannedPointer(sources[w], evidences[w], tree, Item(p, tree[p].content), k);
  }

  // ---- One run of the step machine on its own ----

  lemma AlonePeaceful(items: seq<Item>, tree: Tree)
    requires TreeOk(tree) && Nonempty(items) && Completes(tree, items)
    ensures Peaceful([items], tree) && Named([items])
  {
    CompletesExactly(tree, items);
  }

  lemma AloneNew(items: seq<Item>, tree: Tree, s: State)
    requires Inv([items], tree, s)
    ensures s.tree.Keys <= tree.Keys + Covered(items) && NewAreDirectories(tree, items, s.tree)
  {
    forall q | q in s.tree && q !in tree
      ensures q in Covered(items) && ((forall i :: 0 <= i < |items| ==> items[i].path != q) ==> s.tree[q] == Directory)
    {
      assert Explained([items], s.tree, q);
      if s.tree[q].Directory? {
        var w: nat, k: nat :| ParentOf([items], q, w, k);
        assert items[k].path[..|q|] in Ancestors(items[k].path);
        assert q in Ancestors(items[k].path) + {items[k].path};
      } else {
        var w: nat, k: nat :| PublishedBy([items], s.tree, q, s.tree[q].content, w, k);
        assert q in Ancestors(items[k].path) + {items[k].path};
      }
    }
  }

  lemma AloneHeld(items: seq<Item>, after: Tree)
    requires TreeOk(after) && HoldsFirst(after, items, |items|)
    ensures Covered(items) <= after.Keys
  {
    forall q | q in Covered(items) ensures q in after {
      var i :| 0 <= i < |items| && q in Ancestors(items[i].path) + {items[i].path};
      assert Holds(after, items[i]);
    }
  }

  /** A run on its own never fails, and when it is done the tree is what its list describes. */
  lemma AloneInstalls(items: seq<Item>, tree: Tree, schedule: seq<Action>)
    requires TreeOk(tree) && Nonempty(items) && Completes(tree, items)
    ensures var s := Run([items], tree, schedule);
      && |s.phases| == 1 && !s.phases[0].Failed?
      && (s.phases[0].Done? ==> s.tree == PutAll(tree, items))
  {
    var s := Run([items], tree, schedule);
    AlonePeaceful(items, tree);
    PeacefulIsCalm([items], tree, schedule);
    RunKeeps([items], tree, schedule);
    RunRooted([items], tree, schedule);
    assert Calm(s.tree, [items][0], s.phases[0]) && Reached(s.tree, [items][0], s.phases[0]);
    if s.phases[0].Done? {
      AloneNew(items, tree, s);
      AloneHeld(items, s.tree);
      assert s.tree.Keys == tree.Keys + Covered(items);
      PutAllDescribes(tree, items);
      DescribedAlike(tree, tree, items, PutAll(tree, items), s.tree);
    }
  }

  /** However many installers of one source ran, overlapped and crashed, one more run on its
      own never fails, comes to its end whatever it has done so far, and is then done, with the
      tree an undisturbed installation would have produced. */
  lemma RerunCompletes(items: seq<Item>, runs: nat, start: Tree, schedule: seq<Action>, again: seq<Action>)
    requires TreeOk(start) && Nonempty(items) && Completes(start, items)
    requires Solo(again, 0)
    ensures var crashed := Run(seq(runs, _ => items), start, schedule).tree;
      && |Run([items], crashed, again).phases| == 1 && !Run([items], crashed, again).phases[0].Failed?
      && exists more :: Solo(more, 0) && Run([items], crashed, again + more) == State(PutAll(start, items), [Done])
  {
    var crashed := Run(seq(runs, _ => items), start, schedule).tree;
    CrashedCompletes(items, runs, start, schedule);
    AloneInstalls(items, crashed, again);
    NotCrashed([items], crashed, again, 0);
    var more := SoloEnds([items], crashed, again, 0);
    AloneInstalls(items, crashed, again + more);
    assert Run([items], crashed, again + more).phases == [Done];
  }

  lemma {:induction false} NotCrashed(jobs: Jobs, tree: Tree, schedule: seq<Action>, w: nat)
    requires Solo(schedule, w) && w < |jobs|
    ensures !PhaseOf(jobs, tree, schedule, w).Crashed?
  {
    RunKeeps(jobs, tree, schedule);
    if schedule != [] {
      var before, a := schedule[..|schedule| - 1], schedule[|schedule| - 1];
      assert a in schedule;
      NotCrashed(jobs, tree, before, w);
      RunKeeps(jobs, tree, before);
    }
  }

  /** Whatever installers of one source left behind can be completed, to the same tree. */
  lemma CrashedCompletes(items: seq<Item>, runs: nat, start: Tree, schedule: seq<Action>)
    requires TreeOk(start) && Nonempty(items) && Completes(start, items)
    ensures var crashed := Run(seq(runs, _ => items), start, schedule).tree;
            TreeOk(crashed) && Completes(crashed, items) && PutAll(crashed, items) == PutAll(start, items)
  {
    var jobs: Jobs := seq(runs, _ => items);
    var crashed := Run(jobs, start, schedule).tree;
    var final := PutAll(start, items);
    RunKeeps(jobs, start, schedule);
    forall w, k | 0 <= w < |jobs| && 0 <= k < |jobs[w]| ensures jobs[w][k].path != [] {
      assert jobs[w][k] in items;
    }
    RunRooted(jobs, start, schedule);
    PutAllDescribes(start, items);
    forall q | q in crashed ensures q in final && final[q] == crashed[q] {
      if q !in start {
        assert Explained(jobs, crashed, q);
        if crashed[q].Directory? {
          var w: nat, k: nat :| ParentOf(jobs, q, w, k);
          assert items[k].path[..|q|] == q;
          EntryIsNotAParent(start, items, k, q);
        } else {
          var w: nat, k: nat :| PublishedBy(jobs, crashed, q, crashed[q].content, w, k);
          assert Holds(final, items[k]);
        }
      }
    }
    ResumeReachesTheSameTree(start, crashed, items);
  }

  // ---- The installer, step by step ----

  class TargetRoot {
    var tree: Tree

    /** `_ensure_safe_parent`: climb to the nearest existing ancestor, then create downwards. */
    method EnsureSafeParent(path: Path) returns (ok: bool)
      requires TreeOk(tree) && path != []
      modifies this
      ensures ok <==> ParentsUsable(old(tree), path)
      ensures tree == if ok then WithParents(old(tree), path) else old(tree)
    {
      var depth := |path| - 1;
      while depth > 0 && path[..depth] !in tree
        invariant 0 <= depth < |path|
        invariant forall d :: depth < d < |path| ==> path[..d] !in tree
      {
        depth := depth - 1;
      }
      if depth > 0 && !tree[path[..depth]].Directory? {
        return false;
      }
      assert forall d :: 0 < d < depth ==> path[..depth][..d] == path[..d] && path[..depth][..d] in tree;
      MakeParents(path, depth);
      return true;
    }

    /** The way down again: one directory after the other. */
    method MakeParents(path: Path, depth: nat)
      requires depth < |path|
      requires forall d :: 0 < d <= depth ==> path[..d] in tree
      requires forall d :: depth < d < |path| ==> path[..d] !in tree
      modifies this
      ensures tree == WithParents(old(tree), path)
    {
      ghost var before := tree;
      var made := depth;
      while made + 1 < |path|
        invariant depth <= made < |path|
        invariant tree == map q | q in before.Keys + (set d | 0 < d <= made :: path[..d]) ::
                    if q in before then before[q] else Directory
      {
        assert (set d | 0 < d <= made + 1 :: path[..d]) == (set d | 0 < d <= made :: path[..d]) + {path[..made + 1]};
        tree := tree[path[..made + 1] := Directory];
        made := made + 1;
      }
      assert (set d | 0 < d <= made :: path[..d]) == Ancestors(path);
    }

    /** `_write_once` when no other writer interferes. */
    method WriteOnce(item: Item) returns (ok: bool)
      requires TreeOk(tree) && item.path != []
      modifies this
      ensures ok <==> Compatible(old(tree), item)
      ensures tree == if ok then Put(old(tree), item) else old(tree)
      ensures TreeOk(tree)
    {
      ghost var before := tree;
      if item.path in tree {
        assert forall d :: 0 < d < |item.path| ==> item.path[..d] in tree;
        assert WithParents(tree, item.path) == tree;
      }
      ok := EnsureSafeParent(item.path);
      if !ok { return; }
      if item.path in tree {
        assert item.path !in Ancestors(item.path);
        ok := tree[item.path] == File(item.content);
      } else {
        tree := tree[item.path := File(item.content)];
      }
      if ok { PutTreeOk(before, item); }
    }

    /** The loop that publishes the collected pointers. */
    method WriteAll(items: seq<Item>) returns (ok: bool)
      requires TreeOk(tree) && Nonempty(items)
      modifies this
      ensures TreeOk(tree)
      ensures ok <==> Completes(old(tree), items)
      ensures ok ==> tree == PutAll(old(tree), items)
      ensures PartWay(old(tree), items, tree)
    {
      assert items[..0] == [];
      for i := 0 to |items|
        invariant TreeOk(tree) && Completes(old(tree), items[..i]) && tree == PutAll(old(tree), items[..i])
      {
        assert items[i] in items;
        NextEntry(old(tree), items, i);
        var written := WriteOnce(items[i]);
        if !written { return false; }
      }
      assert items[..|items|] == items;
      return true;
    }

    /** The loop over the dependencies: files are written at once, pointers only collected. */
    method WriteDependencies(deps: seq<Item>) returns (ok: bool, pointers: seq<Item>)
      requires TreeOk(tree) && Nonempty(deps)
      modifies this
      ensures TreeOk(tree)
      ensures ok <==> Completes(old(tree), NonPointers(deps))
      ensures ok ==> tree == PutAll(old(tree), NonPointers(deps)) && pointers == Pointers(deps)
      ensures PartWay(old(tree), NonPointers(deps), tree)
    {
      pointers := [];
      ghost var plan := NonPointers(deps);
      ghost var done := 0;
      assert plan[..0] == [];
      for i := 0 to |deps|
        invariant pointers == Pointers(deps[..i])
        invariant done == |NonPointers(deps[..i])| && NonPointers(deps[..i]) <= plan
        invariant TreeOk(tree) && Completes(old(tree), plan[..done]) && tree == PutAll(old(tree), plan[..done])
      {
        assert deps[..i + 1][..i] == deps[..i];
        NonPointersPrefix(deps, i + 1);
        assert deps[i] in deps;
        if IsPointer(deps[i]) {
          pointers := pointers + [deps[i]];
        } else {
          assert plan[done] == NonPointers(deps[..i + 1])[done] == deps[i];
          NextEntry(old(tree), plan, done);
          var written := WriteOnce(deps[i]);
          if !written { return false, pointers; }
          done := done + 1;
        }
      }
      assert deps[..|deps|] == deps && plan[..done] == plan;
      return true, pointers;
    }

    /** `install_operational_read_contracts` from the first copy to the evidence; `verified`
        is the outcome of loading the installed contracts back and comparing identities. */
    method Install(deps: seq<Item>, verified: bool, evidence: Item) returns (ok: bool)
      requires TreeOk(tree) && Nonempty(deps) && evidence.path != []
      modifies this
      ensures ok <==> verified && Completes(old(tree), Plan(deps, evidence))
      ensures ok ==> tree == PutAll(old(tree), Plan(deps, evidence))
      ensures PartWay(old(tree), Plan(deps, evidence), tree)
    {
      PlanKeepsEverything(deps);
      assert forall i <- Pointers(deps) :: i in multiset(deps);
      ThreeParts(tree, NonPointers(deps), Pointers(deps), [evidence]);
      var copied, pointers := WriteDependencies(deps);
      if !copied { return false; }
      var published := WriteAll(pointers);
      if !published || !verified { return false; }
      ok := WriteAll([evidence]);
    }
  }

  /** The tree reached after some first part of a list. */
  ghost predicate PartWay(start: Tree, items: seq<Item>, tree: Tree) {
    exists n :: 0 <= n <= |items| && Completes(start, items[..n]) && tree == PutAll(start, items[..n])
  }

  lemma {:induction false} PutAllAppend(start: Tree, a: seq<Item>, b: seq<Item>)
    ensures PutAll(start, a + b) == PutAll(PutAll(start, a), b)
    ensures Completes(start, a + b) <==> Completes(start, a) && Completes(PutAll(start, a), b)
  {
    if b == [] {
      assert a + b == a;
    } else {
      var last := |b| - 1;
      PutAllAppend(start, a, b[..last]);
      assert (a + b)[..|a + b| - 1] == a + b[..last];
    }
  }

  lemma PartWayLonger(start: Tree, a: seq<Item>, b: seq<Item>)
    ensures forall tree :: PartWay(start, a, tree) ==> PartWay(start, a + b, tree)
  {
    forall tree | PartWay(start, a, tree) ensures PartWay(start, a + b, tree) {
      var n :| 0 <= n <= |a| && Completes(start, a[..n]) && tree == PutAll(start, a[..n]);
      assert (a + b)[..n] == a[..n];
    }
  }

  lemma PartWayAfter(start: Tree, a: seq<Item>, b: seq<Item>)
    requires Completes(start, a)
    ensures forall tree :: PartWay(PutAll(start, a), b, tree) ==> PartWay(start, a + b, tree)
  {
    forall tree | PartWay(PutAll(start, a), b, tree) ensures PartWay(start, a + b, tree) {
      var n :| 0 <= n <= |b| && Completes(PutAll(start, a), b[..n]) && tree == PutAll(PutAll(start, a), b[..n]);
      PutAllAppend(start, a, b[..n]);
      assert (a + b)[..|a| + n] == a + b[..n];
    }
  }

  /** A list in three parts, written one after the other. */
  lemma ThreeParts(start: Tree, a: seq<Item>, b: seq<Item>, c: seq<Item>)
    ensures Completes(start, a + b + c) <==>
            Completes(start, a) && Completes(PutAll(start, a), b) && Completes(PutAll(PutAll(start, a), b), c)
    ensures PutAll(start, a + b + c) == PutAll(PutAll(PutAll(start, a), b), c)
    ensures forall t :: PartWay(start, a, t) ==> PartWay(start, a + b + c, t)
    ensures Completes(start, a) ==> forall t :: PartWay(PutAll(start, a), b, t) ==> PartWay(start, a + b + c, t)
    ensures Completes(start, a) && Completes(PutAll(start, a), b) ==>
              forall t :: PartWay(PutAll(PutAll(start, a), b), c, t) ==> PartWay(start, a + b + c, t)
  {
    PutAllAppend(start, a, b);
    PutAllAppend(start, a + b, c);
    PartWayLonger(start, a, b);
    PartWayLonger(start, a + b, c);
    if Completes(start, a) { PartWayAfter(start, a, b); }
    if Completes(start, a + b) { PartWayAfter(start, a + b, c); }
  }

  lemma {:induction false} NonPointersPrefix(deps: seq<Item>, n: nat)
    requires n <= |deps|
    ensures NonPointers(deps[..n]) <= NonPointers(deps)
    decreases |deps| - n
  {
    if n == |deps| {
      assert deps[..n] == deps;
    } else {
      NonPointersPrefix(deps, n + 1);
      assert deps[..n + 1][..n] == deps[..n];
    }
  }

  /** A list completes only if each of its entries fits after those before it. */
  lemma NextEntry(start: Tree, plan: seq<Item>, n: nat)
    requires n < |plan|
    ensures PutAll(start, plan[..n + 1]) == Put(PutAll(start, plan[..n]), plan[n])
    ensures Completes(start, plan[..n + 1]) <==> Completes(start, plan[..n]) && Compatible(PutAll(start, plan[..n]), plan[n])
    ensures Completes(start, plan) ==> Completes(start, plan[..n + 1])
  {
    assert plan[..n + 1][..n] == plan[..n];
    CompletesPrefix(start, plan, n + 1);
  }

  lemma {:induction false} CompletesPrefix(start: Tree, plan: seq<Item>, n: nat)
    requires n <= |plan|
    ensures Completes(start, plan) ==> Completes(start, plan[..n])
    decreases |plan|
  {
    if n == |plan| {
      assert plan[..n] == plan;
    } else {
      CompletesPrefix(start, plan[..|plan| - 1], n);
      assert plan[..|plan| - 1][..n] == plan[..n];
    }
  }
}
