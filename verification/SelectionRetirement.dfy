/** Retiring a locked selection: register what it contained, append that to the exclusion
    chain, verify the whole chain, and only then record the selection as invalidated.  Any
    number of runs and other tools act on the same data; a run may stop between any two
    writes. */
module SelectionRetirement {
  import opened Sequences
  import opened ExclusionChain

  type Selection = nat
  type Proc = nat

  /** The inventory of a failed selection is a function of the selection alone. */
  function InventoryOf(selection: Selection): Inventory { Inventory(selection, true, selection) }

  datatype Event = Activated | Invalidated(evidence: nat, inventory: Sha)

  /** `head` is the head of the exclusion chain the event was recorded against. */
  datatype LifeNode = LifeNode(generation: nat, selection: Selection, event: Event, head: Node, created: nat)

  /** The rows of the database, a node file not yet in the database, and how many rows the
      head file covers. */
  datatype Lifecycle = Lifecycle(anchors: seq<LifeNode>, staged: Option<LifeNode>, head: nat)

  datatype Stage = Loaded | Registered | Appended | Verified(head: Node) | Over
  datatype Run = Run(selection: Selection, evidence: nat, stage: Stage)

  datatype State = State(chain: Store, registry: seq<Inventory>, life: Lifecycle, runs: map<Proc, Run>)

  /** `budget` is the number of writes the acting process still makes. */
  datatype Action =
    | Begin(p: Proc, selection: Selection, evidence: nat)
    | Step(p: Proc, created: nat, budget: nat)
    | RegisterOther(inventory: Inventory)
    | AppendOther(inventory: Inventory, budget: nat)
    | Bootstrap(selection: Selection, created: nat, budget: nat)
    | Replace(selection: Selection, created: nat, budget: nat)

  // ---- The lifecycle store ----

  function Last(nodes: seq<LifeNode>): LifeNode
    requires nodes != []
  {
    nodes[|nodes| - 1]
  }

  /** All node files. */
  function All(life: Lifecycle): seq<LifeNode> {
    if life.staged.Some? then life.anchors + [life.staged.value] else life.anchors
  }

  /** `_strict_state`: files, database and head agree. */
  predicate Strict(life: Lifecycle) { life.staged.None? && life.head == |life.anchors| }

  /** The same event, recorded at whatever time. */
  predicate Same(a: LifeNode, b: LifeNode) { a.(created := b.created) == b }

  datatype LifeOutcome = LifeOutcome(life: Lifecycle, returned: bool)

  /** `_append`: node file, database row, head file; picks up what an earlier try left. */
  function Append(life: Lifecycle, desired: LifeNode, budget: nat): LifeOutcome {
    if life.anchors != [] && Same(Last(life.anchors), desired) then
      if budget == 0 then LifeOutcome(life, false) else LifeOutcome(life.(head := |life.anchors|), true)
    else if life.staged.Some? && !Same(life.staged.value, desired) then LifeOutcome(life, false)
    else
      var candidate := if life.staged.Some? then life.staged.value else desired;
      var anchored := Lifecycle(life.anchors + [candidate], None, life.head);
      if budget == 0 then LifeOutcome(life, false)
      else if budget == 1 then LifeOutcome(life.(staged := Some(candidate)), false)
      else if budget == 2 then LifeOutcome(anchored, false)
      else LifeOutcome(anchored.(head := |anchored.anchors|), true)
  }

  function InvalidNode(tip: LifeNode, evidence: nat, head: Node, created: nat): LifeNode {
    LifeNode(tip.generation, tip.selection, Invalidated(evidence, InventoryOf(tip.selection).sha), head, created)
  }

  /** `invalidate_current_locked_selection` */
  function Invalidate(life: Lifecycle, selection: Selection, evidence: nat, head: Node, created: nat, budget: nat): LifeOutcome {
    if life.anchors == [] then LifeOutcome(life, false)
    else
      var tip := Last(life.anchors);
      if tip.selection != selection then LifeOutcome(life, false)
      else if tip.event.Invalidated? then
        if tip.event.evidence == evidence && tip.event.inventory == InventoryOf(selection).sha && tip.head == head
        then Append(life, tip, budget) else LifeOutcome(life, false)
      else Append(life, InvalidNode(tip, evidence, head, created), budget)
  }

  function ReplacementNode(tip: LifeNode, selection: Selection, head: Node, created: nat): LifeNode {
    LifeNode(tip.generation + 1, selection, Activated, head, created)
  }

  /** `activate_replacement`, against the sealed chain `head`. */
  function ActivateReplacement(life: Lifecycle, selection: Selection, head: Node, created: nat, budget: nat): LifeOutcome {
    if life.anchors == [] then LifeOutcome(life, false)
    else
      var tip := Last(life.anchors);
      if tip.event.Activated? then
        if tip.generation > 1 && tip.selection == selection && tip.head == head then Append(life, tip, budget)
        else LifeOutcome(life, false)
      else if tip.head != head || InventoryOf(selection).sha in Elements(head) then LifeOutcome(life, false)
      else Append(life, ReplacementNode(tip, selection, head, created), budget)
  }

  /** `bootstrap_current_locked_selection` */
  function BootstrapSelection(life: Lifecycle, selection: Selection, head: Node, created: nat, budget: nat): LifeOutcome {
    if life.anchors != [] then
      if life.anchors[0].selection == selection && budget > 0 then LifeOutcome(life.(head := |life.anchors|), true)
      else LifeOutcome(life, false)
    else Append(life, LifeNode(1, selection, Activated, head, created), budget)
  }

  // ---- The tool and its neighbours ----

  function Register(registry: seq<Inventory>, inventory: Inventory): seq<Inventory> {
    if inventory in registry then registry else registry + [inventory]
  }

  /** `load_current_…_authority`: the sealed chain, whose development children are the
      registered ones. */
  function LoadCurrent(chain: Store, registry: seq<Inventory>): Option<Node> {
    if LoadSealed(chain).Some? && RegistryMatches(LoadSealed(chain).value, registry)
    then Some(ShasOf(LoadSealed(chain).value)) else None
  }

  /** One step of `main`; a refused or interrupted call ends the run. */
  function StepRun(s: State, p: Proc, created: nat, budget: nat): State
    requires p in s.runs
  {
    var run := s.runs[p];
    match run.stage
    case Loaded =>
      s.(registry := Register(s.registry, InventoryOf(run.selection)), runs := s.runs[p := run.(stage := Registered)])
    case Registered =>
      var out := AppendTo(s.chain, InventoryOf(run.selection), budget);
      s.(chain := out.store, runs := s.runs[p := run.(stage := if out.returned then Appended else Over)])
    case Appended =>
      var head := LoadCurrent(s.chain, s.registry);
      s.(runs := s.runs[p := run.(stage := if head.Some? then Verified(head.value) else Over)])
    case Verified(head) =>
      s.(life := Invalidate(s.life, run.selection, run.evidence, head, created, budget).life,
         runs := s.runs[p := run.(stage := Over)])
    case Over => s
  }

  function Apply(s: State, a: Action): State {
    match a
    case Begin(p, selection, evidence) =>
      if p !in s.runs && Strict(s.life) && s.life.anchors != [] && Last(s.life.anchors).selection == selection
      then s.(runs := s.runs[p := Run(selection, evidence, Loaded)]) else s
    case Step(p, created, budget) => if p in s.runs then StepRun(s, p, created, budget) else s
    case RegisterOther(inventory) => if inventory.development then s.(registry := Register(s.registry, inventory)) else s
    case AppendOther(inventory, budget) => s.(chain := AppendTo(s.chain, inventory, budget).store)
    case Bootstrap(selection, created, budget) =>
      if LoadCurrent(s.chain, s.registry).None? then s
      else s.(life := BootstrapSelection(s.life, selection, LoadCurrent(s.chain, s.registry).value, created, budget).life)
    case Replace(selection, created, budget) =>
      if LoadCurrent(s.chain, s.registry).None? then s
      else s.(life := ActivateReplacement(s.life, selection, LoadCurrent(s.chain, s.registry).value, created, budget).life)
  }

  function RunAll(s: State, schedule: seq<Action>): State {
    if schedule == [] then s else Apply(RunAll(s, schedule[..|schedule| - 1]), schedule[|schedule| - 1])
  }

  // ---- What every schedule keeps ----

  /** What the database lists is on disk, each child once. */
  ghost predicate ChainOk(chain: Store) {
    Distinct(chain.anchors) && forall i :: 0 <= i < |chain.anchors| ==> chain.anchors[i] in chain.children
  }

  /** Nodes are recorded against growing chains; an invalidated selection is in the chain it
      was recorded against, a replacement is not. */
  ghost predicate NodesOk(nodes: seq<LifeNode>, anchors: seq<Sha>) {
    HeadsGrow(nodes, anchors) && SelectionsOk(nodes) && Alternates(nodes)
  }

  ghost predicate HeadsGrow(nodes: seq<LifeNode>, anchors: seq<Sha>) {
    && (forall i, j :: 0 <= i < j < |nodes| ==> nodes[i].head <= nodes[j].head)
    && (forall i :: 0 <= i < |nodes| ==> nodes[i].head <= anchors)
  }

  ghost predicate SelectionsOk(nodes: seq<LifeNode>) {
    forall i :: 0 <= i < |nodes| ==> SelectionOk(nodes[i], i == 0)
  }

  ghost predicate SelectionOk(node: LifeNode, first: bool) {
    && (node.event.Invalidated? ==>
          node.event.inventory == InventoryOf(node.selection).sha && node.event.inventory in Elements(node.head))
    && (node.event.Activated? && !first ==> InventoryOf(node.selection).sha !in Elements(node.head))
  }

  ghost predicate Alternates(nodes: seq<LifeNode>) {
    && (nodes != [] ==> nodes[0].event.Activated? && nodes[0].generation == 1)
    && (forall i :: 0 < i < |nodes| ==>
          if nodes[i].event.Invalidated?
          then nodes[i - 1].event.Activated? && nodes[i].selection == nodes[i - 1].selection
               && nodes[i].generation == nodes[i - 1].generation
          else nodes[i - 1].event.Invalidated? && nodes[i].generation == nodes[i - 1].generation + 1)
  }

  /** A verified run holds the head of a chain that covers its selection, and that reaches at
      least as far as the chain its selection was activated against. */
  ghost predicate RunOk(s: State, run: Run) {
    && (run.stage.Appended? ==> InventoryOf(run.selection).sha in Elements(s.chain.anchors))
    && (run.stage.Verified? ==>
          run.stage.head <= s.chain.anchors && InventoryOf(run.selection).sha in Elements(run.stage.head)
          && ActivatedBelow(All(s.life), run.selection, run.stage.head))
  }

  ghost predicate ActivatedBelow(nodes: seq<LifeNode>, selection: Selection, head: Node) {
    forall i :: 0 <= i < |nodes| && nodes[i].selection == selection && nodes[i].event.Activated? ==> nodes[i].head <= head
  }

  ghost predicate RunsOk(s: State) {
    (forall p :: p in s.runs ==> RunOk(s, s.runs[p])) && (s.runs != map[] ==> s.life.anchors != [])
  }

  ghost predicate Inv(s: State) {
    ChainOk(s.chain) && NodesOk(All(s.life), s.chain.anchors) && s.life.head <= |s.life.anchors| && RunsOk(s)
  }

  // ---- The chain only grows ----

  lemma LoadedShas(chain: Store)
    requires LoadSealed(chain).Some?
    ensures ShasOf(LoadSealed(chain).value) == chain.anchors
    ensures ChainOk(chain) ==> Whole(chain)
  {
    var loaded := LoadSealed(chain).value;
    assert ShasOf(loaded) == chain.anchors;
    if ChainOk(chain) {
      forall i, j | 0 <= i < j < |loaded| ensures loaded[i].sha != loaded[j].sha {
        assert ShasOf(loaded)[i] != ShasOf(loaded)[j];
      }
    }
  }

  lemma ElementsGrow(shorter: Node, longer: Node)
    requires shorter <= longer
    ensures Elements(shorter) <= Elements(longer)
  {
    forall sha | sha in Elements(shorter) ensures sha in Elements(longer) {
      var i :| 0 <= i < |shorter| && shorter[i] == sha;
      assert longer[i] == sha;
    }
  }

  lemma AppendKeeps(chain: Store, child: Inventory, budget: nat)
    requires ChainOk(chain)
    ensures var out := AppendTo(chain, child, budget);
      && ChainOk(out.store) && chain.anchors <= out.store.anchors
      && (out.returned ==> child.sha in Elements(out.store.anchors))
  {
    var out := AppendTo(chain, child, budget);
    if LoadSealed(chain).Some? { LoadedShas(chain); }
    if out.store != chain {
      PrefixesGrow(chain.anchors, child.sha);
      forall i | 0 <= i < |chain.anchors| ensures chain.anchors[i] != child.sha {
        assert chain.anchors[i] in Elements(chain.anchors);
      }
    }
  }

  // ---- The lifecycle only grows ----

  /** `_append` leaves the node files alone or adds the desired one. */
  lemma AppendAddsOne(life: Lifecycle, desired: LifeNode, budget: nat)
    requires life.head <= |life.anchors|
    ensures var after := Append(life, desired, budget).life;
      && (All(after) == All(life) || (life.staged.None? && All(after) == All(life) + [desired]
                                      && !(life.anchors != [] && Same(Last(life.anchors), desired))))
      && life.anchors <= after.anchors && after.head <= |after.anchors|
  {
  }

  lemma InvalidationAdds(life: Lifecycle, run: Run, head: Node, created: nat, budget: nat, anchors: seq<Sha>)
    requires NodesOk(All(life), anchors) && life.head <= |life.anchors|
    requires head <= anchors && InventoryOf(run.selection).sha in Elements(head)
    requires ActivatedBelow(All(life), run.selection, head)
    ensures var after := Invalidate(life, run.selection, run.evidence, head, created, budget).life;
      && NodesOk(All(after), anchors) && life.anchors <= after.anchors && after.head <= |after.anchors|
      && (All(after) == All(life)
          || (life.anchors != [] && All(after) == All(life) + [InvalidNode(Last(life.anchors), run.evidence, head, created)]))
  {
    if life.anchors != [] {
      var tip := Last(life.anchors);
      AppendAddsOne(life, tip, budget);
      AppendAddsOne(life, InvalidNode(tip, run.evidence, head, created), budget);
      if life.staged.None? && tip.event.Activated? && tip.selection == run.selection {
        assert All(life)[|life.anchors| - 1] == tip;
        NodesExtend(All(life), InvalidNode(tip, run.evidence, head, created), anchors);
      }
    }
  }

  /** `node` may follow `nodes`. */
  ghost predicate MayFollow(nodes: seq<LifeNode>, node: LifeNode) {
    if nodes == [] then node.event.Activated? && node.generation == 1
    else if node.event.Invalidated?
    then Last(nodes).event.Activated? && node.selection == Last(nodes).selection && node.generation == Last(nodes).generation
    else Last(nodes).event.Invalidated? && node.generation == Last(nodes).generation + 1
  }

  lemma HeadsExtend(nodes: seq<LifeNode>, node: LifeNode, anchors: seq<Sha>)
    requires HeadsGrow(nodes, anchors) && node.head <= anchors && (nodes != [] ==> Last(nodes).head <= node.head)
    ensures HeadsGrow(nodes + [node], anchors)
  {
    var more := nodes + [node];
    forall i, j | 0 <= i < j < |more| ensures more[i].head <= more[j].head {
      if j == |nodes| && i < |nodes| - 1 {
        assert nodes[i].head <= Last(nodes).head;
      }
    }
  }

  lemma AlternatesExtend(nodes: seq<LifeNode>, node: LifeNode)
    requires Alternates(nodes) && MayFollow(nodes, node)
    ensures Alternates(nodes + [node])
  {
  }

  lemma NodesExtend(nodes: seq<LifeNode>, node: LifeNode, anchors: seq<Sha>)
    requires NodesOk(nodes, anchors) && node.head <= anchors && (nodes != [] ==> Last(nodes).head <= node.head)
    requires MayFollow(nodes, node) && SelectionOk(node, nodes == [])
    ensures NodesOk(nodes + [node], anchors)
  {
    HeadsExtend(nodes, node, anchors);
    AlternatesExtend(nodes, node);
  }

  lemma ReplacementIsOne(life: Lifecycle, selection: Selection, created: nat, budget: nat, head: Node)
    requires life.head <= |life.anchors|
    ensures var after := ActivateReplacement(life, selection, head, created, budget).life;
      && life.anchors <= after.anchors && after.head <= |after.anchors|
      && (All(after) == All(life)
          || (life.anchors != [] && life.staged.None? && Last(life.anchors).event.Invalidated? && Last(life.anchors).head == head
              && InventoryOf(selection).sha !in Elements(head)
              && All(after) == All(life) + [ReplacementNode(Last(life.anchors), selection, head, created)]))
  {
    if life.anchors != [] {
      AppendAddsOne(life, Last(life.anchors), budget);
      AppendAddsOne(life, ReplacementNode(Last(life.anchors), selection, head, created), budget);
    }
  }

  lemma ReplacementAdds(life: Lifecycle, selection: Selection, created: nat, budget: nat, anchors: seq<Sha>)
    requires NodesOk(All(life), anchors) && life.head <= |life.anchors|
    ensures NodesOk(All(ActivateReplacement(life, selection, anchors, created, budget).life), anchors)
  {
    var after := ActivateReplacement(life, selection, anchors, created, budget).life;
    ReplacementIsOne(life, selection, created, budget, anchors);
    if All(after) != All(life) {
      NodesExtend(All(life), ReplacementNode(Last(life.anchors), selection, anchors, created), anchors);
    }
  }

  lemma BootstrapAdds(life: Lifecycle, selection: Selection, created: nat, budget: nat, anchors: seq<Sha>)
    requires NodesOk(All(life), anchors) && life.head <= |life.anchors|
    ensures var after := BootstrapSelection(life, selection, anchors, created, budget).life;
      && NodesOk(All(after), anchors) && life.anchors <= after.anchors && after.head <= |after.anchors|
      && (life.anchors != [] ==> All(after) == All(life))
  {
    if life.anchors == [] {
      var desired := LifeNode(1, selection, Activated, anchors, created);
      AppendAddsOne(life, desired, budget);
      if life.staged.None? { NodesExtend(All(life), desired, anchors); }
    }
  }

  // ---- Every schedule ----

  /** The same lifecycle against a longer chain. */
  lemma NodesStay(nodes: seq<LifeNode>, before: seq<Sha>, after: seq<Sha>)
    requires NodesOk(nodes, before) && before <= after
    ensures NodesOk(nodes, after)
  {
  }

  lemma RunStays(s: State, t: State, run: Run)
    requires RunOk(s, run) && s.chain.anchors <= t.chain.anchors
    requires All(t.life) == All(s.life)
             || (exists node :: All(t.life) == All(s.life) + [node]
                   && (node.event.Invalidated? || InventoryOf(node.selection).sha !in Elements(s.chain.anchors)))
    ensures RunOk(t, run)
  {
    ElementsGrow(s.chain.anchors, t.chain.anchors);
    if run.stage.Verified? {
      ElementsGrow(run.stage.head, s.chain.anchors);
    }
  }

  lemma ChainStepKeeps(s: State, t: State)
    requires Inv(s) && ChainOk(t.chain) && s.chain.anchors <= t.chain.anchors && t.life == s.life && t.runs == s.runs
    ensures Inv(t)
  {
    NodesStay(All(s.life), s.chain.anchors, t.chain.anchors);
    forall p | p in t.runs ensures RunOk(t, t.runs[p]) {
      RunStays(s, t, s.runs[p]);
    }
  }

  lemma RunMoves(s: State, p: Proc, run: Run)
    requires Inv(s) && RunOk(s, run) && s.life.anchors != []
    ensures Inv(s.(runs := s.runs[p := run]))
  {
    var t := s.(runs := s.runs[p := run]);
    forall q | q in t.runs ensures RunOk(t, t.runs[q]) {
      if q == p {
        RunStays(s, t, run);
      } else {
        RunStays(s, t, s.runs[q]);
      }
    }
  }

  lemma LifeStepKeeps(s: State, life: Lifecycle)
    requires Inv(s) && NodesOk(All(life), s.chain.anchors) && life.head <= |life.anchors| && s.life.anchors <= life.anchors
    requires s.runs == map[] || All(life) == All(s.life)
             || (exists node :: All(life) == All(s.life) + [node]
                   && (node.event.Invalidated? || InventoryOf(node.selection).sha !in Elements(s.chain.anchors)))
    ensures Inv(s.(life := life))
  {
    var t := s.(life := life);
    forall p | p in t.runs ensures RunOk(t, t.runs[p]) {
      RunStays(s, t, s.runs[p]);
    }
  }

  lemma StepRunKeeps(s: State, p: Proc, created: nat, budget: nat)
    requires Inv(s) && p in s.runs
    ensures Inv(StepRun(s, p, created, budget))
  {
    var run := s.runs[p];
    match run.stage
    case Loaded =>
      var t := s.(registry := Register(s.registry, InventoryOf(run.selection)));
      ChainStepKeeps(s, t);
      RunMoves(t, p, run.(stage := Registered));
    case Registered =>
      var out := AppendTo(s.chain, InventoryOf(run.selection), budget);
      AppendKeeps(s.chain, InventoryOf(run.selection), budget);
      ChainStepKeeps(s, s.(chain := out.store));
      RunMoves(s.(chain := out.store), p, run.(stage := if out.returned then Appended else Over));
    case Appended => VerifyMoves(s, p);
    case Verified(head) =>
      InvalidationAdds(s.life, run, head, created, budget, s.chain.anchors);
      var life := Invalidate(s.life, run.selection, run.evidence, head, created, budget).life;
      LifeStepKeeps(s, life);
      RunMoves(s.(life := life), p, run.(stage := Over));
    case Over =>
  }

  lemma VerifyMoves(s: State, p: Proc)
    requires Inv(s) && p in s.runs && s.runs[p].stage.Appended?
    ensures Inv(StepRun(s, p, 0, 0))
  {
    var run := s.runs[p];
    var head := LoadCurrent(s.chain, s.registry);
    if head.Some? {
      LoadedShas(s.chain);
      assert head.value == s.chain.anchors;
      RunMoves(s, p, run.(stage := Verified(head.value)));
    } else {
      RunMoves(s, p, run.(stage := Over));
    }
  }

  lemma StepKeeps(s: State, a: Action)
    requires Inv(s)
    ensures Inv(Apply(s, a))
  {
    match a
    case Begin(p, selection, evidence) =>
      if Apply(s, a) != s { RunMoves(s, p, Run(selection, evidence, Loaded)); }
    case Step(p, created, budget) => if p in s.runs { StepRunKeeps(s, p, created, budget); }
    case RegisterOther(inventory) => ChainStepKeeps(s, s.(registry := Register(s.registry, inventory)));
    case AppendOther(inventory, budget) =>
      AppendKeeps(s.chain, inventory, budget);
      ChainStepKeeps(s, Apply(s, a));
    case Bootstrap(selection, created, budget) =>
      if LoadCurrent(s.chain, s.registry).Some? {
        LoadedShas(s.chain);
        BootstrapAdds(s.life, selection, created, budget, s.chain.anchors);
        LifeStepKeeps(s, Apply(s, a).life);
      }
    case Replace(selection, created, budget) =>
      if LoadCurrent(s.chain, s.registry).Some? {
        LoadedShas(s.chain);
        ReplacementIsOne(s.life, selection, created, budget, s.chain.anchors);
        ReplacementAdds(s.life, selection, created, budget, s.chain.anchors);
        LifeStepKeeps(s, Apply(s, a).life);
      }
  }

  /** Before any selection was ever locked. */
  ghost predicate Initial(s: State) {
    Whole(s.chain) && s.life == Lifecycle([], None, 0) && s.runs == map[]
  }

  lemma InitialIsOk(s: State)
    requires Initial(s)
    ensures Inv(s)
  {
    if s.chain != EMPTY {
      LoadedIsWhole(s.chain);
      var chain := ChainOf(s.chain);
      ChildrenAreNamed(chain);
      forall i | 0 <= i < |s.chain.anchors| ensures s.chain.anchors[i] in s.chain.children {
        assert ShasOf(chain)[i] in Elements(ShasOf(chain));
      }
    }
  }

  lemma {:induction false} RunKeeps(s: State, schedule: seq<Action>)
    requires Initial(s)
    ensures Inv(RunAll(s, schedule))
  {
    if schedule == [] {
      InitialIsOk(s);
    } else {
      RunKeeps(s, schedule[..|schedule| - 1]);
      StepKeeps(RunAll(s, schedule[..|schedule| - 1]), schedule[|schedule| - 1]);
    }
  }

  // ---- What retirement promises, over every schedule ----

  /** Whatever was interrupted: a selection is recorded as invalidated only when its inventory
      is in the exclusion chain, on disk and in the database. */
  lemma InvalidatedIsExcluded(s: State, schedule: seq<Action>, i: nat)
    requires Initial(s)
    requires var t := RunAll(s, schedule); i < |All(t.life)| && All(t.life)[i].event.Invalidated?
    ensures var t := RunAll(s, schedule);
      var node := All(t.life)[i];
      var sha := InventoryOf(node.selection).sha;
      && node.event.inventory == sha && sha in t.chain.children
      && node.head <= t.chain.anchors && sha in Elements(node.head)
  {
    RunKeeps(s, schedule);
    var t := RunAll(s, schedule);
    var node := All(t.life)[i];
    assert SelectionOk(node, i == 0);
    ElementsGrow(node.head, t.chain.anchors);
    var k :| 0 <= k < |t.chain.anchors| && t.chain.anchors[k] == node.event.inventory;
  }

  lemma StepRunGrows(s: State, p: Proc, created: nat, budget: nat)
    requires Inv(s) && p in s.runs
    ensures s.chain.anchors <= StepRun(s, p, created, budget).chain.anchors
    ensures s.life.anchors <= StepRun(s, p, created, budget).life.anchors
  {
    var run := s.runs[p];
    if run.stage.Registered? {
      AppendKeeps(s.chain, InventoryOf(run.selection), budget);
    } else if run.stage.Verified? {
      InvalidationAdds(s.life, run, run.stage.head, created, budget, s.chain.anchors);
    }
  }

  lemma StepGrows(s: State, a: Action)
    requires Inv(s)
    ensures s.chain.anchors <= Apply(s, a).chain.anchors && s.life.anchors <= Apply(s, a).life.anchors
  {
    match a
    case Step(p, created, budget) => if p in s.runs { StepRunGrows(s, p, created, budget); }
    case AppendOther(inventory, budget) => AppendKeeps(s.chain, inventory, budget);
    case Bootstrap(selection, created, budget) =>
      if LoadCurrent(s.chain, s.registry).Some? {
        LoadedShas(s.chain);
        BootstrapAdds(s.life, selection, created, budget, s.chain.anchors);
      }
    case Replace(selection, created, budget) =>
      if LoadCurrent(s.chain, s.registry).Some? {
        LoadedShas(s.chain);
        ReplacementIsOne(s.life, selection, created, budget, s.chain.anchors);
      }
    case _ =>
  }

  ghost predicate Grown(before: State, after: State) {
    before.chain.anchors <= after.chain.anchors && before.life.anchors <= after.life.anchors
  }

  lemma RunStepGrows(s: State, schedule: seq<Action>)
    requires Initial(s) && schedule != []
    ensures Grown(RunAll(s, schedule[..|schedule| - 1]), RunAll(s, schedule))
  {
    RunKeeps(s, schedule[..|schedule| - 1]);
    StepGrows(RunAll(s, schedule[..|schedule| - 1]), schedule[|schedule| - 1]);
  }

  lemma {:induction false} RunGrows(s: State, first: seq<Action>, rest: seq<Action>)
    requires Initial(s)
    ensures Grown(RunAll(s, first), RunAll(s, first + rest))
  {
    var all := first + rest;
    if rest == [] {
      assert all == first;
    } else {
      assert all[..|all| - 1] == first + rest[..|rest| - 1];
      RunGrows(s, first, rest[..|rest| - 1]);
      RunStepGrows(s, all);
    }
  }

  /** Both histories are append-only, and the exclusion chain repeats nothing. */
  lemma HistoriesGrow(s: State, first: seq<Action>, rest: seq<Action>)
    requires Initial(s)
    ensures var t, u := RunAll(s, first), RunAll(s, first + rest);
      t.chain.anchors <= u.chain.anchors && t.life.anchors <= u.life.anchors && Distinct(u.chain.anchors)
  {
    RunGrows(s, first, rest);
    RunKeeps(s, first + rest);
  }

  /** What loads is the whole history: no child of an earlier chain is ever missing. */
  lemma LoadedChainIsTheHistory(s: State, schedule: seq<Action>)
    requires Initial(s) && LoadCurrent(RunAll(s, schedule).chain, RunAll(s, schedule).registry).Some?
    ensures var t := RunAll(s, schedule);
      && ShasOf(ChainOf(t.chain)) == t.chain.anchors && DistinctShas(ChainOf(t.chain))
      && (forall v :: v in ChainOf(t.chain) && v.development <==> v in t.registry)
  {
    RunKeeps(s, schedule);
    LoadedShas(RunAll(s, schedule).chain);
  }

  /** Activations and retirements alternate, and a retired selection is never active again. */
  lemma RetiredForGood(s: State, schedule: seq<Action>, i: nat, j: nat)
    requires Initial(s)
    requires var nodes := All(RunAll(s, schedule).life);
      i < j < |nodes| && nodes[i].event.Invalidated? && nodes[j].event.Activated?
    ensures var nodes := All(RunAll(s, schedule).life);
      nodes[j].selection != nodes[i].selection && i > 0 && nodes[i - 1].selection == nodes[i].selection
  {
    RunKeeps(s, schedule);
    var nodes := All(RunAll(s, schedule).life);
    assert SelectionOk(nodes[i], i == 0) && SelectionOk(nodes[j], false);
    ElementsGrow(nodes[i].head, nodes[j].head);
    assert Alternates(nodes) && i > 0;
  }

  // ---- Interrupted invalidations ----

  /** An invalidation that was cut short between its first and its last write is refused when
      the tool is run again, because the tool loads the lifecycle strictly; the store itself
      would have completed it. */
  lemma InterruptedInvalidation(s: State, selection: Selection, evidence: nat, head: Node, created: nat, later: nat, writes: nat)
    requires Strict(s.life) && s.life.anchors != []
    requires Last(s.life.anchors).selection == selection && Last(s.life.anchors).event.Activated?
    ensures var cut := s.(life := Invalidate(s.life, selection, evidence, head, created, writes).life);
      && (Strict(cut.life) <==> writes == 0 || writes >= 3)
      && (!Strict(cut.life) ==>
            (forall p, x, e :: Apply(cut, Begin(p, x, e)) == cut)
            && var healed := Invalidate(cut.life, selection, evidence, head, later, 3);
               healed.returned && Strict(healed.life)
               && healed.life.anchors == s.life.anchors + [InvalidNode(Last(s.life.anchors), evidence, head, created)])
  {
    var desired := InvalidNode(Last(s.life.anchors), evidence, head, created);
    var cut := Invalidate(s.life, selection, evidence, head, created, writes).life;
    if writes == 2 {
      assert cut.anchors == s.life.anchors + [desired] && Last(cut.anchors) == desired;
    }
  }

  // ---- The retirement tool ----

  function WithInventory(chain: seq<Inventory>, inventory: Inventory): seq<Inventory> {
    if inventory.sha in Elements(ShasOf(chain)) then chain else chain + [inventory]
  }

  /** The registry and the chain agree once the selection's inventory is in both. */
  predicate Ready(chain: Store, registry: seq<Inventory>, selection: Selection) {
    var inventory := InventoryOf(selection);
    !(chain != EMPTY && LoadSealed(chain).None?)
    && RegistryMatches(WithInventory(ChainOf(chain), inventory), Register(registry, inventory))
  }

  /** The selection may be retired on this evidence: it is the tip, and if it was retired
      before, then on the same evidence and with no child appended since. */
  predicate Retirable(life: Lifecycle, selection: Selection, evidence: nat, anchors: seq<Sha>) {
    && Strict(life) && life.anchors != []
    && var tip := Last(life.anchors);
       tip.selection == selection
       && (tip.event.Activated? || (tip.event.evidence == evidence && tip.head == anchors))
  }

  lemma InventoryAdded(chain: Store, selection: Selection)
    requires ChainOk(chain) && !(chain != EMPTY && LoadSealed(chain).None?)
    ensures var inventory := InventoryOf(selection);
      var out := AppendTo(chain, inventory, 4);
      && out.returned && LoadSealed(out.store).Some?
      && ChainOf(out.store) == WithInventory(ChainOf(chain), inventory)
      && ShasOf(ChainOf(out.store)) == out.store.anchors && inventory.sha in Elements(out.store.anchors)
      && (inventory.sha in Elements(chain.anchors) ==> out.store == chain)
  {
    var inventory := InventoryOf(selection);
    if LoadSealed(chain).Some? { LoadedShas(chain); }
    AppendExtends(chain, inventory, 4);
    AppendKeeps(chain, inventory, 4);
    var out := AppendTo(chain, inventory, 4);
    assert ChainOf(out.store) != [];
    LoadedShas(out.store);
  }

  lemma InvalidateExactly(life: Lifecycle, selection: Selection, evidence: nat, head: Node, created: nat, anchors: seq<Sha>)
    requires Strict(life) && life.anchors != [] && Last(life.anchors).selection == selection && NodesOk(All(life), anchors)
    ensures var tip := Last(life.anchors);
      var out := Invalidate(life, selection, evidence, head, created, 3);
      && (out.returned <==> tip.event.Activated? || (tip.event.evidence == evidence && tip.head == head))
      && (out.returned ==>
            Retirable(out.life, selection, evidence, head) && Last(out.life.anchors).event.Invalidated?
            && Last(out.life.anchors).head == head)
      && (tip.event.Invalidated? ==> out.life == life)
  {
    assert All(life)[|life.anchors| - 1] == Last(life.anchors);
    assert SelectionOk(Last(life.anchors), |life.anchors| == 1);
  }

  class RetirementTool {
    var chain: Store
    var registry: seq<Inventory>
    var life: Lifecycle

    constructor (c: Store, r: seq<Inventory>, l: Lifecycle)
      ensures chain == c && registry == r && life == l
    {
      chain, registry, life := c, r, l;
    }

    /** Register the inventory, append it to the chain, and load the whole chain. */
    method ExtendChain(selection: Selection) returns (head: Option<Node>)
      requires ChainOk(chain)
      modifies this`chain, this`registry
      ensures registry == Register(old(registry), InventoryOf(selection))
      ensures chain == AppendTo(old(chain), InventoryOf(selection), 4).store
      ensures ChainOk(chain) && old(chain.anchors) <= chain.anchors
      ensures head.Some? <==> old(Ready(chain, registry, selection))
      ensures head.Some? ==>
                head.value == chain.anchors && InventoryOf(selection).sha in Elements(chain.anchors)
                && Ready(chain, registry, selection)
      ensures InventoryOf(selection).sha in Elements(old(chain.anchors)) ==> chain == old(chain)
    {
      var inventory := InventoryOf(selection);
      registry := Register(registry, inventory);
      AppendKeeps(chain, inventory, 4);
      if chain == EMPTY || LoadSealed(chain).Some? { InventoryAdded(chain, selection); }
      var out := AppendTo(chain, inventory, 4);
      chain := out.store;
      if !out.returned { return None; }
      return LoadCurrent(chain, registry);
    }

    /** `main`, nothing interrupting it: it succeeds exactly when the selection may be retired
        and the chain can be extended, and running it again then succeeds and changes nothing. */
    method Retire(selection: Selection, evidence: nat, created: nat) returns (ok: bool)
      requires ChainOk(chain) && NodesOk(All(life), chain.anchors)
      modifies this
      ensures ok <==> Retirable(old(life), selection, evidence, old(chain.anchors)) && old(Ready(chain, registry, selection))
      ensures ok ==> Retirable(life, selection, evidence, chain.anchors) && Ready(chain, registry, selection)
      ensures ok ==> Last(life.anchors).event.Invalidated? && Last(life.anchors).head == chain.anchors
      ensures ok ==> InventoryOf(selection).sha in Elements(chain.anchors) && InventoryOf(selection) in registry
      ensures ok && old(Last(life.anchors).event.Invalidated?) ==> chain == old(chain) && life == old(life)
      ensures ChainOk(chain)
    {
      if !Strict(life) || life.anchors == [] || Last(life.anchors).selection != selection { return false; }
      RetiredIsCovered(life, chain.anchors);
      var head := ExtendChain(selection);
      if head.None? { return false; }
      InvalidateExactly(life, selection, evidence, head.value, created, old(chain.anchors));
      var recorded := Invalidate(life, selection, evidence, head.value, created, 3);
      life := recorded.life;
      return recorded.returned;
    }
  }

  lemma RetiredIsCovered(life: Lifecycle, anchors: seq<Sha>)
    requires Strict(life) && life.anchors != [] && NodesOk(All(life), anchors)
    ensures Last(life.anchors).event.Invalidated? ==> InventoryOf(Last(life.anchors).selection).sha in Elements(anchors)
  {
    assert All(life)[|life.anchors| - 1] == Last(life.anchors);
    assert SelectionOk(Last(life.anchors), |life.anchors| == 1);
    ElementsGrow(Last(life.anchors).head, anchors);
  }
}
