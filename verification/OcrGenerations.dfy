/** Building and activating OCR generations under one runtime root.  Any number of bootstrap
    runs may overlap; every step completes, raises without effect, or is the last one of a
    killed process.  A run builds in a directory of its own and moves the pointer last. */
module OcrGenerations {
  import opened Sequences

  type Id = nat
  type Proc = nat

  datatype Kind = Cpu | Gpu
  datatype Request = OnlyCpu | OnlyGpu | Both

  /** The sealed manifest names the content of every part; a number stands for a digest. */
  datatype Manifest = Manifest(gpu: bool, runtimes: map<Kind, nat>, models: nat, qualified: set<Kind>)

  datatype Generation = Generation(
    runtimes: map<Kind, nat>,
    models: Option<nat>,
    qualified: Option<set<Kind>>,
    manifest: Option<Manifest>)

  datatype Pointer = Pointer(id: Id, manifest: Manifest)

  /** The layout used before there were generations. */
  datatype Legacy = Absent | Broken | Present(gpu: bool, models: nat)

  datatype Root = Root(
    generations: map<Id, Generation>,
    pointer: Option<Pointer>,
    legacy: Legacy,
    staging: map<Id, set<Kind>>)      // qualification output, one directory a run

  datatype Composition = Composition(kinds: set<Kind>, models: nat)
  datatype Resolved = Nothing | Refused | Active(composition: Composition)

  datatype Stage =
    | Starting | Made | CpuBuilt | Built | Staged | Qualified | Published | Sealed
    | Leaving                          // in the `finally` block
    | Gone
    | Killed

  datatype Process = Process(id: Id, kinds: set<Kind>, models: Option<nat>, stage: Stage, activated: bool)

  datatype State = State(root: Root, procs: map<Proc, Process>)

  datatype Action =
    | Begin(p: Proc, request: Request, id: Id, provision: Option<nat>)
    | Step(p: Proc, content: nat, reports: set<Kind>)
    | Fail(p: Proc)
    | Clean(p: Proc)
    | Kill(p: Proc)

  // ---- The layout ----

  function Kinds(gpu: bool): set<Kind> { if gpu then {Cpu, Gpu} else {Cpu} }

  /** `_load_generation`: the manifest is the expected one and every part is the sealed one. */
  predicate Loads(g: Generation, m: Manifest) {
    && g.manifest == Some(m)
    && m.runtimes.Keys == Kinds(m.gpu)
    && g.runtimes == m.runtimes
    && g.models == Some(m.models)
    && g.qualified == Some(m.qualified)
    && m.qualified == Kinds(m.gpu)
  }

  function Resolve(root: Root): Resolved {
    match root.pointer
    case Some(pointer) =>
      if pointer.id in root.generations && Loads(root.generations[pointer.id], pointer.manifest)
      then Active(Composition(Kinds(pointer.manifest.gpu), pointer.manifest.models)) else Refused
    case None =>
      match root.legacy
      case Absent => Nothing
      case Broken => Refused
      case Present(gpu, models) => Active(Composition(Kinds(gpu), models))
  }

  predicate GpuActive(root: Root) { Resolve(root).Active? && Gpu in Resolve(root).composition.kinds }

  /** `_runtime_kinds_for_request` */
  function KindsForRequest(request: Request, active: Resolved): Option<set<Kind>> {
    if active.Refused? || request.OnlyGpu? then None
    else if request.OnlyCpu? && active.Active? && Gpu in active.composition.kinds then None
    else Some(Kinds(request.Both?))
  }

  // ---- The steps of a run, each on the root; `None` is a raise without effect ----

  function Make(root: Root, id: Id): Option<Root> {
    if id in root.generations then None
    else Some(root.(generations := root.generations[id := Generation(map[], None, None, None)]))
  }

  function Build(root: Root, id: Id, kind: Kind, content: nat): Option<Root> {
    if id !in root.generations || kind in root.generations[id].runtimes then None
    else
      var g := root.generations[id];
      Some(root.(generations := root.generations[id := g.(runtimes := g.runtimes[kind := content])]))
  }

  function StageModels(root: Root, id: Id, models: Option<nat>): Option<Root> {
    if id !in root.generations || models.None? || root.generations[id].models.Some? then None
    else Some(root.(generations := root.generations[id := root.generations[id].(models := models)]))
  }

  function Qualify(root: Root, id: Id, reports: set<Kind>): Option<Root> {
    Some(root.(staging := root.staging[id := reports]))
  }

  function PublishQualification(root: Root, id: Id, kinds: set<Kind>): Option<Root> {
    if id !in root.generations || id !in root.staging || root.staging[id] != kinds
       || root.generations[id].qualified.Some? then None
    else Some(root.(generations := root.generations[id := root.generations[id].(qualified := Some(kinds))]))
  }

  function Seal(root: Root, id: Id, gpu: bool): Option<Root> {
    if id !in root.generations then None
    else
      var g := root.generations[id];
      if g.models.None? || g.qualified.None? || !(Kinds(gpu) <= g.runtimes.Keys) then None
      else
        var m := Manifest(gpu, map k | k in g.runtimes && k in Kinds(gpu) :: g.runtimes[k], g.models.value, g.qualified.value);
        Some(root.(generations := root.generations[id := g.(manifest := Some(m))]))
  }

  function Activate(root: Root, id: Id): Option<Root> {
    if id !in root.generations || root.generations[id].manifest.None?
       || !Loads(root.generations[id], root.generations[id].manifest.value) then None
    else Some(root.(pointer := Some(Pointer(id, root.generations[id].manifest.value))))
  }

  /** The `finally` block. */
  function CleanUp(root: Root, id: Id, activated: bool): Root {
    root.(staging := root.staging - {id}, generations := if activated then root.generations else root.generations - {id})
  }

  function StepRoot(root: Root, pr: Process, content: nat, reports: set<Kind>): Option<Root> {
    match pr.stage
    case Starting => Make(root, pr.id)
    case Made => Build(root, pr.id, Cpu, content)
    case CpuBuilt => Build(root, pr.id, Gpu, content)
    case Built => StageModels(root, pr.id, pr.models)
    case Staged => Qualify(root, pr.id, reports)
    case Qualified => PublishQualification(root, pr.id, pr.kinds)
    case Published => Seal(root, pr.id, Gpu in pr.kinds)
    case Sealed => Activate(root, pr.id)
    case _ => None
  }

  function NextStage(stage: Stage, kinds: set<Kind>): Stage {
    match stage
    case Starting => Made
    case Made => if Gpu in kinds then CpuBuilt else Built
    case CpuBuilt => Built
    case Built => Staged
    case Staged => Qualified
    case Qualified => Published
    case Published => Sealed
    case Sealed => Leaving
    case other => other
  }

  predicate InTry(stage: Stage) { !stage.Leaving? && !stage.Gone? && !stage.Killed? }
  predicate Live(stage: Stage) { !stage.Gone? && !stage.Killed? }

  function BeginStep(s: State, p: Proc, request: Request, id: Id, provision: Option<nat>): State {
    var active := Resolve(s.root);
    var kinds := KindsForRequest(request, active);
    if p in s.procs || kinds.None? then s
    else
      var models := if provision.Some? then provision else if active.Active? then Some(active.composition.models) else None;
      s.(procs := s.procs[p := Process(id, kinds.value, models, Starting, false)])
  }

  function Apply(s: State, a: Action): State {
    if a.Begin? then BeginStep(s, a.p, a.request, a.id, a.provision)
    else if a.p !in s.procs then s
    else
      var pr := s.procs[a.p];
      match a
      case Step(p, content, reports) =>
        if !InTry(pr.stage) then s
        else
          (match StepRoot(s.root, pr, content, reports)
           case None => s.(procs := s.procs[p := pr.(stage := Leaving)])
           case Some(root) =>
             State(root, s.procs[p := pr.(stage := NextStage(pr.stage, pr.kinds), activated := pr.stage.Sealed?)]))
      case Fail(p) => if InTry(pr.stage) then s.(procs := s.procs[p := pr.(stage := Leaving)]) else s
      case Clean(p) =>
        if pr.stage.Leaving? then State(CleanUp(s.root, pr.id, pr.activated), s.procs[p := pr.(stage := Gone)]) else s
      case Kill(p) => if Live(pr.stage) then s.(procs := s.procs[p := pr.(stage := Killed)]) else s
  }

  function Run(s: State, schedule: seq<Action>): State {
    if schedule == [] then s else Apply(Run(s, schedule[..|schedule| - 1]), schedule[|schedule| - 1])
  }

  // ---- Fresh identities ----

  predicate FreshId(s: State, id: Id) {
    id !in s.root.generations && id !in s.root.staging && forall p :: p in s.procs ==> s.procs[p].id != id
  }

  predicate FreshAction(s: State, a: Action) { a.Begin? ==> FreshId(s, a.id) }

  /** Every run of the schedule draws an identity nothing in the root carries yet. */
  predicate FreshIds(s: State, schedule: seq<Action>) {
    schedule == []
    || (FreshIds(s, schedule[..|schedule| - 1])
        && FreshAction(Run(s, schedule[..|schedule| - 1]), schedule[|schedule| - 1]))
  }

  // ---- What every schedule keeps ----

  predicate PointerOk(root: Root) {
    root.pointer.Some? ==>
      root.pointer.value.id in root.generations && Loads(root.generations[root.pointer.value.id], root.pointer.value.manifest)
  }

  /** A run's directory holds what its stage says. */
  predicate StageOk(root: Root, pr: Process) {
    && pr.kinds == Kinds(Gpu in pr.kinds)
    && (pr.stage.Starting? ==> pr.id !in root.generations && pr.id !in root.staging)
    && (InTry(pr.stage) ==> !pr.activated)
    && (InTry(pr.stage) && !pr.stage.Starting? ==> pr.id in root.generations && ContentOk(root, pr, root.generations[pr.id]))
    && (pr.activated ==> pr.id in root.generations)
    && (pr.stage.Gone? ==> pr.id !in root.staging && (pr.id in root.generations ==> pr.activated))
  }

  predicate ContentOk(root: Root, pr: Process, g: Generation) {
    match pr.stage
    case Made => g == Generation(map[], None, None, None)
    case CpuBuilt => g.runtimes.Keys == {Cpu} && g.models.None? && g.qualified.None? && Gpu in pr.kinds
    case Built => g.runtimes.Keys == pr.kinds && g.models.None? && g.qualified.None?
    case Staged => g.runtimes.Keys == pr.kinds && g.models.Some? && g.qualified.None?
    case Qualified => g.runtimes.Keys == pr.kinds && g.models.Some? && g.qualified.None? && pr.id in root.staging
    case Published => g.runtimes.Keys == pr.kinds && g.models.Some? && g.qualified == Some(pr.kinds)
    case Sealed => g.manifest.Some? && Loads(g, g.manifest.value) && g.manifest.value.gpu == (Gpu in pr.kinds)
    case _ => true
  }

  predicate NotActive(root: Root, pr: Process) {
    !pr.activated && root.pointer.Some? ==> root.pointer.value.id != pr.id
  }

  ghost predicate ProcsOk(s: State) {
    && (forall p :: p in s.procs ==> StageOk(s.root, s.procs[p]) && NotActive(s.root, s.procs[p]))
    && (forall p, q :: p in s.procs && q in s.procs && p != q ==> s.procs[p].id != s.procs[q].id)
  }

  ghost predicate Inv(s: State) { PointerOk(s.root) && ProcsOk(s) }

  /** Only the entries named `id` may differ. */
  ghost predicate SameElsewhere(before: Root, after: Root, id: Id) {
    && before.legacy == after.legacy
    && (forall j :: j != id ==> (j in before.generations <==> j in after.generations))
    && (forall j :: j != id && j in before.generations ==> before.generations[j] == after.generations[j])
    && (forall j :: j != id ==> (j in before.staging <==> j in after.staging))
    && (forall j :: j != id && j in before.staging ==> before.staging[j] == after.staging[j])
  }

  lemma StepStaysHome(root: Root, pr: Process, content: nat, reports: set<Kind>)
    requires StepRoot(root, pr, content, reports).Some?
    ensures var after := StepRoot(root, pr, content, reports).value;
      SameElsewhere(root, after, pr.id)
      && (pr.stage.Sealed? || after.pointer == root.pointer)
      && (pr.stage.Sealed? ==> after == root.(pointer := after.pointer) && after.pointer.Some? && after.pointer.value.id == pr.id)
  {
  }

  /** What a step does to the run's own directory. */
  lemma StepAdvances(root: Root, pr: Process, content: nat, reports: set<Kind>)
    requires StageOk(root, pr) && InTry(pr.stage) && StepRoot(root, pr, content, reports).Some?
    ensures var after := StepRoot(root, pr, content, reports).value;
      StageOk(after, pr.(stage := NextStage(pr.stage, pr.kinds), activated := pr.stage.Sealed?))
  {
  }

  /** Another run's directory, and the active one, are as they were. */
  lemma OthersStay(before: Root, after: Root, id: Id, pr: Process)
    requires SameElsewhere(before, after, id) && pr.id != id && StageOk(before, pr)
    ensures StageOk(after, pr)
  {
  }

  lemma PointerStays(before: Root, after: Root, id: Id)
    requires SameElsewhere(before, after, id) && PointerOk(before) && after.pointer == before.pointer
    requires before.pointer.Some? ==> before.pointer.value.id != id
    ensures PointerOk(after)
  {
  }

  /** The state after run `p` moved to `pr` and the root to `after`. */
  function Moved(s: State, p: Proc, after: Root, pr: Process): State { State(after, s.procs[p := pr]) }

  /** A change that stays in the run's own directory and leaves the pointer alone. */
  lemma MoveKeeps(s: State, p: Proc, after: Root, pr: Process)
    requires Inv(s) && p in s.procs && pr.id == s.procs[p].id && !s.procs[p].activated && !pr.activated
    requires SameElsewhere(s.root, after, pr.id) && after.pointer == s.root.pointer && StageOk(after, pr)
    ensures Inv(Moved(s, p, after, pr))
  {
    PointerStays(s.root, after, pr.id);
    forall q | q in s.procs && q != p ensures StageOk(after, s.procs[q]) {
      OthersStay(s.root, after, pr.id, s.procs[q]);
    }
  }

  lemma ActivateKeeps(s: State, p: Proc, after: Root)
    requires Inv(s) && p in s.procs && s.procs[p].stage.Sealed? && Activate(s.root, s.procs[p].id) == Some(after)
    ensures Inv(Moved(s, p, after, s.procs[p].(stage := Leaving, activated := true)))
  {
    forall q | q in s.procs && q != p ensures StageOk(after, s.procs[q]) {
      OthersStay(s.root, after, s.procs[p].id, s.procs[q]);
    }
  }

  lemma LeaveKeeps(s: State, p: Proc, stage: Stage)
    requires Inv(s) && p in s.procs && (stage.Leaving? || stage.Killed?)
    ensures Inv(s.(procs := s.procs[p := s.procs[p].(stage := stage)]))
  {
  }

  lemma CleanKeeps(s: State, p: Proc)
    requires Inv(s) && p in s.procs && s.procs[p].stage.Leaving?
    ensures Inv(Moved(s, p, CleanUp(s.root, s.procs[p].id, s.procs[p].activated), s.procs[p].(stage := Gone)))
  {
    var after := CleanUp(s.root, s.procs[p].id, s.procs[p].activated);
    forall q | q in s.procs && q != p ensures StageOk(after, s.procs[q]) {
      OthersStay(s.root, after, s.procs[p].id, s.procs[q]);
    }
  }

  lemma BeginKeeps(s: State, a: Action)
    requires Inv(s) && a.Begin? && FreshAction(s, a)
    ensures Inv(Apply(s, a))
  {
  }

  lemma StepKeeps(s: State, a: Action)
    requires Inv(s) && FreshAction(s, a)
    ensures Inv(Apply(s, a))
  {
    if a.Begin? {
      BeginKeeps(s, a);
    } else if a.p in s.procs {
      var p, pr := a.p, s.procs[a.p];
      match a
      case Step(_, content, reports) =>
        if InTry(pr.stage) {
          if StepRoot(s.root, pr, content, reports).None? {
            LeaveKeeps(s, p, Leaving);
          } else if pr.stage.Sealed? {
            ActivateKeeps(s, p, StepRoot(s.root, pr, content, reports).value);
          } else {
            StepStaysHome(s.root, pr, content, reports);
            StepAdvances(s.root, pr, content, reports);
            MoveKeeps(s, p, StepRoot(s.root, pr, content, reports).value, pr.(stage := NextStage(pr.stage, pr.kinds)));
          }
        }
      case Fail(_) => LeaveKeeps(s, p, Leaving);
      case Clean(_) => if pr.stage.Leaving? { CleanKeeps(s, p); }
      case Kill(_) => LeaveKeeps(s, p, Killed);
    }
  }

  lemma {:induction false} RunKeeps(s: State, schedule: seq<Action>)
    requires Inv(s) && FreshIds(s, schedule)
    ensures Inv(Run(s, schedule))
  {
    if schedule != [] {
      RunKeeps(s, schedule[..|schedule| - 1]);
      StepKeeps(Run(s, schedule[..|schedule| - 1]), schedule[|schedule| - 1]);
    }
  }

  /** A root no run has touched yet. */
  predicate Initial(s: State) { PointerOk(s.root) && s.procs == map[] }

  /** Whatever fails or is killed, and however runs overlap: the active pointer names a
      complete generation, and its qualification covers exactly its runtimes. */
  lemma ActiveIsComplete(s: State, schedule: seq<Action>)
    requires Initial(s) && FreshIds(s, schedule)
    requires Run(s, schedule).root.pointer.Some?
    ensures var root := Run(s, schedule).root;
      var pointer := root.pointer.value;
      && pointer.id in root.generations
      && Loads(root.generations[pointer.id], pointer.manifest)
      && root.generations[pointer.id].qualified == Some(root.generations[pointer.id].runtimes.Keys)
  {
    RunKeeps(s, schedule);
  }

  // ---- What was active once is never touched again ----

  /** Generation `id` is there, and no run that might still clean it up owns it. */
  ghost predicate Settled(s: State, id: Id) {
    id in s.root.generations && forall p :: p in s.procs && s.procs[p].id == id ==> s.procs[p].activated
  }

  lemma SettledStays(s: State, a: Action, id: Id)
    requires Inv(s) && FreshAction(s, a) && Settled(s, id)
    ensures Settled(Apply(s, a), id) && Apply(s, a).root.generations[id] == s.root.generations[id]
  {
    if a.Step? && a.p in s.procs && InTry(s.procs[a.p].stage)
       && StepRoot(s.root, s.procs[a.p], a.content, a.reports).Some? {
      StepStaysHome(s.root, s.procs[a.p], a.content, a.reports);
    }
  }

  lemma {:induction false} SettledForever(s: State, first: seq<Action>, rest: seq<Action>, id: Id)
    requires Inv(s) && FreshIds(s, first + rest) && Settled(Run(s, first), id)
    ensures FreshIds(s, first)
    ensures id in Run(s, first).root.generations && Settled(Run(s, first + rest), id)
    ensures Run(s, first + rest).root.generations[id] == Run(s, first).root.generations[id]
  {
    var all := first + rest;
    if rest == [] {
      assert all == first;
    } else {
      assert all[..|all| - 1] == first + rest[..|rest| - 1];
      SettledForever(s, first, rest[..|rest| - 1], id);
      RunKeeps(s, all[..|all| - 1]);
      SettledStays(Run(s, all[..|all| - 1]), all[|all| - 1], id);
    }
  }

  /** A generation that was active stays on disk, unchanged, for good. */
  lemma OnceActiveStays(s: State, first: seq<Action>, rest: seq<Action>)
    requires Initial(s) && FreshIds(s, first + rest)
    requires Run(s, first).root.pointer.Some?
    ensures var id := Run(s, first).root.pointer.value.id;
      && id in Run(s, first).root.generations && id in Run(s, first + rest).root.generations
      && Run(s, first + rest).root.generations[id] == Run(s, first).root.generations[id]
  {
    FreshPrefix(s, first, rest);
    RunKeeps(s, first);
    SettledForever(s, first, rest, Run(s, first).root.pointer.value.id);
  }

  lemma {:induction false} FreshPrefix(s: State, first: seq<Action>, rest: seq<Action>)
    requires FreshIds(s, first + rest)
    ensures FreshIds(s, first)
  {
    var all := first + rest;
    if rest == [] {
      assert all == first;
    } else {
      assert all[..|all| - 1] == first + rest[..|rest| - 1];
      FreshPrefix(s, first, rest[..|rest| - 1]);
    }
  }

  // ---- GPU stays, one run at a time ----

  /** The runs of the schedule do not overlap. */
  predicate OneAtATime(s: State, schedule: seq<Action>) {
    schedule == []
    || (OneAtATime(s, schedule[..|schedule| - 1])
        && (schedule[|schedule| - 1].Begin? ==> Quiet(Run(s, schedule[..|schedule| - 1]))))
  }

  predicate Quiet(s: State) { forall p :: p in s.procs ==> !Live(s.procs[p].stage) }

  /** The one live run was planned for the composition that is active now. */
  ghost predicate PlannedForNow(s: State) {
    && (forall p, q :: p in s.procs && q in s.procs && Live(s.procs[p].stage) && Live(s.procs[q].stage) ==> p == q)
    && (forall p :: p in s.procs && InTry(s.procs[p].stage) && GpuActive(s.root) ==> Gpu in s.procs[p].kinds)
  }

  /** A step takes the GPU away exactly when it activates a CPU-only run while GPU is active. */
  lemma GpuIsLostExactly(s: State, a: Action)
    requires Inv(s) && FreshAction(s, a) && GpuActive(s.root)
    ensures !GpuActive(Apply(s, a).root) <==>
            (a.Step? && a.p in s.procs && s.procs[a.p].stage.Sealed? && Gpu !in s.procs[a.p].kinds)
  {
    if a.Step? && a.p in s.procs && s.procs[a.p].stage.Sealed? {
      assert StageOk(s.root, s.procs[a.p]);
    } else {
      StepKeeps(s, a);
      PointerOnlyMovesOnActivation(s, a);
    }
  }

  lemma PointerOnlyMovesOnActivation(s: State, a: Action)
    requires !(a.Step? && a.p in s.procs && s.procs[a.p].stage.Sealed?)
    ensures Apply(s, a).root.pointer == s.root.pointer && Apply(s, a).root.legacy == s.root.legacy
  {
  }

  lemma PlanStays(s: State, a: Action)
    requires Inv(s) && FreshAction(s, a) && PlannedForNow(s) && (a.Begin? ==> Quiet(s))
    ensures PlannedForNow(Apply(s, a)) && (GpuActive(s.root) ==> GpuActive(Apply(s, a).root))
  {
    StepKeeps(s, a);
    if !(a.Step? && a.p in s.procs && s.procs[a.p].stage.Sealed?) {
      PointerOnlyMovesOnActivation(s, a);
    }
    if GpuActive(s.root) { GpuIsLostExactly(s, a); }
  }

  lemma {:induction false} PlannedThroughout(s: State, schedule: seq<Action>)
    requires Initial(s) && FreshIds(s, schedule) && OneAtATime(s, schedule)
    ensures PlannedForNow(Run(s, schedule))
  {
    if schedule != [] {
      var before := schedule[..|schedule| - 1];
      PlannedThroughout(s, before);
      RunKeeps(s, before);
      PlanStays(Run(s, before), schedule[|schedule| - 1]);
    }
  }

  /** Once GPU is active it stays active, as long as runs do not overlap. */
  lemma {:induction false} GpuStays(s: State, first: seq<Action>, rest: seq<Action>)
    requires Initial(s) && FreshIds(s, first + rest) && OneAtATime(s, first + rest)
    requires GpuActive(Run(s, first).root)
    ensures GpuActive(Run(s, first + rest).root)
  {
    var all := first + rest;
    if rest == [] {
      assert all == first;
    } else {
      var before := all[..|all| - 1];
      assert before == first + rest[..|rest| - 1];
      GpuStays(s, first, rest[..|rest| - 1]);
      PlannedThroughout(s, before);
      RunKeeps(s, before);
      PlanStays(Run(s, before), all[|all| - 1]);
    }
  }

  // ---- GPU is lost exactly to a run that was planned without it ----

  function Before(s: State, schedule: seq<Action>, n: nat): State
    requires n <= |schedule|
  {
    Run(s, schedule[..n])
  }

  lemma NextState(s: State, schedule: seq<Action>, n: nat)
    requires n < |schedule|
    ensures Before(s, schedule, n + 1) == Apply(Before(s, schedule, n), schedule[n])
  {
    assert schedule[..n + 1][..n] == schedule[..n];
  }

  predicate LosesAt(s: State, schedule: seq<Action>, n: nat) {
    n < |schedule| && GpuActive(Before(s, schedule, n).root) && !GpuActive(Before(s, schedule, n + 1).root)
  }

  predicate CpuOnly(s: State, p: Proc) { p in s.procs && Gpu !in s.procs[p].kinds }

  /** The process began while GPU was not active, and planned without it. */
  predicate PlansWithout(s: State, schedule: seq<Action>, m: nat, p: Proc) {
    && m < |schedule| && schedule[m].Begin? && schedule[m].p == p && !GpuActive(Before(s, schedule, m).root)
    && p !in Before(s, schedule, m).procs && CpuOnly(Before(s, schedule, m + 1), p)
  }

  /** It activates what it built when GPU has become active in between. */
  predicate ActivatesOver(s: State, schedule: seq<Action>, m: nat, n: nat, p: Proc) {
    && m < n < |schedule| && PlansWithout(s, schedule, m, p) && GpuActive(Before(s, schedule, n).root)
    && schedule[n].Step? && schedule[n].p == p
    && p in Before(s, schedule, n).procs && Before(s, schedule, n).procs[p].stage.Sealed?
  }

  lemma KindsOfStep(s: State, a: Action, p: Proc)
    ensures p in s.procs ==> p in Apply(s, a).procs && Apply(s, a).procs[p].kinds == s.procs[p].kinds
    ensures p !in s.procs && p in Apply(s, a).procs ==>
              a.Begin? && a.p == p && (CpuOnly(Apply(s, a), p) ==> !GpuActive(s.root))
  {
  }

  lemma {:induction false} PlanKept(s: State, schedule: seq<Action>, m: nat, n: nat, p: Proc)
    requires m <= n <= |schedule| && CpuOnly(Before(s, schedule, m), p)
    ensures CpuOnly(Before(s, schedule, n), p)
  {
    if m < n {
      PlanKept(s, schedule, m, n - 1, p);
      NextState(s, schedule, n - 1);
      KindsOfStep(Before(s, schedule, n - 1), schedule[n - 1], p);
    }
  }

  lemma {:induction false} PlanBegan(s: State, schedule: seq<Action>, n: nat, p: Proc) returns (m: nat)
    requires s.procs == map[] && n <= |schedule| && CpuOnly(Before(s, schedule, n), p)
    ensures m < n && PlansWithout(s, schedule, m, p)
  {
    m := n - 1;
    NextState(s, schedule, m);
    KindsOfStep(Before(s, schedule, m), schedule[m], p);
    if p in Before(s, schedule, m).procs { m := PlanBegan(s, schedule, m, p); }
  }

  lemma FreshBefore(s: State, schedule: seq<Action>, n: nat)
    requires FreshIds(s, schedule) && n < |schedule|
    ensures FreshIds(s, schedule[..n]) && FreshAction(Before(s, schedule, n), schedule[n])
  {
    assert schedule[..n + 1] + schedule[n + 1..] == schedule;
    FreshPrefix(s, schedule[..n + 1], schedule[n + 1..]);
    assert schedule[..n + 1][..n] == schedule[..n];
  }

  lemma LossHasPlan(s: State, schedule: seq<Action>, n: nat) returns (m: nat, p: Proc)
    requires Initial(s) && FreshIds(s, schedule) && LosesAt(s, schedule, n)
    ensures ActivatesOver(s, schedule, m, n, p)
  {
    FreshBefore(s, schedule, n);
    RunKeeps(s, schedule[..n]);
    NextState(s, schedule, n);
    GpuIsLostExactly(Before(s, schedule, n), schedule[n]);
    p := schedule[n].p;
    m := PlanBegan(s, schedule, n, p);
  }

  lemma PlanIsLoss(s: State, schedule: seq<Action>, m: nat, n: nat, p: Proc)
    requires Initial(s) && FreshIds(s, schedule) && ActivatesOver(s, schedule, m, n, p)
    ensures LosesAt(s, schedule, n)
  {
    FreshBefore(s, schedule, n);
    RunKeeps(s, schedule[..n]);
    NextState(s, schedule, n);
    PlanKept(s, schedule, m + 1, n, p);
    GpuIsLostExactly(Before(s, schedule, n), schedule[n]);
  }

  /** A history loses GPU exactly if some run planned without it, while it was not active, and
      activated what it built after GPU had become active. */
  lemma HistoryLosesGpuExactly(s: State, schedule: seq<Action>)
    requires Initial(s) && FreshIds(s, schedule)
    ensures (exists n :: LosesAt(s, schedule, n)) <==> (exists m, n, p :: ActivatesOver(s, schedule, m, n, p))
  {
    if exists n :: LosesAt(s, schedule, n) {
      var n :| LosesAt(s, schedule, n);
      var m, p := LossHasPlan(s, schedule, n);
    }
    if exists m, n, p :: ActivatesOver(s, schedule, m, n, p) {
      var m, n, p :| ActivatesOver(s, schedule, m, n, p);
      PlanIsLoss(s, schedule, m, n, p);
    }
  }

  // ---- A run nothing interferes with ----

  function StepsLeft(stage: Stage): nat {
    match stage
    case Starting => 8
    case Made => 7
    case CpuBuilt => 6
    case Built => 5
    case Staged => 4
    case Qualified => 3
    case Published => 2
    case Sealed => 1
    case _ => 0
  }

  /** A run that has models to stage, and whose qualification reported on what was asked. */
  predicate Healthy(s: State, p: Proc) {
    && p in s.procs && s.procs[p].models.Some?
    && (s.procs[p].stage.Qualified? ==>
        s.procs[p].id in s.root.staging && s.root.staging[s.procs[p].id] == s.procs[p].kinds)
  }

  /** A healthy run can always take its next step. */
  lemma HealthyStep(s: State, p: Proc)
    requires Inv(s) && Healthy(s, p) && InTry(s.procs[p].stage)
    ensures var pr := s.procs[p];
      var t := Apply(s, Step(p, 0, pr.kinds));
      && t.procs == s.procs[p := pr.(stage := NextStage(pr.stage, pr.kinds), activated := pr.stage.Sealed?)]
      && Healthy(t, p) && StepsLeft(t.procs[p].stage) < StepsLeft(pr.stage)
  {
    assert StageOk(s.root, s.procs[p]);
  }

  lemma SealedActivates(s: State, p: Proc)
    requires Inv(s) && p in s.procs && s.procs[p].stage.Sealed?
    ensures var t := Apply(s, Step(p, 0, s.procs[p].kinds));
      t.root.pointer.Some? && t.root.pointer.value.id == s.procs[p].id && GpuActive(t.root) == (Gpu in s.procs[p].kinds)
  {
    assert StageOk(s.root, s.procs[p]);
  }

  lemma OneMore(s: State, schedule: seq<Action>, a: Action)
    requires FreshIds(s, schedule) && FreshAction(Run(s, schedule), a)
    ensures Run(s, schedule + [a]) == Apply(Run(s, schedule), a) && FreshIds(s, schedule + [a])
  {
    assert (schedule + [a])[..|schedule|] == schedule;
  }

  /** `t` is `s` after `n` steps of run `p` alone. */
  ghost predicate Alone(s: State, t: State, p: Proc, n: nat) {
    && p in s.procs && Healthy(t, p) && InTry(t.procs[p].stage)
    && n + StepsLeft(t.procs[p].stage) <= 8
    && t.procs == s.procs[p := s.procs[p].(stage := t.procs[p].stage)]
  }

  lemma AloneSteps(s: State, t: State, p: Proc, n: nat)
    requires Inv(t) && Alone(s, t, p, n) && !t.procs[p].stage.Sealed?
    ensures Alone(s, Apply(t, Step(p, 0, s.procs[p].kinds)), p, n + 1)
    ensures StepsLeft(Apply(t, Step(p, 0, s.procs[p].kinds)).procs[p].stage) < StepsLeft(t.procs[p].stage)
  {
    HealthyStep(t, p);
    assert StageOk(t.root, t.procs[p]);
  }

  /** `schedule` is an initial part of run `p` alone. */
  ghost predicate SoloSoFar(s: State, schedule: seq<Action>, p: Proc) {
    FreshIds(s, schedule) && Inv(Run(s, schedule)) && Alone(s, Run(s, schedule), p, |schedule|)
  }

  lemma SoloExtends(s: State, schedule: seq<Action>, p: Proc)
    requires SoloSoFar(s, schedule, p) && !Run(s, schedule).procs[p].stage.Sealed?
    ensures SoloSoFar(s, schedule + [Step(p, 0, s.procs[p].kinds)], p)
    ensures StepsLeft(Run(s, schedule + [Step(p, 0, s.procs[p].kinds)]).procs[p].stage)
            < StepsLeft(Run(s, schedule).procs[p].stage)
  {
    var next := Step(p, 0, s.procs[p].kinds);
    OneMore(s, schedule, next);
    AloneSteps(s, Run(s, schedule), p, |schedule|);
    StepKeeps(Run(s, schedule), next);
  }

  /** If nothing outside fails, a run activates its generation within eight steps. */
  lemma HealthyRunActivates(s: State, p: Proc) returns (schedule: seq<Action>)
    requires Inv(s) && Healthy(s, p) && InTry(s.procs[p].stage)
    ensures |schedule| <= 8 && FreshIds(s, schedule)
    ensures var t := Run(s, schedule);
      && Inv(t) && t.procs == s.procs[p := s.procs[p].(stage := Leaving, activated := true)]
      && t.root.pointer.Some? && t.root.pointer.value.id == s.procs[p].id
      && GpuActive(t.root) == (Gpu in s.procs[p].kinds)
  {
    schedule := [];
    SoloStarts(s, p);
    while !Run(s, schedule).procs[p].stage.Sealed?
      invariant SoloSoFar(s, schedule, p)
      decreases StepsLeft(Run(s, schedule).procs[p].stage)
    {
      SoloExtends(s, schedule, p);
      schedule := schedule + [Step(p, 0, s.procs[p].kinds)];
    }
    SoloEnds(s, schedule, p);
    schedule := schedule + [Step(p, 0, s.procs[p].kinds)];
  }

  lemma SoloStarts(s: State, p: Proc)
    requires Inv(s) && Healthy(s, p) && InTry(s.procs[p].stage)
    ensures SoloSoFar(s, [], p)
  {
    assert s.procs == s.procs[p := s.procs[p]];
  }

  lemma SoloEnds(s: State, schedule: seq<Action>, p: Proc)
    requires SoloSoFar(s, schedule, p) && Run(s, schedule).procs[p].stage.Sealed?
    ensures FreshIds(s, schedule + [Step(p, 0, s.procs[p].kinds)])
    ensures var t := Run(s, schedule + [Step(p, 0, s.procs[p].kinds)]);
      && Inv(t) && t.procs == s.procs[p := s.procs[p].(stage := Leaving, activated := true)]
      && t.root.pointer.Some? && t.root.pointer.value.id == s.procs[p].id
      && GpuActive(t.root) == (Gpu in s.procs[p].kinds)
  {
    var next := Step(p, 0, s.procs[p].kinds);
    OneMore(s, schedule, next);
    AloneEnds(s, Run(s, schedule), p, |schedule|);
    StepKeeps(Run(s, schedule), next);
  }

  lemma AloneEnds(s: State, t: State, p: Proc, n: nat)
    requires Inv(t) && Alone(s, t, p, n) && t.procs[p].stage.Sealed?
    ensures var u := Apply(t, Step(p, 0, s.procs[p].kinds));
      && u.procs == s.procs[p := s.procs[p].(stage := Leaving, activated := true)]
      && u.root.pointer.Some? && u.root.pointer.value.id == s.procs[p].id
      && GpuActive(u.root) == (Gpu in s.procs[p].kinds)
  {
    SealedActivates(t, p);
    HealthyStep(t, p);
  }

  lemma {:induction false} RunSplit(s: State, first: seq<Action>, rest: seq<Action>)
    ensures Run(s, first + rest) == Run(Run(s, first), rest)
    ensures FreshIds(s, first) && FreshIds(Run(s, first), rest) ==> FreshIds(s, first + rest)
  {
    var all := first + rest;
    if rest == [] {
      assert all == first;
    } else {
      assert all[..|all| - 1] == first + rest[..|rest| - 1];
      RunSplit(s, first, rest[..|rest| - 1]);
    }
  }

  /** Overlapping runs can lose the GPU: a CPU run planned before another run activates a GPU
      composition replaces it.  This happens from every state without an active GPU. */
  lemma OverlapLosesGpu(s: State, p: Proc, q: Proc, pId: Id, qId: Id) returns (first: seq<Action>, rest: seq<Action>)
    requires Inv(s) && !GpuActive(s.root) && !Resolve(s.root).Refused?
    requires p != q && p !in s.procs && q !in s.procs && pId != qId && FreshId(s, pId) && FreshId(s, qId)
    ensures FreshIds(s, first + rest)
    ensures GpuActive(Run(s, first).root) && !GpuActive(Run(s, first + rest).root)
  {
    var beginP, beginQ := Begin(p, OnlyCpu, pId, Some(0)), Begin(q, Both, qId, Some(0));
    var s1 := Apply(s, beginP);
    var s2 := Apply(s1, beginQ);
    StepKeeps(s, beginP);
    StepKeeps(s1, beginQ);
    BothBegin(s, beginP, beginQ);
    var runQ := HealthyRunActivates(s2, q);
    var s3 := Run(s2, runQ);
    var runP := HealthyRunActivates(s3, p);
    RunSplit(s, [beginP, beginQ], runQ);
    RunSplit(s, [beginP, beginQ] + runQ, runP);
    first, rest := [beginP, beginQ] + runQ, runP;
  }

  lemma BothBegin(s: State, a: Action, b: Action)
    requires FreshAction(s, a) && FreshAction(Apply(s, a), b)
    ensures FreshIds(s, [a, b]) && Run(s, [a, b]) == Apply(Apply(s, a), b)
  {
    assert [a, b][..1] == [a];
    assert [a][..0] == [];
    assert Run(s, []) == s && Run(s, [a]) == Apply(s, a);
  }

  // ---- What a run leaves behind ----

  /** Identities must be fresh: a run that draws the active one fails to make its directory,
      and its `finally` block then removes the active generation. */
  lemma ReusedIdRemovesActive(s: State, p: Proc, request: Request, id: Id)
    requires Inv(s) && p !in s.procs && s.root.pointer.Some? && s.root.pointer.value.id == id
    requires KindsForRequest(request, Resolve(s.root)).Some?
    ensures Resolve(Run(s, [Begin(p, request, id, None), Step(p, 0, {}), Clean(p)]).root).Refused?
  {
    var all := [Begin(p, request, id, None), Step(p, 0, {}), Clean(p)];
    assert all[..2] == [all[0], all[1]] && all[..2][..1] == [all[0]] && all[..1][..0] == [];
    assert Run(s, []) == s;
    assert Run(s, [all[0]]) == Apply(s, all[0]);
    assert Run(s, [all[0], all[1]]) == Apply(Apply(s, all[0]), all[1]);
  }

  predicate OwnedGeneration(s: State, p: Proc, id: Id) {
    p in s.procs && s.procs[p].id == id && (s.procs[p].activated || !s.procs[p].stage.Gone?)
  }

  predicate OwnedStaging(s: State, p: Proc, id: Id) {
    p in s.procs && s.procs[p].id == id && !s.procs[p].stage.Gone?
  }

  /** Everything in the root was there before, or belongs to a run that has not cleaned up,
      or is a generation that was activated. */
  ghost predicate Accounted(start: State, s: State) {
    && (forall id :: id in s.root.generations && id !in start.root.generations ==> exists p :: OwnedGeneration(s, p, id))
    && (forall id :: id in s.root.staging && id !in start.root.staging ==> exists p :: OwnedStaging(s, p, id))
  }

  lemma OwnershipMoves(s: State, a: Action, p: Proc, id: Id)
    requires Inv(s) && FreshAction(s, a)
    ensures OwnedGeneration(s, p, id) && id in Apply(s, a).root.generations ==> OwnedGeneration(Apply(s, a), p, id)
    ensures OwnedStaging(s, p, id) && id in Apply(s, a).root.staging ==> OwnedStaging(Apply(s, a), p, id)
  {
  }

  lemma NewEntriesAreOwned(s: State, a: Action, id: Id)
    requires Inv(s) && FreshAction(s, a)
    ensures id in Apply(s, a).root.generations && id !in s.root.generations ==> a.Step? && OwnedGeneration(Apply(s, a), a.p, id)
    ensures id in Apply(s, a).root.staging && id !in s.root.staging ==> a.Step? && OwnedStaging(Apply(s, a), a.p, id)
  {
    if a.Step? && a.p in s.procs && StepRoot(s.root, s.procs[a.p], a.content, a.reports).Some? {
      StepStaysHome(s.root, s.procs[a.p], a.content, a.reports);
    }
  }

  lemma StepAccounts(start: State, s: State, a: Action)
    requires Inv(s) && FreshAction(s, a) && Accounted(start, s)
    ensures Accounted(start, Apply(s, a))
  {
    var t := Apply(s, a);
    forall id | id in t.root.generations && id !in start.root.generations ensures exists p :: OwnedGeneration(t, p, id) {
      NewEntriesAreOwned(s, a, id);
      if id in s.root.generations {
        var p :| OwnedGeneration(s, p, id);
        OwnershipMoves(s, a, p, id);
      }
    }
    forall id | id in t.root.staging && id !in start.root.staging ensures exists p :: OwnedStaging(t, p, id) {
      NewEntriesAreOwned(s, a, id);
      if id in s.root.staging {
        var p :| OwnedStaging(s, p, id);
        OwnershipMoves(s, a, p, id);
      }
    }
  }

  lemma {:induction false} RunAccounts(s: State, schedule: seq<Action>)
    requires Initial(s) && FreshIds(s, schedule)
    ensures Accounted(s, Run(s, schedule))
  {
    if schedule != [] {
      RunAccounts(s, schedule[..|schedule| - 1]);
      RunKeeps(s, schedule[..|schedule| - 1]);
      StepAccounts(s, Run(s, schedule[..|schedule| - 1]), schedule[|schedule| - 1]);
    }
  }

  /** Once every run has left, the root holds what it held before, unchanged, and the
      generations that were activated: failures leave nothing behind and take nothing away. */
  lemma NothingIsLeftBehind(s: State, schedule: seq<Action>)
    requires Initial(s) && FreshIds(s, schedule)
    requires forall p :: p in Run(s, schedule).procs ==> Run(s, schedule).procs[p].stage.Gone?
    ensures var t := Run(s, schedule);
      && (forall id :: id in s.root.generations ==>
            id in t.root.generations && t.root.generations[id] == s.root.generations[id])
      && (forall id :: id in t.root.generations && id !in s.root.generations ==>
            exists p :: p in t.procs && t.procs[p].id == id && t.procs[p].activated)
      && (forall p :: p in t.procs && t.procs[p].activated ==> t.procs[p].id in t.root.generations)
      && t.root.staging.Keys <= s.root.staging.Keys
  {
    RunAccounts(s, schedule);
    RunKeeps(s, schedule);
    var t := Run(s, schedule);
    forall id | id in s.root.generations
      ensures id in t.root.generations && t.root.generations[id] == s.root.generations[id]
    {
      assert [] + schedule == schedule;
      assert Run(s, []) == s;
      SettledForever(s, [], schedule, id);
    }
    forall id | id in t.root.generations && id !in s.root.generations
      ensures exists p :: p in t.procs && t.procs[p].id == id && t.procs[p].activated
    {
      var p :| OwnedGeneration(t, p, id);
      assert p in t.procs && t.procs[p].id == id && t.procs[p].activated;
    }
    forall id | id in t.root.staging ensures id in s.root.staging {
      assert forall p :: !OwnedStaging(t, p, id);
    }
    forall p | p in t.procs && t.procs[p].activated ensures t.procs[p].id in t.root.generations {
      assert StageOk(t.root, t.procs[p]);
    }
  }

  // ---- Removing a tree; paths are resolved, so no component is "." or ".." ----

  /** `_assert_managed_path`: strictly inside the runtime root. */
  predicate Managed(path: Path, root: Path) { |root| < |path| && path[..|root|] == root }

  /** `_safe_remove_tree` on the files of the machine. */
  function SafeRemoveTree(files: map<Path, nat>, path: Path, root: Path): Option<map<Path, nat>> {
    if !Managed(path, root) then None else Some(map f | f in files && !(path <= f) :: files[f])
  }

  /** A removal that is not refused takes exactly the tree, which lies inside the root: files
      outside the root, files of other generations and the pointer file stay. */
  lemma RemovalIsLocal(files: map<Path, nat>, root: Path, id: string, f: Path)
    requires f in files
    ensures var after := SafeRemoveTree(files, root + ["generations", id], root);
      && after.Some?
      && (f in after.value <==> !(root + ["generations", id] <= f))
      && (f in after.value ==> after.value[f] == files[f])
      && (!(root <= f) ==> f in after.value)
      && (f == root + ["active-composition.json"] ==> f in after.value)
      && (forall other: string :: other != id && root + ["generations", other] <= f ==> f in after.value)
  {
    var path := root + ["generations", id];
    assert path[..|root|] == root;
    if path <= f {
      assert f[..|root|] == root && f[|root|] == "generations" && f[|root| + 1] == id;
      forall other: string | root + ["generations", other] <= f ensures other == id {
        assert f[|root| + 1] == (root + ["generations", other])[|root| + 1];
      }
    }
  }

  // ---- The bootstrap program ----

  /** What a run asked for and met: the models at hand, what the qualification reported, and
      the stages whose step raised. */
  datatype Outside = Outside(models: Option<nat>, reports: set<Kind>, content: map<Kind, nat>, raises: set<Stage>)

  function Visited(kinds: set<Kind>): set<Stage> {
    {Starting, Made, Built, Staged, Qualified, Published, Sealed} + if Gpu in kinds then {CpuBuilt} else {}
  }

  predicate NoneOf(raises: set<Stage>, stages: set<Stage>) { forall stage :: stage in stages ==> stage !in raises }

  class RuntimeRoot {
    var root: Root

    constructor (initial: Root)
      ensures root == initial
    {
      root := initial;
    }

    /** The runtimes: make the directory, build the CPU candidate, then the GPU one if asked. */
    method BuildCandidates(id: Id, gpu: bool, outside: Outside) returns (ok: bool)
      modifies this
      ensures SameElsewhere(old(root), root, id) && root.pointer == old(root.pointer) && root.staging == old(root.staging)
      ensures ok <==> id !in old(root.generations) && NoneOf(outside.raises, {Starting, Made})
                      && (gpu ==> CpuBuilt !in outside.raises)
      ensures ok ==> id in root.generations && root.generations[id].runtimes.Keys == Kinds(gpu)
                     && root.generations[id].models.None? && root.generations[id].qualified.None?
    {
      var made := Make(root, id);
      if Starting in outside.raises || made.None? { return false; }
      root := made.value;
      if Made in outside.raises { return false; }
      root := Build(root, id, Cpu, if Cpu in outside.content then outside.content[Cpu] else 0).value;
      if gpu {
        if CpuBuilt in outside.raises { return false; }
        root := Build(root, id, Gpu, if Gpu in outside.content then outside.content[Gpu] else 0).value;
      }
      return true;
    }

    /** Models, qualification, seal, pointer. */
    method Compose(id: Id, gpu: bool, outside: Outside) returns (activated: bool)
      requires id in root.generations && root.generations[id].runtimes.Keys == Kinds(gpu)
      requires root.generations[id].models.None? && root.generations[id].qualified.None?
      modifies this
      ensures SameElsewhere(old(root), root, id)
      ensures activated <==> NoneOf(outside.raises, {Built, Staged, Qualified, Published, Sealed})
                             && outside.models.Some? && outside.reports == Kinds(gpu)
      ensures !activated ==> root.pointer == old(root.pointer)
      ensures activated ==> root.pointer.Some? && root.pointer.value.id == id && root.pointer.value.manifest.gpu == gpu
                            && Resolve(root) == Active(Composition(Kinds(gpu), outside.models.value))
    {
      var staged := StageModels(root, id, outside.models);
      if Built in outside.raises || staged.None? { return false; }
      root := staged.value;
      if Staged in outside.raises { return false; }
      root := Qualify(root, id, outside.reports).value;
      var published := PublishQualification(root, id, Kinds(gpu));
      if Qualified in outside.raises || published.None? { return false; }
      root := published.value;
      if Published in outside.raises { return false; }
      root := Seal(root, id, gpu).value;
      if Sealed in outside.raises { return false; }
      root := Activate(root, id).value;
      return true;
    }

    /** `main`: the composition is replaced as a whole, or the root is as it was. */
    method Bootstrap(request: Request, id: Id, provision: Option<nat>, reports: set<Kind>, content: map<Kind, nat>,
                     raises: set<Stage>) returns (activated: bool)
      requires PointerOk(root)
      modifies this
      ensures var active := Resolve(old(root));
        var kinds := KindsForRequest(request, active);
        && (activated <==>
            kinds.Some? && id !in old(root.generations) && reports == kinds.value
            && (provision.Some? || active.Active?) && NoneOf(raises, Visited(kinds.value)))
        && (activated ==>
            PointerOk(root) && root.pointer.Some? && root.pointer.value.id == id
            && Resolve(root) == Active(Composition(kinds.value,
                                                   if provision.Some? then provision.value else active.composition.models)))
      ensures !activated && id !in old(root.generations) && id !in old(root.staging) ==> root == old(root)
      ensures SameElsewhere(old(root), root, id)
    {
      var active := Resolve(root);
      var kinds := KindsForRequest(request, active);
      if kinds.None? { return false; }
      var gpu := Gpu in kinds.value;
      var models := if provision.Some? then provision else if active.Active? then Some(active.composition.models) else None;
      activated := false;
      var built := BuildCandidates(id, gpu, Outside(models, reports, content, raises));
      if built {
        activated := Compose(id, gpu, Outside(models, reports, content, raises));
      }
      root := CleanUp(root, id, activated);
    }
  }
}
