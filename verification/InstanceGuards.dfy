/** Taking several data roots at once.  Each root is a named mutex whose object lives while
    anyone has a handle to it; a process owns the root only if its own create call made the
    object.  Roots are taken in one global path order and all given back on any exit. */
module InstanceGuards {
  import opened Sequences
  import opened Sorting

  /** A root is its place in the global order of normalised paths. */
  type Root = nat

  datatype Cause = Work | Busy(root: Root) | Raised

  datatype Phase =
    | Taking(k: nat)                   // owns roots[..k]
    | Created(k: nat, existed: bool)   // has a handle to roots[k], has not looked at the answer
    | Holding                          // owns all of them
    | Releasing(n: nat, cause: Cause)  // still owns roots[..n]
    | Over(cause: Cause)

  type Wants = seq<seq<Root>>

  datatype State = State(phases: seq<Phase>, handles: set<(nat, Root)>)

  datatype Action = Proceed(process: nat) | Raise(process: nat) | Kill(process: nat)

  predicate Exists(handles: set<(nat, Root)>, r: Root) {
    exists h :: h in handles && h.1 == r
  }

  function Step(wants: Wants, s: State, p: nat): State
    requires p < |wants| && p < |s.phases|
  {
    var roots := wants[p];
    match s.phases[p]
    case Taking(k) =>
      if k >= |roots| then s.(phases := s.phases[p := Holding])
      else State(s.phases[p := Created(k, Exists(s.handles, roots[k]))], s.handles + {(p, roots[k])})
    case Created(k, existed) =>
      if !existed || k >= |roots| then s.(phases := s.phases[p := Taking(k + 1)])
      else State(s.phases[p := Releasing(k, Busy(roots[k]))], s.handles - {(p, roots[k])})
    case Holding => s.(phases := s.phases[p := Releasing(|roots|, Work)])
    case Releasing(n, cause) =>
      if n == 0 || n > |roots| then s.(phases := s.phases[p := Over(cause)])
      else State(s.phases[p := Releasing(n - 1, cause)], s.handles - {(p, roots[n - 1])})
    case Over(_) => s
  }

  function Apply(wants: Wants, s: State, a: Action): State {
    if a.process >= |wants| || a.process >= |s.phases| then s
    else
      match a
      case Proceed(p) => Step(wants, s, p)
      case Raise(p) =>                 // anything the guarded code raises between two acquisitions
        if s.phases[p].Taking? then s.(phases := s.phases[p := Releasing(s.phases[p].k, Raised)]) else s
      case Kill(p) =>                  // the operating system closes every handle
        if s.phases[p].Over? then s
        else State(s.phases[p := Over(Raised)], set h | h in s.handles && h.0 != p)
  }

  function Start(wants: Wants): State {
    State(seq(|wants|, _ => Taking(0)), {})
  }

  function Run(wants: Wants, schedule: seq<Action>): State {
    if schedule == [] then Start(wants)
    else Apply(wants, Run(wants, schedule[..|schedule| - 1]), schedule[|schedule| - 1])
  }

  // ---- What a phase owns and has owned ----

  /** How many of its roots a process owns, counting the one its create call just made. */
  function Owned(p: Phase, total: nat): nat {
    match p
    case Taking(k) => k
    case Created(k, existed) => if existed then k else k + 1
    case Holding => total
    case Releasing(n, _) => n
    case Over(_) => 0
  }

  predicate Owns(roots: seq<Root>, p: Phase, r: Root) {
    exists i :: 0 <= i < Owned(p, |roots|) && i < |roots| && roots[i] == r
  }

  predicate HasHandle(roots: seq<Root>, p: Phase, r: Root) {
    Owns(roots, p, r) || (p.Created? && p.k < |roots| && roots[p.k] == r)
  }

  predicate Ascending(roots: seq<Root>) {
    forall i, j :: 0 <= i < j < |roots| ==> roots[i] < roots[j]
  }

  ghost predicate PhaseOk(roots: seq<Root>, p: Phase) {
    && (p.Taking? ==> p.k <= |roots|)
    && (p.Created? ==> p.k < |roots|)
    && (p.Releasing? ==> p.n <= |roots|)
  }

  /** Handles are exactly what the phases say, and each object has exactly one owner while a
      handle to it is open and its owner has not closed its own. */
  ghost predicate Inv(wants: Wants, s: State) {
    && |s.phases| == |wants|
    && (forall p :: 0 <= p < |wants| ==> PhaseOk(wants[p], s.phases[p]))
    && (forall h :: h in s.handles ==> h.0 < |wants| && HasHandle(wants[h.0], s.phases[h.0], h.1))
    && (forall p: nat, r: Root :: p < |wants| && HasHandle(wants[p], s.phases[p], r) ==> (p, r) in s.handles)
    && (forall p: nat, q: nat, r: Root ::
          p < |wants| && q < |wants| && Owns(wants[p], s.phases[p], r) && Owns(wants[q], s.phases[q], r) ==> p == q)
  }

  lemma StepKeeps(wants: Wants, s: State, p: nat)
    requires Inv(wants, s) && p < |wants| && Distinct(wants[p])
    ensures Inv(wants, Step(wants, s, p))
  {
    var t := Step(wants, s, p);
    var roots, was, now := wants[p], s.phases[p], t.phases[p];
    forall r: Root ensures HasHandle(roots, now, r) <==> (p, r) in t.handles {
      assert HasHandle(roots, was, r) <==> (p, r) in s.handles;
      if was.Taking? && was.k < |roots| && Owns(roots, was, r) { assert Owns(roots, now, r); }
      if was.Created? && !was.existed && roots[was.k] == r { assert Owns(roots, was, r); }
    }
    forall q: nat, r: Root | q < |wants| && q != p && Owns(wants[q], t.phases[q], r) ensures !Owns(roots, now, r) {
      assert HasHandle(wants[q], s.phases[q], r);
      assert Exists(s.handles, r) by { assert (q, r) in s.handles; }
    }
  }

  lemma ApplyKeeps(wants: Wants, s: State, a: Action)
    requires Inv(wants, s) && forall p :: 0 <= p < |wants| ==> Distinct(wants[p])
    ensures Inv(wants, Apply(wants, s, a))
  {
    if a.process < |wants| {
      match a
      case Proceed(p) => StepKeeps(wants, s, p);
      case Raise(p) =>
        if s.phases[p].Taking? {
          var t := Apply(wants, s, a);
          forall r: Root ensures Owns(wants[p], t.phases[p], r) <==> Owns(wants[p], s.phases[p], r) {}
        }
      case Kill(p) =>
    }
  }

  /** In every run each root is owned by at most one process, and a process has handles to
      exactly the roots its phase says; once it is over it has none. */
  lemma {:induction false} GuardsAreExclusive(wants: Wants, schedule: seq<Action>)
    requires forall p :: 0 <= p < |wants| ==> Distinct(wants[p])
    ensures Inv(wants, Run(wants, schedule))
    ensures forall h :: h in Run(wants, schedule).handles ==>
              h.0 < |Run(wants, schedule).phases| && !Run(wants, schedule).phases[h.0].Over?
  {
    if schedule != [] {
      GuardsAreExclusive(wants, schedule[..|schedule| - 1]);
      ApplyKeeps(wants, Run(wants, schedule[..|schedule| - 1]), schedule[|schedule| - 1]);
    }
  }

  // ---- Somebody gets all its roots ----

  predicate Spoiled(p: Phase) {
    (p.Releasing? && p.cause.Raised?) || (p.Over? && p.cause.Raised?)
  }

  /** The process found this root taken. */
  predicate LostAt(roots: seq<Root>, p: Phase, r: Root) {
    || (p.Created? && p.existed && p.k < |roots| && roots[p.k] == r)
    || (p.Releasing? && p.cause == Busy(r))
    || (p.Over? && p.cause == Busy(r))
  }

  /** The process owns the root now or has owned it; roots are in ascending order, so a
      process that lost at one root has owned all its smaller ones. */
  predicate EverOwned(roots: seq<Root>, p: Phase, r: Root) {
    || Owns(roots, p, r)
    || (r in roots && (p.Holding? || ((p.Releasing? || p.Over?) && (p.cause.Work? || (p.cause.Busy? && r < p.cause.root)))))
  }

  /** Whoever lost a root lost it to a process that owned it, or somebody was disturbed. */
  ghost predicate Explained(wants: Wants, s: State, r: Root) {
    exists q: nat :: Blames(wants, s, q, r)
  }

  ghost predicate Blames(wants: Wants, s: State, q: nat, r: Root) {
    q < |wants| && q < |s.phases| && (EverOwned(wants[q], s.phases[q], r) || Spoiled(s.phases[q]))
  }

  /** What a process still owns after losing lies below the root it lost at. */
  ghost predicate BelowLoss(roots: seq<Root>, p: Phase) {
    p.Releasing? && p.cause.Busy? ==> forall i :: 0 <= i < p.n && i < |roots| ==> roots[i] < p.cause.root
  }

  ghost predicate LossesExplained(wants: Wants, s: State) {
    && |s.phases| == |wants|
    && (forall p :: 0 <= p < |wants| ==> BelowLoss(wants[p], s.phases[p]))
    && (forall p: nat, r: Root :: Justified(wants, s, p, r))
  }

  ghost predicate Justified(wants: Wants, s: State, p: nat, r: Root) {
    p < |wants| && p < |s.phases| && LostAt(wants[p], s.phases[p], r) ==> r in wants[p] && Explained(wants, s, r)
  }

  lemma OwnershipIsRemembered(wants: Wants, s: State, a: Action, q: nat, r: Root)
    requires |s.phases| == |wants| && q < |wants| && Ascending(wants[q]) && PhaseOk(wants[q], s.phases[q])
    requires BelowLoss(wants[q], s.phases[q]) && Blames(wants, s, q, r)
    ensures BelowLoss(wants[q], Apply(wants, s, a).phases[q]) && Blames(wants, Apply(wants, s, a), q, r)
  {
    var t := Apply(wants, s, a);
    var roots, was, now := wants[q], s.phases[q], t.phases[q];
    if Owns(roots, was, r) && was != now && !Spoiled(now) {
      var i :| 0 <= i < Owned(was, |roots|) && i < |roots| && roots[i] == r;
      if was.Created? && !was.existed { assert i < Owned(now, |roots|); }
    }
  }

  lemma LossIsExplained(wants: Wants, s: State, a: Action, p: nat, r: Root)
    requires Inv(wants, s) && LossesExplained(wants, s)
    requires p < |wants| && LostAt(wants[p], Apply(wants, s, a).phases[p], r)
    ensures r in wants[p] && Explained(wants, s, r)
  {
    assert Justified(wants, s, p, r);
    if !LostAt(wants[p], s.phases[p], r) {
      var h :| h in s.handles && h.1 == r;
      assert HasHandle(wants[h.0], s.phases[h.0], r);
      assert Justified(wants, s, h.0, r);
      if Owns(wants[h.0], s.phases[h.0], r) { assert Blames(wants, s, h.0, r); }
    }
  }

  lemma {:induction false} RunExplainsLosses(wants: Wants, schedule: seq<Action>)
    requires forall p :: 0 <= p < |wants| ==> Ascending(wants[p])
    ensures LossesExplained(wants, Run(wants, schedule))
  {
    if schedule != [] {
      var before, last := schedule[..|schedule| - 1], schedule[|schedule| - 1];
      RunExplainsLosses(wants, before);
      GuardsAreExclusive(wants, before);
      var s, t := Run(wants, before), Run(wants, schedule);
      forall p | 0 <= p < |wants| ensures BelowLoss(wants[p], t.phases[p]) {
        assert BelowLoss(wants[p], s.phases[p]);
      }
      forall p: nat, r: Root | p < |wants| && LostAt(wants[p], t.phases[p], r) ensures Justified(wants, t, p, r) {
        LossIsExplained(wants, s, last, p, r);
        var q: nat :| Blames(wants, s, q, r);
        OwnershipIsRemembered(wants, s, last, q, r);
      }
    }
  }

  predicate GaveUp(p: Phase) { p.Over? && p.cause.Busy? }

  /** Among the processes that gave up, one that did so at the greatest root. */
  lemma {:induction false} GreatestLoss(phases: seq<Phase>) returns (p: nat)
    requires exists q :: 0 <= q < |phases| && GaveUp(phases[q])
    ensures p < |phases| && GaveUp(phases[p])
    ensures forall q :: 0 <= q < |phases| && GaveUp(phases[q]) ==> phases[q].cause.root <= phases[p].cause.root
  {
    var last := |phases| - 1;
    assert forall q :: 0 <= q < last ==> phases[q] == phases[..last][q];
    if exists q :: 0 <= q < last && GaveUp(phases[..last][q]) {
      p := GreatestLoss(phases[..last]);
      if GaveUp(phases[last]) && phases[p].cause.root < phases[last].cause.root { p := last; }
    } else {
      p := last;
    }
  }

  /** Whoever is to blame for the greatest loss did not give up itself. */
  lemma BlamedDidNotGiveUp(wants: Wants, s: State, q: nat, r: Root)
    requires Blames(wants, s, q, r) && s.phases[q].Over?
    requires GaveUp(s.phases[q]) ==> s.phases[q].cause.root <= r
    ensures !GaveUp(s.phases[q])
  {
  }

  /** However any number of processes contend, once all are over at least one has had all
      its roots, unless one was killed or raised for another reason. */
  lemma SomebodyGetsThrough(wants: Wants, schedule: seq<Action>)
    requires wants != [] && forall p :: 0 <= p < |wants| ==> Ascending(wants[p])
    requires forall p :: 0 <= p < |Run(wants, schedule).phases| ==> Run(wants, schedule).phases[p].Over?
    ensures exists p :: 0 <= p < |Run(wants, schedule).phases| && !GaveUp(Run(wants, schedule).phases[p])
  {
    RunExplainsLosses(wants, schedule);
    var s := Run(wants, schedule);
    if exists q :: 0 <= q < |s.phases| && GaveUp(s.phases[q]) {
      var p := GreatestLoss(s.phases);
      assert Justified(wants, s, p, s.phases[p].cause.root);
      var q: nat :| Blames(wants, s, q, s.phases[p].cause.root);
      BlamedDidNotGiveUp(wants, s, q, s.phases[p].cause.root);
    } else {
      assert !GaveUp(s.phases[0]);
    }
  }

  predicate AfterWork(p: Phase) { (p.Releasing? || p.Over?) && p.cause.Work? }
  predicate AfterRaise(p: Phase) { (p.Releasing? || p.Over?) && p.cause.Raised? }

  /** Whoever is past its work had all its roots at some point of the run. */
  lemma {:induction false} WorkWasDoneHoldingAll(wants: Wants, schedule: seq<Action>, p: nat)
    requires p < |Run(wants, schedule).phases| && AfterWork(Run(wants, schedule).phases[p])
    ensures exists n ::
              0 <= n < |schedule| && p < |Run(wants, schedule[..n]).phases| && Run(wants, schedule[..n]).phases[p].Holding?
  {
    var before := schedule[..|schedule| - 1];
    if p < |Run(wants, before).phases| && AfterWork(Run(wants, before).phases[p]) {
      WorkWasDoneHoldingAll(wants, before, p);
      var n :| 0 <= n < |before| && p < |Run(wants, before[..n]).phases| && Run(wants, before[..n]).phases[p].Holding?;
      assert schedule[..n] == before[..n];
    } else {
      assert Run(wants, schedule[..|schedule| - 1]).phases[p].Holding?;
    }
  }

  lemma {:induction false} NobodyRaises(wants: Wants, schedule: seq<Action>)
    requires forall a <- schedule :: a.Proceed?
    ensures forall p :: 0 <= p < |Run(wants, schedule).phases| ==> !AfterRaise(Run(wants, schedule).phases[p])
  {
    if schedule != [] {
      assert forall a <- schedule[..|schedule| - 1] :: a in schedule;
      NobodyRaises(wants, schedule[..|schedule| - 1]);
    }
  }

  /** When nothing is killed and nothing else raises, at least one of the contending processes
      held all its roots. */
  lemma SomebodyHeldAll(wants: Wants, schedule: seq<Action>)
    requires wants != [] && forall p :: 0 <= p < |wants| ==> Ascending(wants[p])
    requires forall a <- schedule :: a.Proceed?
    requires forall p :: 0 <= p < |Run(wants, schedule).phases| ==> Run(wants, schedule).phases[p].Over?
    ensures exists p, n {:trigger Run(wants, schedule[..n]).phases[p]} ::
              0 <= n < |schedule| && 0 <= p < |Run(wants, schedule[..n]).phases| && Run(wants, schedule[..n]).phases[p].Holding?
  {
    SomebodyGetsThrough(wants, schedule);
    NobodyRaises(wants, schedule);
    var s := Run(wants, schedule);
    var p: nat :| 0 <= p < |s.phases| && !GaveUp(s.phases[p]);
    assert AfterWork(s.phases[p]);
    WorkWasDoneHoldingAll(wants, schedule, p);
  }

  // ---- If processes waited instead of giving up ----

  /** `p` waits for its next root and `q` owns it. */
  ghost predicate WaitsFor(wants: Wants, s: State, p: nat, q: nat) {
    && p < |wants| && q < |wants| && |s.phases| == |wants|
    && s.phases[p].Taking? && s.phases[p].k < |wants[p]|
    && Owns(wants[q], s.phases[q], wants[p][s.phases[p].k])
  }

  ghost predicate WaitChain(wants: Wants, s: State, chain: seq<nat>) {
    forall i :: 0 <= i < |chain| - 1 ==> WaitsFor(wants, s, chain[i], chain[i + 1])
  }

  /** Along a chain of waiting processes the awaited roots grow, so it never closes. */
  lemma {:induction false} NoWaitingCycle(wants: Wants, s: State, chain: seq<nat>)
    requires forall p :: 0 <= p < |wants| ==> Ascending(wants[p])
    requires |chain| >= 3 && WaitChain(wants, s, chain)
    ensures WaitsFor(wants, s, chain[0], chain[1]) && WaitsFor(wants, s, chain[|chain| - 2], chain[|chain| - 1])
    ensures wants[chain[0]][s.phases[chain[0]].k] < wants[chain[|chain| - 2]][s.phases[chain[|chain| - 2]].k]
    ensures chain[0] != chain[|chain| - 2]
  {
    assert WaitsFor(wants, s, chain[0], chain[1]) && WaitsFor(wants, s, chain[1], chain[2]);
    assert WaitsFor(wants, s, chain[|chain| - 2], chain[|chain| - 2 + 1]);
    if |chain| > 3 {
      var rest := chain[1..];
      forall i | 0 <= i < |rest| - 1 ensures WaitsFor(wants, s, rest[i], rest[i + 1]) {
        assert WaitsFor(wants, s, chain[i + 1], chain[i + 1 + 1]);
      }
      NoWaitingCycle(wants, s, rest);
    }
  }

  // ---- Preparing the roots ----

  predicate Before(a: Root, b: Root) { a < b }

  lemma BeforeIsTotal()
    ensures TotalOrder(Before)
  {
  }

  /** The roots of one command, refused when there are none or two are the same, and put in
      the global order otherwise. */
  method PrepareRoots(requested: seq<Root>) returns (ok: bool, ordered: seq<Root>)
    ensures ok <==> requested != [] && Distinct(requested)
    ensures ok ==> Ascending(ordered) && multiset(ordered) == multiset(requested)
  {
    ordered := [];
    if requested == [] { return false, ordered; }
    var normalized: set<Root> := {};
    BeforeIsTotal();
    for i := 0 to |requested|
      invariant normalized == set x | x in requested[..i]
      invariant Distinct(requested[..i])
      invariant Sorted(ordered, Before) && multiset(ordered) == multiset(requested[..i])
    {
      assert requested[..i + 1] == requested[..i] + [requested[i]];
      if requested[i] in normalized {
        var j :| 0 <= j < i && requested[j] == requested[i];
        return false, ordered;
      }
      assert requested[i] !in multiset(ordered);
      normalized := normalized + {requested[i]};
      InsertSorted(requested[i], ordered, Before);
      InsertElements(requested[i], ordered, Before);
      ordered := Insert(requested[i], ordered, Before);
    }
    assert requested[..|requested|] == requested;
    return true, ordered;
  }
}
