/** When a rollover that is started again, and then left alone, comes to its end: it clones what
    it has not cloned, evaluates what it has not evaluated, and publishes.  Each of the three can
    be refused because of what other builds did in the meantime, or because the run itself was
    cut short at the wrong place. */
module RolloverRestart {
  import opened Sequences
  import opened ShadowRollover

  // ---- Runs in parts ----

  lemma OneAction(fams: seq<Family>, s: State, done: seq<Action>, a: Action)
    ensures RunFrom(fams, s, done + [a]) == Apply(fams, RunFrom(fams, s, done), a)
  {
    assert (done + [a])[..|done|] == done;
  }

  lemma FirstAction(fams: seq<Family>, s: State, a: Action)
    ensures RunFrom(fams, s, [a]) == Apply(fams, s, a)
  {
    assert [a] == [] + [a];
    OneAction(fams, s, [], a);
  }

  lemma {:induction false} RunSplit(fams: seq<Family>, s: State, first: seq<Action>, rest: seq<Action>)
    ensures RunFrom(fams, s, first + rest) == RunFrom(fams, RunFrom(fams, s, first), rest)
  {
    if rest == [] {
      assert first + rest == first;
    } else {
      var all := first + rest;
      assert all[..|all| - 1] == first + rest[..|rest| - 1];
      RunSplit(fams, s, first, rest[..|rest| - 1]);
    }
  }

  lemma {:induction false} KeepsBoth(fams: seq<Family>, s: State, schedule: seq<Action>)
    requires Inv(s) && Recorded(s) && Distinct(fams)
    ensures Inv(RunFrom(fams, s, schedule)) && Recorded(RunFrom(fams, s, schedule))
  {
    if schedule != [] {
      KeepsBoth(fams, s, schedule[..|schedule| - 1]);
      var t := RunFrom(fams, s, schedule[..|schedule| - 1]);
      assert Inv(Apply(fams, t, schedule[|schedule| - 1])) by { StepKeeps(fams, t, schedule[|schedule| - 1]); }
      assert Recorded(Apply(fams, t, schedule[|schedule| - 1])) by { StepRecorded(fams, t, schedule[|schedule| - 1]); }
    }
  }

  // ---- Cloning ----

  /** Whether the build can still clone the family: an unsealed version waits behind the published
      one, or the build's revise key for the family is unused. */
  ghost predicate Cloneable(s: State, b: Build, z: Frozen) {
    && z.family in s.pointers && HasVersion(s.versions, z.family)
    && (Latest(s.versions, z.family) != s.pointers[z.family] || (b, z.family) !in s.revisions)
  }

  ghost predicate FirstCloneable(s: State, b: Build, n: nat) {
    b in s.sources && n <= |s.sources[b]| && forall i :: 0 <= i < n ==> Cloneable(s, b, s.sources[b][i])
  }

  /** Cloning one family leaves open, or closed, what the others can do. */
  lemma CloneKeepsCloneable(s: State, b: Build, z: Frozen, y: Frozen)
    requires RepositoryOk(s) && RevisionsOk(s) && FamilyOk(s, z) && FamilyOk(s, y) && CloneFamily(s, b, z).Some?
    ensures Cloneable(CloneFamily(s, b, z).value.0, b, y) <==> Cloneable(s, b, y)
  {
    CloneSucceedsExactly(s, b, z);
    if Latest(s.versions, z.family) != s.pointers[z.family] {
      WaitingIsTaken(s, b, z);
    } else {
      FreshIsStored(s, b, z);
      LatestAfterAppend(s.versions, Revised(s, b, z).versions[|s.versions|], y.family);
    }
  }

  /** The run of `s` stands before the `k`-th family of build `b`. */
  ghost predicate AtFamily(s: State, b: Build, k: nat) {
    s.run.Cloning? && s.run.build == b && |s.run.drafts| == k && b in s.sources && k <= |s.sources[b]| == FAMILY_COUNT
  }

  function CloneSteps(s: State, n: nat): State {
    if n == 0 then s else CloneStep(CloneSteps(s, n - 1))
  }

  ghost predicate SameChances(s: State, t: State, b: Build) {
    && b in s.sources && b in t.sources && t.sources[b] == s.sources[b]
    && forall i :: 0 <= i < |s.sources[b]| ==> (Cloneable(t, b, s.sources[b][i]) <==> Cloneable(s, b, s.sources[b][i]))
  }

  /** What cloning the families of a build relies on. */
  ghost predicate Sound(s: State, b: Build) {
    && RepositoryOk(s) && RevisionsOk(s)
    && b in s.sources && forall k :: 0 <= k < |s.sources[b]| ==> FamilyOk(s, s.sources[b][k])
  }

  lemma InvIsSound(s: State, b: Build)
    requires Inv(s) && b in s.sources
    ensures Sound(s, b)
  {
  }

  lemma RoundKeepsCloneable(s: State, b: Build, z: Frozen, y: Frozen)
    requires s.run.Cloning? && s.run.build == b && b in s.sources && |s.run.drafts| < |s.sources[b]|
    requires z == s.sources[b][|s.run.drafts|] && CloneFamily(s, b, z).Some?
    requires RepositoryOk(s) && RevisionsOk(s) && FamilyOk(s, z) && FamilyOk(s, y)
    ensures Cloneable(CloneStep(s), b, y) <==> Cloneable(s, b, y)
  {
    CloneKeepsCloneable(s, b, z, y);
    var t := CloneFamily(s, b, z).value.0;
    assert CloneStep(s) == t.(run := CloneStep(s).run);
  }

  lemma CloneStepMoves(s: State, b: Build, k: nat)
    requires AtFamily(s, b, k) && k < FAMILY_COUNT
    ensures if CloneFamily(s, b, s.sources[b][k]).Some? then AtFamily(CloneStep(s), b, k + 1) else CloneStep(s).run.Idle?
  {
    if CloneFamily(s, b, s.sources[b][k]).Some? { CloneLeaves(s, b, s.sources[b][k]); }
  }

  lemma RoundSameChances(s: State, b: Build, k: nat)
    requires Sound(s, b) && AtFamily(s, b, k) && k < FAMILY_COUNT && CloneFamily(s, b, s.sources[b][k]).Some?
    ensures SameChances(s, CloneStep(s), b)
  {
    CloneStepLeaves(s);
    forall i | 0 <= i < |s.sources[b]| ensures Cloneable(CloneStep(s), b, s.sources[b][i]) <==> Cloneable(s, b, s.sources[b][i]) {
      RoundKeepsCloneable(s, b, s.sources[b][k], s.sources[b][i]);
    }
  }

  lemma CloneRound(s: State, b: Build, k: nat)
    requires Sound(s, b) && AtFamily(s, b, k) && k < FAMILY_COUNT
    ensures if Cloneable(s, b, s.sources[b][k]) then AtFamily(CloneStep(s), b, k + 1) && SameChances(s, CloneStep(s), b)
            else CloneStep(s).run.Idle?
  {
    CloneSucceedsExactly(s, b, s.sources[b][k]);
    CloneStepMoves(s, b, k);
    if Cloneable(s, b, s.sources[b][k]) { RoundSameChances(s, b, k); }
  }

  /** After `n` rounds a run stands before the next family, or was refused on the way. */
  ghost predicate AfterRounds(s: State, t: State, b: Build, n: nat) {
    t.sources == s.sources && if FirstCloneable(s, b, n) then AtFamily(t, b, n) && SameChances(s, t, b) else t.run.Idle?
  }

  lemma ChancesCompose(s: State, t: State, u: State, b: Build)
    requires SameChances(s, t, b) && SameChances(t, u, b)
    ensures SameChances(s, u, b)
  {
  }

  lemma RefusedRound(s: State, t: State, b: Build, n: nat)
    requires AtFamily(s, b, 0) && n < FAMILY_COUNT && t.sources == s.sources && t.run.Idle? && !FirstCloneable(s, b, n)
    ensures AfterRounds(s, CloneStep(t), b, n + 1)
  {
  }

  lemma NextRound(s: State, t: State, b: Build, n: nat)
    requires AtFamily(s, b, 0) && n < FAMILY_COUNT && AfterRounds(s, t, b, n)
    requires FirstCloneable(s, b, n) ==> Sound(t, b)
    ensures AfterRounds(s, CloneStep(t), b, n + 1)
  {
    if FirstCloneable(s, b, n) {
      CloneRound(t, b, n);
      OpenRound(s, t, CloneStep(t), b, n);
    } else {
      RefusedRound(s, t, b, n);
    }
  }

  lemma OpenRound(s: State, t: State, u: State, b: Build, n: nat)
    requires AtFamily(s, b, 0) && n < FAMILY_COUNT && u == CloneStep(t)
    requires FirstCloneable(s, b, n) && t.sources == s.sources && SameChances(s, t, b)
    requires if Cloneable(t, b, t.sources[b][n]) then AtFamily(u, b, n + 1) && SameChances(t, u, b) else u.run.Idle?
    ensures AfterRounds(s, u, b, n + 1)
  {
    CloneStepLeaves(t);
    assert Cloneable(t, b, t.sources[b][n]) == Cloneable(s, b, s.sources[b][n]);
    if Cloneable(t, b, t.sources[b][n]) { ChancesCompose(s, t, u, b); }
  }

  lemma {:induction false} ClonesKeep(s: State, n: nat)
    requires Inv(s)
    ensures Inv(CloneSteps(s, n))
  {
    if n > 0 {
      ClonesKeep(s, n - 1);
      CloneKeeps(CloneSteps(s, n - 1));
    }
  }

  lemma SoundOnTheWay(s: State, b: Build, n: nat)
    requires Inv(s) && b in CloneSteps(s, n).sources
    ensures Sound(CloneSteps(s, n), b)
  {
    ClonesKeep(s, n);
    InvIsSound(CloneSteps(s, n), b);
  }

  ghost predicate AlwaysSound(s: State, b: Build) {
    forall n: nat :: b in CloneSteps(s, n).sources ==> Sound(CloneSteps(s, n), b)
  }

  lemma {:induction false} CloneRounds(s: State, b: Build, n: nat)
    requires AlwaysSound(s, b) && AtFamily(s, b, 0) && n <= FAMILY_COUNT
    ensures AfterRounds(s, CloneSteps(s, n), b, n)
  {
    if n == 0 {
      BeforeRounds(s, b);
    } else {
      CloneRounds(s, b, n - 1);
      RoundAfter(s, b, n - 1);
    }
  }

  lemma BeforeRounds(s: State, b: Build)
    requires AtFamily(s, b, 0)
    ensures AfterRounds(s, s, b, 0)
  {
  }

  lemma RoundAfter(s: State, b: Build, n: nat)
    requires AlwaysSound(s, b) && AtFamily(s, b, 0) && n < FAMILY_COUNT && AfterRounds(s, CloneSteps(s, n), b, n)
    ensures AfterRounds(s, CloneSteps(s, n + 1), b, n + 1)
  {
    var t := CloneSteps(s, n);
    assert FirstCloneable(s, b, n) ==> b in t.sources;
    NextRound(s, t, b, n);
  }

  // ---- What cloning adds ----

  /** Only drafts of the build were added, and nothing else was touched. */
  ghost predicate OnlyCloned(s: State, t: State, b: Build) {
    && t == s.(versions := t.versions, revisions := t.revisions, run := t.run)
    && |s.versions| <= |t.versions| && t.versions[..|s.versions|] == s.versions
    && forall i :: |s.versions| <= i < |t.versions| ==> t.versions[i].maker == Some(b)
  }

  lemma OnlyClonedMore(s: State, t: State, u: State, b: Build)
    requires OnlyCloned(s, t, b) && OnlyCloned(t, u, b)
    ensures OnlyCloned(s, u, b)
  {
    assert u.versions[..|s.versions|] == u.versions[..|t.versions|][..|s.versions|];
    forall i | |s.versions| <= i < |u.versions| ensures u.versions[i].maker == Some(b) {
      if i < |t.versions| { assert u.versions[..|t.versions|][i] == t.versions[i]; }
    }
  }

  lemma CloneStepOnly(s: State, b: Build)
    requires s.run.Cloning? ==> s.run.build == b
    ensures OnlyCloned(s, CloneStep(s), b) && (CloneStep(s).run.Cloning? ==> CloneStep(s).run.build == b)
  {
    CloneStepLeaves(s);
  }

  lemma {:induction false} ClonesOnly(s: State, b: Build, n: nat)
    requires s.run.Cloning? && s.run.build == b
    ensures OnlyCloned(s, CloneSteps(s, n), b) && (CloneSteps(s, n).run.Cloning? ==> CloneSteps(s, n).run.build == b)
  {
    if n > 0 {
      ClonesOnly(s, b, n - 1);
      CloneStepOnly(CloneSteps(s, n - 1), b);
      OnlyClonedMore(s, CloneSteps(s, n - 1), CloneSteps(s, n), b);
    }
  }

  /** The drafts a run has cloned so far are unsealed. */
  predicate ClonedUnsealed(s: State) { s.run.Cloning? ==> AllUnsealed(s, s.run.drafts) }

  lemma CloneIsUnsealed(s: State, b: Build, z: Frozen)
    requires RepositoryOk(s) && RevisionsOk(s) && FamilyOk(s, z) && CloneFamily(s, b, z).Some?
    ensures var (t, id) := CloneFamily(s, b, z).value; id < |t.versions| && Unsealed(t.versions[id].lifecycle)
  {
    CloneSucceedsExactly(s, b, z);
    if Latest(s.versions, z.family) != s.pointers[z.family] { WaitingIsTaken(s, b, z); } else { FreshIsStored(s, b, z); }
  }

  lemma StepClonedUnsealed(s: State, b: Build)
    requires Sound(s, b) && ClonedUnsealed(s) && (s.run.Cloning? ==> s.run.build == b)
    ensures ClonedUnsealed(CloneStep(s))
  {
    var t := CloneStep(s);
    CloneStepLeaves(s);
    if s.run.Cloning? && t.run.Cloning? && t != s {
      var z := s.sources[b][|s.run.drafts|];
      CloneIsUnsealed(s, b, z);
      StaysUnsealed(s, t, s.run.drafts);
    }
  }

  lemma StaysUnsealed(s: State, t: State, ids: seq<VersionId>)
    requires AllUnsealed(s, ids) && |s.versions| <= |t.versions| && t.versions[..|s.versions|] == s.versions
    ensures AllUnsealed(t, ids)
  {
    assert forall i :: 0 <= i < |s.versions| ==> t.versions[..|s.versions|][i] == t.versions[i];
  }

  lemma {:induction false} ClonesUnsealed(s: State, b: Build, n: nat)
    requires AlwaysSound(s, b) && s.run == Cloning(b, []) && b in s.sources
    ensures ClonedUnsealed(CloneSteps(s, n))
  {
    if n > 0 {
      ClonesUnsealed(s, b, n - 1);
      ClonesOnly(s, b, n - 1);
      StepClonedUnsealed(CloneSteps(s, n - 1), b);
    }
  }

  function Clones(n: nat): seq<Action> { seq(n, _ => CloneNext) }

  lemma CloneNextIs(fams: seq<Family>, s: State)
    ensures Apply(fams, s, CloneNext) == CloneStep(s)
  {
  }

  lemma {:induction false} CloneStepsAreARun(fams: seq<Family>, s: State, n: nat)
    ensures CloneSteps(s, n) == RunFrom(fams, s, Clones(n))
  {
    if n > 0 {
      CloneStepsAreARun(fams, s, n - 1);
      assert Clones(n) == Clones(n - 1) + [CloneNext];
      OneAction(fams, s, Clones(n - 1), CloneNext);
      CloneNextIs(fams, CloneSteps(s, n - 1));
    }
  }

  // ---- Preparing the drafts ----

  /** What a restarted build does up to the draft state: nothing if it is written; else it clones
      family by family and writes it. */
  function Preparation(s: State, b: Build): seq<Action> {
    if b in s.drafts then [] else [StartCloning(b)] + Clones(FAMILY_COUNT) + [WriteDrafts]
  }

  ghost predicate Restartable(s: State, b: Build) {
    s.run.Idle? && b in s.sources && |s.sources[b]| == FAMILY_COUNT && b !in s.finished
  }

  /** The drafts were written, all of them unsealed; or the run was refused and wrote none. */
  ghost predicate Prepared(s: State, t: State, b: Build) {
    && t == s.(versions := t.versions, revisions := t.revisions, drafts := t.drafts)
    && OnlyCloned(s, t.(drafts := s.drafts), b)
    && if FirstCloneable(s, b, FAMILY_COUNT)
       then b in t.drafts && t.drafts == s.drafts[b := t.drafts[b]] && AllUnsealed(t, t.drafts[b])
       else t.drafts == s.drafts
  }

  lemma ClonesEnd(started: State, b: Build)
    requires Inv(started) && AtFamily(started, b, 0) && started.run.drafts == []
    ensures var t := CloneSteps(started, FAMILY_COUNT);
      && OnlyCloned(started, t, b)
      && if FirstCloneable(started, b, FAMILY_COUNT) then AtFamily(t, b, FAMILY_COUNT) && AllUnsealed(t, t.run.drafts)
         else t.run.Idle?
  {
    ClonesSound(started, b);
    ClonesUnsealed(started, b, FAMILY_COUNT);
    ClonesOnly(started, b, FAMILY_COUNT);
    CloneRounds(started, b, FAMILY_COUNT);
  }

  lemma ClonesSound(s: State, b: Build)
    requires Inv(s)
    ensures AlwaysSound(s, b)
  {
    forall n: nat | b in CloneSteps(s, n).sources ensures Sound(CloneSteps(s, n), b) {
      SoundOnTheWay(s, b, n);
    }
  }

  lemma StartedRun(fams: seq<Family>, s: State, b: Build)
    requires Restartable(s, b) && b !in s.drafts
    ensures RunFrom(fams, s, [StartCloning(b)] + Clones(FAMILY_COUNT)) == CloneSteps(s.(run := Cloning(b, [])), FAMILY_COUNT)
  {
    var started := s.(run := Cloning(b, []));
    FirstAction(fams, s, StartCloning(b));
    RunSplit(fams, s, [StartCloning(b)], Clones(FAMILY_COUNT));
    CloneStepsAreARun(fams, started, FAMILY_COUNT);
  }

  lemma SameCloneable(s: State, t: State, b: Build, n: nat)
    requires t == s.(run := t.run)
    ensures FirstCloneable(t, b, n) == FirstCloneable(s, b, n)
  {
    assert forall z :: Cloneable(t, b, z) == Cloneable(s, b, z);
  }

  lemma WritesPrepared(fams: seq<Family>, s: State, cloned: State, b: Build)
    requires b in s.sources && b !in s.drafts && s.run.Idle? && OnlyCloned(s.(run := Cloning(b, [])), cloned, b)
    requires if FirstCloneable(s, b, FAMILY_COUNT) then AtFamily(cloned, b, FAMILY_COUNT) && AllUnsealed(cloned, cloned.run.drafts)
             else cloned.run.Idle?
    ensures Prepared(s, Apply(fams, cloned, WriteDrafts), b)
  {
  }

  lemma PreparationRuns(fams: seq<Family>, s: State, b: Build)
    requires Inv(s) && Restartable(s, b) && b !in s.drafts
    ensures Prepared(s, RunFrom(fams, s, Preparation(s, b)), b)
  {
    var started := s.(run := Cloning(b, []));
    StartKeeps(s, b);
    ClonesEnd(started, b);
    SameCloneable(s, started, b, FAMILY_COUNT);
    StartedRun(fams, s, b);
    OneAction(fams, s, [StartCloning(b)] + Clones(FAMILY_COUNT), WriteDrafts);
    WritesPrepared(fams, s, CloneSteps(started, FAMILY_COUNT), b);
  }

  // ---- Evaluating ----

  /** What a restarted build does that has no evidence: evaluate and write it down. */
  function Evaluation(b: Build, outcome: nat): seq<Action> {
    [StartEvaluating(b)] + [Evaluated(Some(outcome))] + [WriteEvidence]
  }

  /** The drafts are all unsealed, and the same evaluation was not stored before. */
  ghost predicate CanEvaluate(s: State, b: Build, outcome: nat) {
    b in s.drafts && AllUnsealed(s, s.drafts[b]) && NewAttempt(s, b, Some(outcome)) !in s.attempts
  }

  lemma EvaluationSteps(fams: seq<Family>, s: State, b: Build, outcome: nat)
    ensures RunFrom(fams, s, Evaluation(b, outcome))
            == Apply(fams, Apply(fams, Apply(fams, s, StartEvaluating(b)), Evaluated(Some(outcome))), WriteEvidence)
  {
    FirstAction(fams, s, StartEvaluating(b));
    OneAction(fams, s, [StartEvaluating(b)], Evaluated(Some(outcome)));
    OneAction(fams, s, [StartEvaluating(b)] + [Evaluated(Some(outcome))], WriteEvidence);
  }

  lemma IdleEvaluatesNothing(fams: seq<Family>, s: State, a: Action)
    requires s.run.Idle? && (a.Evaluated? || a.WriteEvidence?)
    ensures Apply(fams, s, a) == s
  {
  }

  lemma EvaluationStarts(fams: seq<Family>, s: State, b: Build)
    requires s.run.Idle? && b in s.drafts && DraftsHold(s, b) && b !in s.evidence
    ensures Apply(fams, s, StartEvaluating(b)) == if AllUnsealed(s, s.drafts[b]) then s.(run := Evaluating(b)) else s
  {
  }

  lemma EvaluationStored(fams: seq<Family>, s: State, b: Build, outcome: nat)
    requires s.run == Evaluating(b) && b in s.drafts
    ensures var x := NewAttempt(s, b, Some(outcome));
      Apply(fams, s, Evaluated(Some(outcome)))
      == if x in s.attempts then s.(attempts := s.attempts + [x.(outcome := None)], run := Idle)
         else s.(attempts := s.attempts + [x], run := Recording(b, |s.attempts|))
  {
  }

  lemma EvaluationRuns(fams: seq<Family>, s: State, b: Build, outcome: nat)
    requires s.run.Idle? && b in s.drafts && DraftsHold(s, b) && b !in s.evidence
    ensures var t := RunFrom(fams, s, Evaluation(b, outcome));
      if CanEvaluate(s, b, outcome)
      then t == s.(attempts := s.attempts + [NewAttempt(s, b, Some(outcome))], evidence := s.evidence[b := |s.attempts|])
      else t == s.(attempts := t.attempts)
  {
    EvaluationSteps(fams, s, b, outcome);
    EvaluationStarts(fams, s, b);
    if AllUnsealed(s, s.drafts[b]) {
      var u := s.(run := Evaluating(b));
      assert NewAttempt(u, b, Some(outcome)) == NewAttempt(s, b, Some(outcome));
      EvaluationStored(fams, u, b, outcome);
      EvidenceWritten(fams, s, u, b, outcome);
    } else {
      IdleEvaluatesNothing(fams, s, Evaluated(Some(outcome)));
      IdleEvaluatesNothing(fams, s, WriteEvidence);
    }
  }

  lemma EvidenceWritten(fams: seq<Family>, s: State, u: State, b: Build, outcome: nat)
    requires s.run.Idle? && b in s.drafts && u == s.(run := Evaluating(b))
    ensures var x := NewAttempt(s, b, Some(outcome));
      && Apply(fams, u.(attempts := s.attempts + [x.(outcome := None)], run := Idle), WriteEvidence)
         == s.(attempts := s.attempts + [x.(outcome := None)])
      && Apply(fams, u.(attempts := s.attempts + [x], run := Recording(b, |s.attempts|)), WriteEvidence)
         == s.(attempts := s.attempts + [x], evidence := s.evidence[b := |s.attempts|])
  {
  }

  // ---- Publishing ----

  /** Publishing can leave the candidate as the family's published version, under the build's own
      contract: it is unsealed and authorized, or it is there already. */
  predicate Settles(s: State, b: Build, id: VersionId) {
    id < |s.versions| &&
    if Unsealed(s.versions[id].lifecycle) then Authorizes(s, b, id)
    else s.versions[id].lifecycle.Shadow? && OwnPointer(s, b, id)
  }

  predicate AllSettle(s: State, b: Build) {
    b in s.drafts && forall k :: 0 <= k < |s.drafts[b]| ==> Settles(s, b, s.drafts[b][k])
  }

  ghost predicate FamiliesApart(s: State, ids: seq<VersionId>) {
    forall i, j :: 0 <= i < |ids| && 0 <= j < |ids| && ids[i] < |s.versions| && ids[j] < |s.versions| ==>
      s.versions[ids[i]].family == s.versions[ids[j]].family ==> ids[i] == ids[j]
  }

  lemma CandidatesApart(s: State, b: Build)
    requires Inv(s) && b in s.drafts
    ensures FamiliesApart(s, s.drafts[b])
  {
    var ids := s.drafts[b];
    assert CandidatesOk(s, b, ids);
    SameSources(s, b, b);
    forall k | 0 <= k < |ids| ensures ids[k] < |s.versions| && s.versions[ids[k]].family == s.sources[b][k].family {
      assert CandidateOk(s, s.sources[b][k], ids[k]);
    }
  }

  lemma CallSettles(s: State, b: Build, id: VersionId, other: VersionId)
    requires id < |s.versions| && other < |s.versions| && Unsealed(s.versions[id].lifecycle) && Authorizes(s, b, id)
    requires s.versions[id].family == s.versions[other].family ==> id == other
    ensures Settles(Call(s, b, id), b, other) <==> Settles(s, b, other)
  {
    CallLeaves(s, b, id);
  }

  lemma CallAllSettle(s: State, b: Build, k: nat)
    requires b in s.drafts && k < |s.drafts[b]| && FamiliesApart(s, s.drafts[b])
    requires forall i :: 0 <= i < |s.drafts[b]| ==> s.drafts[b][i] < |s.versions|
    requires Unsealed(s.versions[s.drafts[b][k]].lifecycle) && Authorizes(s, b, s.drafts[b][k])
    ensures AllSettle(Call(s, b, s.drafts[b][k]), b) <==> AllSettle(s, b)
  {
    var t := Call(s, b, s.drafts[b][k]);
    CallLeaves(s, b, s.drafts[b][k]);
    forall i | 0 <= i < |s.drafts[b]| ensures Settles(t, b, s.drafts[b][i]) <==> Settles(s, b, s.drafts[b][i]) {
      CallSettles(s, b, s.drafts[b][k], s.drafts[b][i]);
    }
  }

  ghost predicate Pending(s: State, b: Build) { s.run.Publishing? && s.run.build == b }

  /** Steps a publishing run has left. */
  function StepsLeft(s: State): (n: nat)
    ensures 1 <= n
  {
    if !s.run.Publishing? || s.run.build !in s.drafts || s.run.k >= |s.drafts[s.run.build]| then 1
    else
      var ids := s.drafts[s.run.build];
      if ids[s.run.k] >= |s.versions| then 1
      else
        3 * (|ids| - s.run.k) + 1 -
          match s.versions[ids[s.run.k]].lifecycle
          case Draft => 0
          case DevelopmentTested => 1
          case _ => 2
  }

  lemma CandidatesThere(s: State, b: Build)
    requires Inv(s) && b in s.drafts
    ensures |s.drafts[b]| == FAMILY_COUNT
    ensures forall i :: 0 <= i < |s.drafts[b]| ==>
              s.drafts[b][i] < |s.versions| && !s.versions[s.drafts[b][i]].lifecycle.Withdrawn?
  {
    assert CandidatesOk(s, b, s.drafts[b]);
    forall i | 0 <= i < |s.drafts[b]| ensures s.drafts[b][i] < |s.versions| && !s.versions[s.drafts[b][i]].lifecycle.Withdrawn? {
      assert CandidateOk(s, s.sources[b][i], s.drafts[b][i]);
    }
  }

  /** A step ends the run, or brings it nearer to its end and leaves open what the end will be. */
  ghost predicate Proceeds(s: State, t: State, b: Build) {
    if Pending(t, b) then t.finished == s.finished && StepsLeft(t) < StepsLeft(s) && (AllSettle(t, b) <==> AllSettle(s, b))
    else t.run.Idle? && t.finished == if AllSettle(s, b) then s.finished + {b} else s.finished
  }

  /** A call brings the candidate one lifecycle further, and the run one step nearer to its end. */
  lemma CallNearer(s: State, b: Build)
    requires Pending(s, b) && b in s.drafts && s.run.k < |s.drafts[b]|
    requires var id := s.drafts[b][s.run.k]; id < |s.versions| && Unsealed(s.versions[id].lifecycle)
    ensures StepsLeft(Call(s, b, s.drafts[b][s.run.k])) < StepsLeft(s)
  {
    CallLeaves(s, b, s.drafts[b][s.run.k]);
  }

  lemma CallProceeds(s: State, b: Build)
    requires Pending(s, b) && b in s.drafts && s.run.k < |s.drafts[b]| && FamiliesApart(s, s.drafts[b])
    requires forall i :: 0 <= i < |s.drafts[b]| ==> s.drafts[b][i] < |s.versions|
    requires var id := s.drafts[b][s.run.k]; Unsealed(s.versions[id].lifecycle) && Authorizes(s, b, id)
    ensures Proceeds(s, Call(s, b, s.drafts[b][s.run.k]), b)
  {
    var t := Call(s, b, s.drafts[b][s.run.k]);
    assert AllSettle(t, b) <==> AllSettle(s, b) by { CallAllSettle(s, b, s.run.k); }
    CallNearer(s, b);
    assert t.run == s.run && t.finished == s.finished by { CallLeaves(s, b, s.drafts[b][s.run.k]); }
  }

  lemma SameSettle(s: State, t: State, b: Build)
    requires t == s.(run := t.run)
    ensures AllSettle(t, b) <==> AllSettle(s, b)
  {
    assert forall id :: Settles(t, b, id) == Settles(s, b, id);
  }

  lemma SkipProceeds(s: State, b: Build)
    requires Pending(s, b) && b in s.drafts && s.run.k < |s.drafts[b]|
    requires s.drafts[b][s.run.k] < |s.versions| && s.versions[s.drafts[b][s.run.k]].lifecycle.Shadow?
    requires forall i :: 0 <= i < |s.drafts[b]| ==> s.drafts[b][i] < |s.versions|
    ensures Proceeds(s, s.(run := Publishing(b, s.run.k + 1)), b)
  {
    SameSettle(s, s.(run := Publishing(b, s.run.k + 1)), b);
  }

  /** When all candidates are in shadow, the run concludes exactly if they all settle. */
  lemma EndProceeds(s: State, b: Build)
    requires Inv(s) && Pending(s, b) && s.run.k >= |s.drafts[b]|
    ensures Proceeds(s, PublishStep(s), b)
  {
    CandidatesThere(s, b);
    assert ShadowFirst(s, s.drafts[b], FAMILY_COUNT);
    forall k | 0 <= k < |s.drafts[b]| ensures Settles(s, b, s.drafts[b][k]) <==> OwnPointer(s, b, s.drafts[b][k]) {
    }
  }

  lemma StepProceeds(s: State, b: Build)
    requires Inv(s) && Pending(s, b)
    ensures Proceeds(s, PublishStep(s), b)
  {
    CandidatesThere(s, b);
    CandidatesApart(s, b);
    if s.run.k >= |s.drafts[b]| {
      EndProceeds(s, b);
    } else {
      var id := s.drafts[b][s.run.k];
      if s.versions[id].lifecycle.Shadow? {
        SkipProceeds(s, b);
      } else if Authorizes(s, b, id) {
        CallProceeds(s, b);
      }
    }
  }

  function PublishSteps(s: State, n: nat): State {
    if n == 0 then s else PublishStep(PublishSteps(s, n - 1))
  }

  lemma IdleStep(s: State)
    requires s.run.Idle?
    ensures PublishStep(s) == s
  {
  }

  /** Once the run has ended, nothing more happens. */
  lemma {:induction false} EndStays(s: State, m: nat, n: nat)
    requires PublishSteps(s, m).run.Idle? && m <= n
    ensures PublishSteps(s, n) == PublishSteps(s, m)
  {
    if m < n {
      EndStays(s, m, n - 1);
      IdleStep(PublishSteps(s, n - 1));
    }
  }

  lemma {:induction false} IdlePublishesNothing(s: State, n: nat)
    requires !s.run.Publishing?
    ensures PublishSteps(s, n) == s
  {
    if n > 0 { IdlePublishesNothing(s, n - 1); }
  }

  lemma {:induction false} PublishesKeep(s: State, n: nat)
    requires Inv(s)
    ensures Inv(PublishSteps(s, n))
  {
    if n > 0 {
      PublishesKeep(s, n - 1);
      PublishKeeps(PublishSteps(s, n - 1));
    }
  }

  ghost predicate AlwaysProceeds(s: State, b: Build) {
    forall n: nat :: Pending(PublishSteps(s, n), b) ==> Proceeds(PublishSteps(s, n), PublishStep(PublishSteps(s, n)), b)
  }

  lemma PublishesProceed(s: State, b: Build)
    requires Inv(s)
    ensures AlwaysProceeds(s, b)
  {
    forall n: nat | Pending(PublishSteps(s, n), b)
      ensures Proceeds(PublishSteps(s, n), PublishStep(PublishSteps(s, n)), b)
    {
      PublishesKeep(s, n);
      StepProceeds(PublishSteps(s, n), b);
    }
  }

  lemma {:induction false} EndsFrom(s: State, b: Build, m: nat) returns (n: nat)
    requires AlwaysProceeds(s, b) && Pending(PublishSteps(s, m), b)
    requires PublishSteps(s, m).finished == s.finished && AllSettle(PublishSteps(s, m), b) == AllSettle(s, b)
    ensures n <= m + StepsLeft(PublishSteps(s, m)) && PublishSteps(s, n).run.Idle?
    ensures PublishSteps(s, n).finished == if AllSettle(s, b) then s.finished + {b} else s.finished
    decreases StepsLeft(PublishSteps(s, m))
  {
    var t, u := PublishSteps(s, m), PublishSteps(s, m + 1);
    assert u == PublishStep(t);
    n := m + 1;
    if Pending(u, b) { n := EndsFrom(s, b, m + 1); }
  }

  /** Left alone, a publishing run ends within thirteen steps: it has finished its build exactly if
      all candidates settle, and otherwise no build. */
  lemma PublishEnds(s: State, b: Build) returns (n: nat)
    requires Inv(s) && Pending(s, b)
    ensures n <= StepsLeft(s) && PublishSteps(s, n).run.Idle?
    ensures PublishSteps(s, n).finished == if AllSettle(s, b) then s.finished + {b} else s.finished
  {
    PublishesProceed(s, b);
    n := EndsFrom(s, b, 0);
  }

  lemma StepsLeftBound(s: State, b: Build)
    requires Inv(s) && Pending(s, b)
    ensures StepsLeft(s) <= 3 * FAMILY_COUNT + 1
  {
    CandidatesThere(s, b);
  }

  lemma {:induction false} FinishedGrows(s: State, m: nat, n: nat)
    requires m <= n
    ensures PublishSteps(s, m).finished <= PublishSteps(s, n).finished
  {
    if m < n {
      FinishedGrows(s, m, n - 1);
      PublishFinished(PublishSteps(s, n - 1));
    }
  }

  lemma PublishFinished(s: State)
    ensures s.finished <= PublishStep(s).finished
  {
    if s.run.Publishing? && s.run.build in s.drafts && s.run.k < |s.drafts[s.run.build]| {
      var id := s.drafts[s.run.build][s.run.k];
      if id < |s.versions| { CallLeaves(s, s.run.build, id); }
    }
  }

  /** A publishing run, left alone, finishes exactly if each candidate is unsealed and authorized by
      the build's evaluation, or is published already under the build's contract. */
  lemma PublishFinishesExactly(s: State, b: Build)
    requires Inv(s) && Pending(s, b) && b !in s.finished
    ensures AllSettle(s, b) ==> exists n: nat :: n <= 3 * FAMILY_COUNT + 1 && b in PublishSteps(s, n).finished
    ensures !AllSettle(s, b) ==> forall n: nat :: b !in PublishSteps(s, n).finished
  {
    var n := PublishEnds(s, b);
    StepsLeftBound(s, b);
    if !AllSettle(s, b) {
      forall m: nat ensures b !in PublishSteps(s, m).finished {
        if m <= n { FinishedGrows(s, m, n); } else { EndStays(s, n, m); }
      }
    }
  }

  function Repeat(n: nat): seq<Action> { seq(n, _ => PublishNext) }

  lemma PublishNextIs(fams: seq<Family>, s: State)
    ensures Apply(fams, s, PublishNext) == PublishStep(s)
  {
  }

  lemma {:induction false} PublishStepsAreARun(fams: seq<Family>, s: State, n: nat)
    ensures PublishSteps(s, n) == RunFrom(fams, s, Repeat(n))
  {
    if n > 0 {
      PublishStepsAreARun(fams, s, n - 1);
      assert Repeat(n) == Repeat(n - 1) + [PublishNext];
      OneAction(fams, s, Repeat(n - 1), PublishNext);
      PublishNextIs(fams, PublishSteps(s, n - 1));
    }
  }

  // ---- The whole restarted build ----

  /** Everything before publishing. */
  function Beginning(s: State, b: Build, outcome: nat): seq<Action> {
    Preparation(s, b) + if b in s.evidence then [] else Evaluation(b, outcome)
  }

  /** A restarted build that nothing disturbs and whose evaluation, if one is due, passes with the
      given outcome; with `n` steps of publishing. */
  function Restart(s: State, b: Build, outcome: nat, n: nat): seq<Action> {
    Beginning(s, b, outcome) + [StartPublishing(b)] + Repeat(n)
  }

  /** With evidence: every candidate is unsealed and authorized by it, or published already under the
      build's contract.  With drafts but no evidence: all of them are unsealed, and this evaluation
      of them was not stored before.  Without drafts: every family can still be cloned. */
  ghost predicate CanFinish(s: State, b: Build, outcome: nat) {
    if b in s.evidence then AllSettle(s, b)
    else if b in s.drafts then CanEvaluate(s, b, outcome)
    else FirstCloneable(s, b, FAMILY_COUNT)
  }

  /** What the beginning of a build without evidence leads to. */
  ghost predicate Begun(s: State, t: State, b: Build) {
    && t == s.(versions := t.versions, revisions := t.revisions, drafts := t.drafts,
               attempts := t.attempts, evidence := s.evidence[b := |s.attempts|])
    && OnlyCloned(s, t.(drafts := s.drafts, attempts := s.attempts, evidence := s.evidence), b)
    && b in t.drafts && t.drafts == s.drafts[b := t.drafts[b]] && AllUnsealed(t, t.drafts[b])
    && exists x :: t.attempts == s.attempts + [x] && x.build == b && x.candidates == t.drafts[b] && x.outcome.Some?
  }

  lemma NothingPreparedTwice(fams: seq<Family>, s: State, b: Build)
    requires b in s.drafts
    ensures RunFrom(fams, s, Preparation(s, b)) == s
  {
  }

  lemma {:induction false} LastIsLatest(attempts: seq<Attempt>, id: VersionId)
    requires attempts != [] && attempts[|attempts| - 1].outcome.Some? && id in attempts[|attempts| - 1].candidates
    ensures LatestEvaluation(attempts, id, |attempts|) == Some(|attempts| - 1)
  {
    assert Standing(attempts, |attempts| - 1);
  }

  /** Having just been evaluated, all candidates settle. */
  lemma BegunSettles(s: State, t: State, b: Build)
    requires Begun(s, t, b)
    ensures AllSettle(t, b)
  {
    forall k | 0 <= k < |t.drafts[b]| ensures Settles(t, b, t.drafts[b][k]) {
      assert t.drafts[b][k] in t.attempts[|s.attempts|].candidates;
      LastIsLatest(t.attempts, t.drafts[b][k]);
    }
  }

  lemma NeverEvaluated(s: State, t: State, b: Build, outcome: nat)
    requires Recorded(s) && b !in s.drafts && b in t.drafts && t.attempts == s.attempts
    ensures NewAttempt(t, b, Some(outcome)) !in t.attempts
  {
  }

  /** The first part: the drafts are there and can be evaluated, or the build was refused. */
  lemma BeginsWithDrafts(fams: seq<Family>, s: State, b: Build, outcome: nat)
    requires Inv(s) && Recorded(s) && Distinct(fams) && Restartable(s, b) && b !in s.evidence
    ensures var t := RunFrom(fams, s, Preparation(s, b));
      && Inv(t) && Recorded(t)
      && (CanEvaluate(t, b, outcome) <==> CanFinish(s, b, outcome))
      && if b in s.drafts then t == s else Prepared(s, t, b)
  {
    KeepsBoth(fams, s, Preparation(s, b));
    if b in s.drafts {
      NothingPreparedTwice(fams, s, b);
    } else {
      PreparationRuns(fams, s, b);
      var t := RunFrom(fams, s, Preparation(s, b));
      if b in t.drafts { NeverEvaluated(s, t, b, outcome); }
    }
  }

  lemma BegunFrom(s: State, t: State, u: State, b: Build, outcome: nat)
    requires b !in s.evidence && (if b in s.drafts then t == s else Prepared(s, t, b)) && CanEvaluate(t, b, outcome)
    requires u == t.(attempts := t.attempts + [NewAttempt(t, b, Some(outcome))], evidence := t.evidence[b := |t.attempts|])
    ensures Begun(s, u, b)
  {
    assert u.attempts == s.attempts + [NewAttempt(t, b, Some(outcome))];
    if b in s.drafts {
      assert s.drafts[b := s.drafts[b]] == s.drafts;
      assert s.versions[..|s.versions|] == s.versions;
    }
  }

  /** The build has evidence at the end of its beginning exactly if it can finish. */
  lemma Begins(fams: seq<Family>, s: State, b: Build, outcome: nat)
    requires Inv(s) && Recorded(s) && Distinct(fams) && Restartable(s, b) && b !in s.evidence
    ensures var t := RunFrom(fams, s, Beginning(s, b, outcome));
      if CanFinish(s, b, outcome) then Begun(s, t, b) else b !in t.evidence && t.run.Idle? && t.finished == s.finished
  {
    BeginsWithDrafts(fams, s, b, outcome);
    var t := RunFrom(fams, s, Preparation(s, b));
    RunSplit(fams, s, Preparation(s, b), Evaluation(b, outcome));
    if b in t.drafts {
      WrittenDraftsHold(t, b);
      EvaluationRuns(fams, t, b, outcome);
      if CanEvaluate(t, b, outcome) { BegunFrom(s, t, RunFrom(fams, t, Evaluation(b, outcome)), b, outcome); }
    } else {
      NothingToEvaluate(fams, t, b, outcome);
    }
  }

  lemma NothingToEvaluate(fams: seq<Family>, s: State, b: Build, outcome: nat)
    requires s.run.Idle? && b !in s.drafts
    ensures RunFrom(fams, s, Evaluation(b, outcome)) == s
  {
    EvaluationSteps(fams, s, b, outcome);
    assert Apply(fams, s, StartEvaluating(b)) == s;
    IdleEvaluatesNothing(fams, s, Evaluated(Some(outcome)));
    IdleEvaluatesNothing(fams, s, WriteEvidence);
  }

  /** With or without evidence at first: what the beginning comes to. */
  lemma BeginsExactly(fams: seq<Family>, s: State, b: Build, outcome: nat)
    requires Inv(s) && Recorded(s) && Distinct(fams) && Restartable(s, b)
    ensures var t := RunFrom(fams, s, Beginning(s, b, outcome));
      && Inv(t) && Recorded(t) && t.run.Idle? && t.finished == s.finished
      && (CanFinish(s, b, outcome) <==> b in t.evidence && AllSettle(t, b))
      && (CanFinish(s, b, outcome) && b !in s.evidence ==> Begun(s, t, b))
  {
    var t := RunFrom(fams, s, Beginning(s, b, outcome));
    if b in s.evidence {
      assert EvidenceOk(s, b);
      assert Beginning(s, b, outcome) == [];
    } else {
      assert Inv(t) && Recorded(t) by { KeepsBoth(fams, s, Beginning(s, b, outcome)); }
      Begins(fams, s, b, outcome);
      if CanFinish(s, b, outcome) { BegunSettles(s, t, b); }
    }
  }

  lemma PublishingStarts(fams: seq<Family>, t: State, b: Build, n: nat)
    requires Inv(t) && Recorded(t) && t.run.Idle? && b !in t.finished
    ensures RunFrom(fams, t, [StartPublishing(b)] + Repeat(n))
            == if b in t.evidence then PublishSteps(t.(run := Publishing(b, 0)), n) else t
  {
    if b in t.evidence {
      assert EvidenceOk(t, b);
      WrittenDraftsHold(t, b);
    }
    var u := if b in t.evidence then t.(run := Publishing(b, 0)) else t;
    FirstAction(fams, t, StartPublishing(b));
    RunSplit(fams, t, [StartPublishing(b)], Repeat(n));
    PublishStepsAreARun(fams, u, n);
    if b !in t.evidence { IdlePublishesNothing(t, n); }
  }

  lemma AfterBeginning(fams: seq<Family>, s: State, b: Build, outcome: nat, n: nat)
    ensures RunFrom(fams, s, Restart(s, b, outcome, n))
            == RunFrom(fams, RunFrom(fams, s, Beginning(s, b, outcome)), [StartPublishing(b)] + Repeat(n))
  {
    assert Restart(s, b, outcome, n) == Beginning(s, b, outcome) + ([StartPublishing(b)] + Repeat(n));
    RunSplit(fams, s, Beginning(s, b, outcome), [StartPublishing(b)] + Repeat(n));
  }

  lemma PublishingExactly(fams: seq<Family>, t: State, b: Build)
    requires Inv(t) && Recorded(t) && t.run.Idle? && b !in t.finished
    ensures b in t.evidence && AllSettle(t, b) ==>
              exists n: nat :: n <= 3 * FAMILY_COUNT + 1 && b in RunFrom(fams, t, [StartPublishing(b)] + Repeat(n)).finished
    ensures !(b in t.evidence && AllSettle(t, b)) ==>
              forall n: nat :: b !in RunFrom(fams, t, [StartPublishing(b)] + Repeat(n)).finished
  {
    if b in t.evidence { PublishingFrom(t, b); }
    forall n: nat
      ensures RunFrom(fams, t, [StartPublishing(b)] + Repeat(n))
              == if b in t.evidence then PublishSteps(t.(run := Publishing(b, 0)), n) else t
    {
      PublishingStarts(fams, t, b, n);
    }
  }

  lemma PublishingFrom(t: State, b: Build)
    requires Inv(t) && Recorded(t) && t.run.Idle? && b !in t.finished && b in t.evidence
    ensures AllSettle(t, b) ==>
              exists n: nat :: n <= 3 * FAMILY_COUNT + 1 && b in PublishSteps(t.(run := Publishing(b, 0)), n).finished
    ensures !AllSettle(t, b) ==> forall n: nat :: b !in PublishSteps(t.(run := Publishing(b, 0)), n).finished
  {
    var u := t.(run := Publishing(b, 0));
    assert EvidenceOk(t, b);
    StartKeeps(t, b);
    PublishFinishesExactly(u, b);
    SameSettle(t, u, b);
  }

  /** A build that was interrupted and is restarted, left alone, finishes exactly if it can: within
      thirteen steps of publishing, or never. */
  lemma RestartFinishesExactly(fams: seq<Family>, s: State, b: Build, outcome: nat)
    requires Inv(s) && Recorded(s) && Distinct(fams) && Restartable(s, b)
    ensures CanFinish(s, b, outcome) ==>
              exists n: nat :: n <= 3 * FAMILY_COUNT + 1 && b in RunFrom(fams, s, Restart(s, b, outcome, n)).finished
    ensures !CanFinish(s, b, outcome) ==>
              forall n: nat :: b !in RunFrom(fams, s, Restart(s, b, outcome, n)).finished
  {
    BeginsExactly(fams, s, b, outcome);
    PublishingExactly(fams, RunFrom(fams, s, Beginning(s, b, outcome)), b);
    forall n: nat
      ensures RunFrom(fams, s, Restart(s, b, outcome, n))
              == RunFrom(fams, RunFrom(fams, s, Beginning(s, b, outcome)), [StartPublishing(b)] + Repeat(n))
    {
      AfterBeginning(fams, s, b, outcome, n);
    }
  }
}
