/** Three ways in which a rollover that was interrupted can never be finished by starting it again,
    each from every repository that can be rolled over at all. */
module RolloverRefusals {
  import opened Sequences
  import opened ShadowRollover
  import opened RolloverRestart

  /** A repository whose families can all be frozen, and that no rollover has touched. */
  ghost predicate Startable(fams: seq<Family>, s: State) {
    && Initial(s) && Distinct(fams) && |fams| == FAMILY_COUNT && OneContract(fams, s)
    && forall f <- fams :: Freezable(s, f)
  }

  /** Starting the build again, with any outcome of an evaluation, never finishes it. */
  ghost predicate Refused(fams: seq<Family>, s: State, b: Build, outcome: nat) {
    Restartable(s, b) && forall n: nat :: b !in RunFrom(fams, s, Restart(s, b, outcome, n)).finished
  }

  lemma RefusedUnlessCan(fams: seq<Family>, s: State, b: Build, outcome: nat)
    requires Inv(s) && Recorded(s) && Distinct(fams) && Restartable(s, b) && !CanFinish(s, b, outcome)
    ensures Refused(fams, s, b, outcome)
  {
    RestartFinishesExactly(fams, s, b, outcome);
  }

  // ---- Freezing ----

  lemma FirstFreeze(fams: seq<Family>, s: State, a: Build)
    requires Startable(fams, s)
    ensures (forall f <- fams :: Published(s, f)) && Inv(s) && Recorded(s)
    ensures RunFrom(fams, s, [Freeze(a, a)]) == s.(sources := map[a := FreezeAll(s, fams)])
  {
    FreezableArePublished(fams, s);
    FirstAction(fams, s, Freeze(a, a));
    assert s.sources[a := FreezeAll(s, fams)] == map[a := FreezeAll(s, fams)];
  }

  /** The state after the first freeze. */
  function Frozen1(fams: seq<Family>, s: State, a: Build): State
    requires forall f <- fams :: Published(s, f)
  {
    s.(sources := map[a := FreezeAll(s, fams)])
  }

  lemma FrozenCanClone(fams: seq<Family>, s: State, a: Build)
    requires Startable(fams, s) && forall f <- fams :: Published(s, f)
    ensures var t := Frozen1(fams, s, a); Restartable(t, a) && FirstCloneable(t, a, FAMILY_COUNT)
  {
    var t := Frozen1(fams, s, a);
    forall i | 0 <= i < FAMILY_COUNT ensures Cloneable(t, a, t.sources[a][i]) {
      assert fams[i] in fams;
    }
  }

  lemma Alive(s: State, z: Frozen)
    requires RepositoryOk(s) && FamilyOk(s, z)
    ensures StillLive(s, z)
  {
  }

  /** Another build takes over the sources, as long as nothing was published in between. */
  lemma FollowingFreeze(fams: seq<Family>, s: State, a: Build, b: Build)
    requires Inv(s) && s.run.Idle? && a in s.sources && b !in s.sources && OneContract(fams, s)
    ensures RunFrom(fams, s, [Freeze(b, a)]) == s.(sources := s.sources[b := s.sources[a]])
  {
    FirstAction(fams, s, Freeze(b, a));
    forall z | z in s.sources[a] ensures StillLive(s, z) {
      var i :| 0 <= i < |s.sources[a]| && s.sources[a][i] == z;
      assert FamilyOk(s, s.sources[a][i]);
      Alive(s, z);
    }
  }

  // ---- Waiting candidates ----

  /** Every family has an unsealed version waiting behind its published one. */
  ghost predicate AllWaiting(s: State, b: Build) {
    b in s.sources && forall k :: 0 <= k < |s.sources[b]| ==>
      var f := s.sources[b][k].family;
      HasVersion(s.versions, f) && f in s.pointers && Latest(s.versions, f) != s.pointers[f]
  }

  lemma UnsealedAreLatest(s: State, b: Build, ids: seq<VersionId>)
    requires CandidatesOk(s, b, ids) && |ids| == FAMILY_COUNT && AllUnsealed(s, ids)
    ensures AllWaiting(s, b)
    ensures forall k :: 0 <= k < |ids| ==> ids[k] == Latest(s.versions, s.sources[b][k].family)
  {
    forall k | 0 <= k < |ids| ensures CandidateOk(s, s.sources[b][k], ids[k]) {
    }
  }

  lemma WaitingCloneable(s: State, t: State, a: Build, b: Build)
    requires AllWaiting(s, a) && |s.sources[a]| == FAMILY_COUNT && t == s.(sources := s.sources[b := s.sources[a]])
    ensures FirstCloneable(t, b, FAMILY_COUNT)
  {
  }

  // ---- An evaluation of another build supersedes the build's own ----

  /** The build has written its drafts, passed their evaluation and was then interrupted. */
  ghost predicate Evaluated1(fams: seq<Family>, t: State, a: Build) {
    && t.run.Idle? && a in t.evidence && a in t.drafts && AllUnsealed(t, t.drafts[a])
    && t.sources.Keys == {a} && |t.sources[a]| == FAMILY_COUNT && t.drafts.Keys == {a} && t.evidence.Keys == {a} && t.finished == {}
    && OneContract(fams, t)
  }

  lemma EvaluateFirst(fams: seq<Family>, s: State, a: Build, outcome: nat) returns (schedule: seq<Action>)
    requires Startable(fams, s)
    ensures Evaluated1(fams, RunFrom(fams, s, schedule), a)
    ensures Inv(RunFrom(fams, s, schedule)) && Recorded(RunFrom(fams, s, schedule))
  {
    FirstFreeze(fams, s, a);
    var u := Frozen1(fams, s, a);
    FrozenCanClone(fams, s, a);
    schedule := [Freeze(a, a)] + Beginning(u, a, outcome);
    RunSplit(fams, s, [Freeze(a, a)], Beginning(u, a, outcome));
    KeepsBoth(fams, s, [Freeze(a, a)]);
    BeginsExactly(fams, u, a, outcome);
    EvaluatedFirst(fams, s, u, RunFrom(fams, u, Beginning(u, a, outcome)), a);
  }

  lemma EvaluatedFirst(fams: seq<Family>, s: State, u: State, t: State, a: Build)
    requires OneContract(fams, s) && |fams| == FAMILY_COUNT && s.drafts == map[] && s.evidence == map[] && s.finished == {}
    requires (forall f <- fams :: Published(s, f)) && u == Frozen1(fams, s, a) && Begun(u, t, a)
    requires t.run.Idle? && t.finished == u.finished
    ensures Evaluated1(fams, t, a)
  {
    OnlyBegun(u, t, a);
    assert OneContract(fams, t);
  }

  lemma OnlyBegun(u: State, t: State, a: Build)
    requires Begun(u, t, a) && u.drafts == map[] && u.evidence == map[]
    ensures t.drafts.Keys == {a} && t.evidence.Keys == {a} && t.sources == u.sources && t.publishers == u.publishers
  {
  }

  /** The other build finds the candidates waiting, takes them, and evaluates them once more. */
  lemma SupersededBy(s: State, t: State, a: Build, b: Build) returns (id: VersionId)
    requires Inv(s) && Inv(t) && Recorded(s) && Recorded(t) && a != b && a in s.evidence && a in s.sources && b !in s.evidence
    requires a in s.drafts && AllUnsealed(s, s.drafts[a]) && Begun(s, t, b) && b in t.sources && t.sources[b] == t.sources[a]
    requires a !in t.finished
    ensures Overruled(t, a, b, id)
  {
    assert CandidatesOk(t, a, t.drafts[a]) && CandidatesOk(t, b, t.drafts[b]);
    StaysUnsealed(s, t, s.drafts[a]);
    UnsealedAreLatest(t, a, t.drafts[a]);
    UnsealedAreLatest(t, b, t.drafts[b]);
    id := t.drafts[a][0];
    assert id == t.drafts[b][0];
    assert EvidenceOk(s, a);
    assert CandidateOk(t, t.sources[a][0], id) && FamilyOk(t, t.sources[a][0]);
  }

  /** The build has a candidate that another build has evaluated after it, and that the build has
      not published. */
  ghost predicate Overruled(s: State, a: Build, b: Build, id: VersionId) {
    && a in s.evidence && b in s.evidence && a in s.drafts && b in s.drafts
    && a != b && s.evidence[a] < s.evidence[b] && id in s.drafts[a] && id in s.drafts[b]
    && !OwnPointer(s, a, id) && a !in s.finished
  }

  lemma OverruledIsSuperseded(s: State, a: Build, b: Build, id: VersionId)
    requires Recorded(s) && Overruled(s, a, b, id)
    ensures !Authorizes(s, a, id)
  {
    assert EvidenceOk(s, a) && EvidenceOk(s, b);
    assert Standing(s.attempts, s.evidence[b]) && s.attempts[s.evidence[b]].candidates == s.drafts[b];
    AuthorizesExactly(s, a, id);
  }

  /** Only a call on the candidate itself, made by the build, could publish it under its contract. */
  lemma CallByOther(s: State, a: Build, b: Build, next: VersionId, id: VersionId)
    requires next < |s.versions| && !OwnPointer(s, a, id) && (a != b || next != id)
    ensures !OwnPointer(Call(s, b, next), a, id)
  {
    CallLeaves(s, b, next);
  }

  lemma OverruledPublish(s: State, a: Build, b: Build, id: VersionId)
    requires Recorded(s) && Overruled(s, a, b, id)
    ensures Overruled(PublishStep(s), a, b, id)
  {
    OverruledIsSuperseded(s, a, b, id);
    if s.run.Publishing? && s.run.build in s.drafts {
      if s.run.k < |s.drafts[s.run.build]| {
        OverruledCall(s, a, b, id);
      } else {
        NotConcluded(s, a, id);
      }
    }
  }

  lemma OverruledCall(s: State, a: Build, b: Build, id: VersionId)
    requires Overruled(s, a, b, id) && !Authorizes(s, a, id)
    requires s.run.Publishing? && s.run.build in s.drafts && s.run.k < |s.drafts[s.run.build]|
    ensures Overruled(PublishStep(s), a, b, id)
  {
    var next := s.drafts[s.run.build][s.run.k];
    if next < |s.versions| && Unsealed(s.versions[next].lifecycle) && Authorizes(s, s.run.build, next) {
      CallByOther(s, a, s.run.build, next, id);
      CallLeaves(s, s.run.build, next);
      assert PublishStep(s) == Call(s, s.run.build, next);
    } else {
      OverruledMove(s, PublishStep(s), a, b, id);
    }
  }

  lemma OverruledMove(s: State, t: State, a: Build, b: Build, id: VersionId)
    requires Overruled(s, a, b, id) && t == s.(run := t.run)
    ensures Overruled(t, a, b, id)
  {
  }

  lemma NotConcluded(s: State, a: Build, id: VersionId)
    requires a in s.drafts && id in s.drafts[a] && !OwnPointer(s, a, id)
    ensures !Concludes(s, a)
  {
  }

  lemma OverruledClone(s: State, a: Build, b: Build, id: VersionId)
    requires Overruled(s, a, b, id) && Inv(s)
    ensures Overruled(CloneStep(s), a, b, id)
  {
    CloneStepLeaves(s);
    assert CandidatesOk(s, a, s.drafts[a]);
    var k :| 0 <= k < |s.drafts[a]| && s.drafts[a][k] == id;
    assert CandidateOk(s, s.sources[a][k], id);
    assert CloneStep(s).versions[..|s.versions|][id] == s.versions[id];
  }

  lemma OverruledElse(fams: seq<Family>, s: State, x: Action, a: Build, b: Build, id: VersionId)
    requires Recorded(s) && Overruled(s, a, b, id) && !x.PublishNext? && !x.CloneNext?
    ensures Overruled(Apply(fams, s, x), a, b, id)
  {
    if x.Evaluated? || x.WriteEvidence? || x.WriteFails? { EvaluateLeaves(s, x); }
  }

  lemma {:induction false} OverruledForGood(fams: seq<Family>, s: State, more: seq<Action>, a: Build, b: Build, id: VersionId)
    requires Inv(s) && Recorded(s) && Distinct(fams) && Overruled(s, a, b, id)
    ensures Overruled(RunFrom(fams, s, more), a, b, id)
  {
    if more != [] {
      var before, x := more[..|more| - 1], more[|more| - 1];
      OverruledForGood(fams, s, before, a, b, id);
      KeepsBoth(fams, s, before);
      OverruledStep(fams, RunFrom(fams, s, before), x, a, b, id);
    }
  }

  lemma OverruledStep(fams: seq<Family>, s: State, x: Action, a: Build, b: Build, id: VersionId)
    requires Inv(s) && Recorded(s) && Overruled(s, a, b, id)
    ensures Overruled(Apply(fams, s, x), a, b, id)
  {
    if x.PublishNext? {
      OverruledPublish(s, a, b, id);
      PublishNextIs(fams, s);
    } else if x.CloneNext? {
      OverruledClone(s, a, b, id);
      CloneNextIs(fams, s);
    } else {
      OverruledElse(fams, s, x, a, b, id);
    }
  }

  /** A build that was interrupted after its evaluation never finishes, whatever happens later, once
      another build has evaluated the same candidates; the other one can finish. */
  lemma SupersededBuildIsRefused(fams: seq<Family>, s: State, a: Build, b: Build, first: nat, second: nat)
      returns (schedule: seq<Action>)
    requires Startable(fams, s) && a != b
    ensures var t := RunFrom(fams, s, schedule);
      && Restartable(t, a) && a in t.drafts && a in t.evidence
      && (forall more :: a !in RunFrom(fams, s, schedule + more).finished)
      && Restartable(t, b) && CanFinish(t, b, second)
  {
    var one := EvaluateFirst(fams, s, a, first);
    var t1 := RunFrom(fams, s, one);
    assert CandidatesOk(t1, a, t1.drafts[a]);
    UnsealedAreLatest(t1, a, t1.drafts[a]);
    FollowingFreeze(fams, t1, a, b);
    var t2 := RunFrom(fams, t1, [Freeze(b, a)]);
    KeepsBoth(fams, t1, [Freeze(b, a)]);
    WaitingCloneable(t1, t2, a, b);
    var two := Beginning(t2, b, second);
    BeginsExactly(fams, t2, b, second);
    var t := RunFrom(fams, t2, two);
    schedule := one + [Freeze(b, a)] + two;
    RunSplit(fams, s, one, [Freeze(b, a)]);
    RunSplit(fams, s, one + [Freeze(b, a)], two);
    var id := SupersededBy(t2, t, a, b);
    forall more ensures a !in RunFrom(fams, s, schedule + more).finished {
      RunSplit(fams, s, schedule, more);
      OverruledForGood(fams, t, more, a, b, id);
    }
  }

  // ---- An evaluation whose evidence was not written cannot be repeated ----

  /** A build that was interrupted between storing its evaluation and writing the evidence is refused
      when the evaluation comes out the same: it exists already. */
  lemma LostEvidenceIsRefused(fams: seq<Family>, s: State, a: Build, outcome: nat) returns (schedule: seq<Action>)
    requires Startable(fams, s)
    ensures var t := RunFrom(fams, s, schedule); a in t.drafts && a !in t.evidence && Refused(fams, t, a, outcome)
  {
    FirstFreeze(fams, s, a);
    var u := Frozen1(fams, s, a);
    FrozenCanClone(fams, s, a);
    KeepsBoth(fams, s, [Freeze(a, a)]);
    BeginsWithDrafts(fams, u, a, outcome);
    var t := RunFrom(fams, u, Preparation(u, a));
    WrittenDraftsHold(t, a);
    var cut := [StartEvaluating(a)] + [Evaluated(Some(outcome))] + [Stop];
    CutShort(fams, t, a, outcome);
    schedule := [Freeze(a, a)] + Preparation(u, a) + cut;
    RunSplit(fams, s, [Freeze(a, a)], Preparation(u, a));
    RunSplit(fams, s, [Freeze(a, a)] + Preparation(u, a), cut);
    KeepsBoth(fams, t, cut);
    RefusedUnlessCan(fams, RunFrom(fams, t, cut), a, outcome);
  }

  lemma CutShort(fams: seq<Family>, t: State, a: Build, outcome: nat)
    requires t.run.Idle? && a in t.drafts && DraftsHold(t, a) && a !in t.evidence && CanEvaluate(t, a, outcome)
    ensures RunFrom(fams, t, [StartEvaluating(a)] + [Evaluated(Some(outcome))] + [Stop])
            == t.(attempts := t.attempts + [NewAttempt(t, a, Some(outcome))])
    ensures !CanEvaluate(t.(attempts := t.attempts + [NewAttempt(t, a, Some(outcome))]), a, outcome)
  {
    var u := t.(run := Evaluating(a));
    FirstAction(fams, t, StartEvaluating(a));
    EvaluationStarts(fams, t, a);
    OneAction(fams, t, [StartEvaluating(a)], Evaluated(Some(outcome)));
    assert NewAttempt(u, a, Some(outcome)) == NewAttempt(t, a, Some(outcome));
    EvaluationStored(fams, u, a, outcome);
    OneAction(fams, t, [StartEvaluating(a)] + [Evaluated(Some(outcome))], Stop);
    var v := t.(attempts := t.attempts + [NewAttempt(t, a, Some(outcome))]);
    assert NewAttempt(v, a, Some(outcome)) == NewAttempt(t, a, Some(outcome));
  }

  // ---- A build that is overtaken between cloning and writing its drafts ----

  /** The build has cloned every family, and was interrupted before it wrote its drafts. */
  ghost predicate Interrupted(s: State, t: State, a: Build) {
    && Inv(t) && Recorded(t) && t.run.Idle? && a in t.sources && a !in t.drafts && |t.sources[a]| == FAMILY_COUNT
    && t.sources.Keys == {a} && t.drafts == map[] && t.evidence == map[] && t.finished == {}
    && AllWaiting(t, a) && OnlyCloned(s, t.(sources := s.sources), a)
  }

  lemma CloneAndStop(fams: seq<Family>, s: State, a: Build) returns (schedule: seq<Action>)
    requires Startable(fams, s)
    ensures (forall f <- fams :: Published(s, f)) && Interrupted(s, RunFrom(fams, s, schedule), a)
    ensures RunFrom(fams, s, schedule).sources == map[a := FreezeAll(s, fams)]
  {
    FirstFreeze(fams, s, a);
    var u := Frozen1(fams, s, a);
    FrozenCanClone(fams, s, a);
    var clone := [StartCloning(a)] + Clones(FAMILY_COUNT);
    StartedRun(fams, u, a);
    schedule := [Freeze(a, a)] + clone + [Stop];
    RunSplit(fams, s, [Freeze(a, a)], clone);
    OneAction(fams, s, [Freeze(a, a)] + clone, Stop);
    KeepsBoth(fams, s, [Freeze(a, a)]);
    KeepsBoth(fams, s, schedule);
    ClonedAll(u, a);
    StoppedIs(fams, s, u, CloneSteps(u.(run := Cloning(a, [])), FAMILY_COUNT), a);
  }

  lemma ClonedAll(u: State, a: Build)
    requires Inv(u) && Restartable(u, a) && a !in u.drafts && FirstCloneable(u, a, FAMILY_COUNT)
    ensures var cloned := CloneSteps(u.(run := Cloning(a, [])), FAMILY_COUNT);
      OnlyCloned(u.(run := Cloning(a, [])), cloned, a) && AllWaiting(cloned, a)
  {
    var started := u.(run := Cloning(a, []));
    StartKeeps(u, a);
    ClonesEnd(started, a);
    SameCloneable(u, started, a, FAMILY_COUNT);
    var cloned := CloneSteps(started, FAMILY_COUNT);
    ClonesKeep(started, FAMILY_COUNT);
    UnsealedAreLatest(cloned, a, cloned.run.drafts);
  }

  lemma StoppedIs(fams: seq<Family>, s: State, u: State, cloned: State, a: Build)
    requires Startable(fams, s) && (forall f <- fams :: Published(s, f)) && u == Frozen1(fams, s, a)
    requires OnlyCloned(u.(run := Cloning(a, [])), cloned, a) && AllWaiting(cloned, a)
    requires Inv(cloned.(run := Idle)) && Recorded(cloned.(run := Idle))
    ensures Interrupted(s, cloned.(run := Idle), a)
  {
  }

  /** The clone of a family that had nothing waiting is the build's own. */
  lemma CloneIsOwn(s: State, t: State, a: Build, f: Family) returns (id: VersionId)
    requires OnlyCloned(s, t.(sources := s.sources), a) && HasVersion(s.versions, f) && f in s.pointers
    requires Latest(s.versions, f) == s.pointers[f]
    requires HasVersion(t.versions, f) && f in t.pointers && Latest(t.versions, f) != t.pointers[f]
    ensures id < |t.versions| && t.versions[id].maker == Some(a) && t.versions[id].family == f
  {
    id := Latest(t.versions, f);
    assert forall i :: 0 <= i < |s.versions| ==> t.versions[..|s.versions|][i] == t.versions[i];
    if id < |s.versions| { LatestUnique(s.versions, f, id); }
  }

  /** When a build finishes that had no evidence before, its candidates are the latest versions. */
  ghost predicate Overtaken(s: State, t: State, b: Build) {
    && t.run.Idle? && b in t.finished && b in t.sources && t.sources == s.sources
    && t.drafts.Keys == s.drafts.Keys + {b} && t.evidence.Keys == s.evidence.Keys + {b} && t.finished == s.finished + {b}
    && SameShape(s.versions, t.versions)
    && forall k :: 0 <= k < |t.sources[b]| ==>
         var f := t.sources[b][k].family;
         HasVersion(t.versions, f) && f in t.pointers && Latest(t.versions, f) == t.pointers[f]
  }

  lemma {:induction false} PublishesLeave(s: State, n: nat)
    ensures var t := PublishSteps(s, n);
      && t.sources == s.sources && t.drafts == s.drafts && t.evidence == s.evidence && t.attempts == s.attempts
      && |t.versions| == |s.versions| && SameShape(s.versions, t.versions)
  {
    if n > 0 {
      PublishesLeave(s, n - 1);
      PublishRecords(PublishSteps(s, n - 1));
      PublishShape(PublishSteps(s, n - 1));
    }
  }

  /** A publishing run that has finished its build has concluded, and publishes nothing more. */
  lemma {:induction false} FinishConcludes(s: State, b: Build, n: nat)
    requires b !in s.finished
    ensures b in PublishSteps(s, n).finished ==> Concludes(PublishSteps(s, n), b) && PublishSteps(s, n).run.Idle?
  {
    if n > 0 {
      FinishConcludes(s, b, n - 1);
      StepConcludes(PublishSteps(s, n - 1), b);
    }
  }

  lemma StepConcludes(s: State, b: Build)
    requires b in s.finished ==> Concludes(s, b) && s.run.Idle?
    ensures b in PublishStep(s).finished ==> Concludes(PublishStep(s), b) && PublishStep(s).run.Idle?
  {
    if s.run.Publishing? && s.run.build in s.drafts {
      if s.run.k < |s.drafts[s.run.build]| {
        var id := s.drafts[s.run.build][s.run.k];
        if id < |s.versions| { CallLeaves(s, s.run.build, id); }
      } else {
        assert forall i :: OwnPointer(PublishStep(s), b, i) == OwnPointer(s, b, i);
      }
    }
  }

  lemma ConcludedAreLatest(u: State, t: State, b: Build)
    requires Inv(u) && Inv(t) && b in u.drafts && AllUnsealed(u, u.drafts[b])
    requires t.sources == u.sources && t.drafts == u.drafts && |t.versions| == |u.versions| && SameShape(u.versions, t.versions)
    requires Concludes(t, b)
    ensures b in t.sources && forall k :: 0 <= k < |t.sources[b]| ==>
              var f := t.sources[b][k].family;
              HasVersion(t.versions, f) && f in t.pointers && Latest(t.versions, f) == t.pointers[f]
  {
    assert CandidatesOk(u, b, u.drafts[b]) && CandidatesOk(t, b, t.drafts[b]);
    UnsealedAreLatest(u, b, u.drafts[b]);
    forall k | 0 <= k < |t.sources[b]|
      ensures var f := t.sources[b][k].family;
              HasVersion(t.versions, f) && f in t.pointers && Latest(t.versions, f) == t.pointers[f]
    {
      assert CandidateOk(t, t.sources[b][k], t.drafts[b][k]) && OwnPointer(t, b, t.drafts[b][k]);
      LatestAfterUpdate(u.versions, t.versions, t.sources[b][k].family);
    }
  }

  /** A build that can finish and has no evidence yet overtakes the others. */
  lemma BuildOvertakes(fams: seq<Family>, s: State, b: Build, outcome: nat) returns (schedule: seq<Action>)
    requires Inv(s) && Recorded(s) && Distinct(fams) && Restartable(s, b) && b !in s.evidence && CanFinish(s, b, outcome)
    ensures Overtaken(s, RunFrom(fams, s, schedule), b)
  {
    BeginsExactly(fams, s, b, outcome);
    var t1 := RunFrom(fams, s, Beginning(s, b, outcome));
    var n := PublishesAll(t1, b);
    schedule := Restart(s, b, outcome, n);
    AfterBeginning(fams, s, b, outcome, n);
    PublishingStarts(fams, t1, b, n);
    OvertakenBy(s, t1, b, n);
  }

  lemma PublishesAll(t: State, b: Build) returns (n: nat)
    requires Inv(t) && t.run.Idle? && b in t.drafts && AllSettle(t, b)
    ensures var u := t.(run := Publishing(b, 0));
      Inv(u) && PublishSteps(u, n).run.Idle? && PublishSteps(u, n).finished == t.finished + {b}
  {
    var u := t.(run := Publishing(b, 0));
    StartKeeps(t, b);
    SameSettle(t, u, b);
    n := PublishEnds(u, b);
  }

  lemma OvertakenBy(s: State, t1: State, b: Build, n: nat)
    requires Begun(s, t1, b) && b !in s.finished && t1.finished == s.finished && Inv(t1.(run := Publishing(b, 0)))
    requires var t := PublishSteps(t1.(run := Publishing(b, 0)), n); t.run.Idle? && t.finished == s.finished + {b}
    ensures Overtaken(s, PublishSteps(t1.(run := Publishing(b, 0)), n), b)
  {
    var u := t1.(run := Publishing(b, 0));
    var t := PublishSteps(u, n);
    PublishesKeep(u, n);
    PublishesLeave(u, n);
    FinishConcludes(u, b, n);
    assert CandidatesOk(u, b, u.drafts[b]);
    ConcludedAreLatest(u, t, b);
    ShapesCompose(s, t1, t, b);
  }

  lemma ShapesCompose(s: State, u: State, t: State, b: Build)
    requires OnlyCloned(s, u.(drafts := s.drafts, attempts := s.attempts, evidence := s.evidence), b)
    requires SameShape(u.versions, t.versions)
    ensures SameShape(s.versions, t.versions)
  {
    assert forall i :: 0 <= i < |s.versions| ==> u.versions[..|s.versions|][i] == u.versions[i];
  }

  lemma SpentKey(t: State, a: Build, z: Frozen, id: VersionId)
    requires RevisionsOk(t) && id < |t.versions| && t.versions[id].maker == Some(a) && t.versions[id].family == z.family
    requires HasVersion(t.versions, z.family) && z.family in t.pointers && Latest(t.versions, z.family) == t.pointers[z.family]
    ensures !Cloneable(t, a, z)
  {
  }

  predicate NothingWaiting(s: State, f: Family) { Published(s, f) && Latest(s.versions, f) == s.pointers[f] }

  /** A build that was interrupted after it cloned a family that had nothing waiting is refused once
      another build has published that clone: its revise key is spent. */
  lemma InterruptedBuildIsRefused(fams: seq<Family>, s: State, a: Build, b: Build, k: nat, outcome: nat, later: nat)
      returns (schedule: seq<Action>)
    requires Startable(fams, s) && a != b
    requires k < |fams| && NothingWaiting(s, fams[k])
    ensures var t := RunFrom(fams, s, schedule); a !in t.drafts && b in t.finished && Refused(fams, t, a, later)
  {
    var one := CloneAndStop(fams, s, a);
    var t1 := RunFrom(fams, s, one);
    var two := OvertakeInterrupted(fams, s, t1, a, b, outcome);
    schedule := one + two;
    RunSplit(fams, s, one, two);
    var t := RunFrom(fams, t1, two);
    KeepsBoth(fams, t1, two);
    assert fams[k] in fams && t1.sources[a][k].family == fams[k];
    var id := CloneIsOwn(s, t1, a, fams[k]);
    OvertakenCannot(t1, t, a, b, k, id, later);
    RefusedUnlessCan(fams, t, a, later);
  }

  lemma OvertakenCannot(t1: State, t: State, a: Build, b: Build, k: nat, id: VersionId, later: nat)
    requires a != b && a in t1.sources && a !in t1.drafts && a !in t1.evidence && a !in t1.finished && k < |t1.sources[a]| == FAMILY_COUNT
    requires Overtaken(t1.(sources := t1.sources[b := t1.sources[a]]), t, b)
    requires RevisionsOk(t) && id < |t1.versions| && t1.versions[id].maker == Some(a) && t1.versions[id].family == t1.sources[a][k].family
    ensures Restartable(t, a) && a !in t.drafts && b in t.finished && !CanFinish(t, a, later)
  {
    assert t.sources[b] == t.sources[a] == t1.sources[a];
    SpentKey(t, a, t.sources[a][k], id);
  }

  lemma OvertakeInterrupted(fams: seq<Family>, s: State, t1: State, a: Build, b: Build, outcome: nat)
      returns (schedule: seq<Action>)
    requires Startable(fams, s) && Interrupted(s, t1, a) && a != b
    ensures var t := RunFrom(fams, t1, schedule);
      Overtaken(t1.(sources := t1.sources[b := t1.sources[a]]), t, b)
  {
    SameContract(fams, s, t1, a);
    FollowingFreeze(fams, t1, a, b);
    var t2 := t1.(sources := t1.sources[b := t1.sources[a]]);
    KeepsBoth(fams, t1, [Freeze(b, a)]);
    assert Restartable(t2, b) && CanFinish(t2, b, outcome) by { WaitingCloneable(t1, t2, a, b); }
    var two := BuildOvertakes(fams, t2, b, outcome);
    schedule := [Freeze(b, a)] + two;
    RunSplit(fams, t1, [Freeze(b, a)], two);
  }

  lemma SameContract(fams: seq<Family>, s: State, t: State, a: Build)
    requires OneContract(fams, s) && Interrupted(s, t, a)
    ensures OneContract(fams, t)
  {
    assert t.publishers == s.publishers;
  }

}
