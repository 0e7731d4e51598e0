/** The two loops of a rollover run, over the repository and the state files updated in place. */
module RolloverTool {
  import opened Sequences
  import opened ShadowRollover
  import opened RolloverRestart

  /** What holds at the head of the loop over the candidates. */
  ghost predicate AtCandidate(start: State, s: State, b: Build, k: nat, n: nat) {
    s.run == Publishing(b, k) && s == PublishSteps(start, n) && s.drafts == start.drafts
  }

  /** The candidates are there and not withdrawn. */
  ghost predicate Usable(s: State, b: Build) {
    b in s.drafts && forall k :: 0 <= k < |s.drafts[b]| ==>
      s.drafts[b][k] < |s.versions| && !s.versions[s.drafts[b][k]].lifecycle.Withdrawn?
  }

  lemma StaysUsable(start: State, b: Build, n: nat)
    requires Inv(start) && b in PublishSteps(start, n).drafts
    ensures Usable(PublishSteps(start, n), b)
  {
    PublishesKeep(start, n);
    CandidatesThere(PublishSteps(start, n), b);
  }

  /** A publishing run has one end. */
  lemma OneEnd(s: State, m: nat, n: nat)
    requires PublishSteps(s, m).run.Idle? && PublishSteps(s, n).run.Idle?
    ensures PublishSteps(s, m) == PublishSteps(s, n)
  {
    if m <= n { EndStays(s, m, n); } else { EndStays(s, n, m); }
  }

  lemma EndTells(start: State, b: Build, n: nat)
    requires Inv(start) && Pending(start, b) && PublishSteps(start, n).run.Idle?
    ensures PublishSteps(start, n).finished == if AllSettle(start, b) then start.finished + {b} else start.finished
  {
    var m := PublishEnds(start, b);
    OneEnd(start, m, n);
  }

  class Rollover {
    var state: State

    constructor (initial: State)
      ensures state == initial
    {
      state := initial;
    }

    /** One round of `_clone_drafts`: reuse the version after the published one, or revise the
        published one; insist that the draft is identical. */
    method CloneNextFamily(b: Build, k: nat) returns (ok: bool)
      requires AtFamily(state, b, k) && k < FAMILY_COUNT
      modifies this
      ensures state == CloneStep(old(state))
      ensures if ok then AtFamily(state, b, k + 1) else state.run.Idle?
    {
      var z := state.sources[b][k];
      var cloned := CloneFamily(state, b, z);
      if cloned.None? {
        state := state.(run := Idle);
        return false;
      }
      var (t, id) := cloned.value;
      CloneLeaves(state, b, z);
      state := t.(run := Cloning(b, state.run.drafts + [id]));
      return true;
    }

    /** `_clone_drafts`: a draft for every family, or the run stops at the first refusal. */
    method CloneDrafts(b: Build) returns (ok: bool, ghost n: nat)
      requires AtFamily(state, b, 0)
      modifies this
      ensures n <= FAMILY_COUNT && state == CloneSteps(old(state), n)
      ensures if ok then AtFamily(state, b, FAMILY_COUNT) else state.run.Idle?
    {
      ghost var start := state;
      n := 0;
      for k := 0 to FAMILY_COUNT
        invariant AtFamily(state, b, k) && n == k && state == CloneSteps(start, n)
      {
        ok := CloneNextFamily(b, k);
        n := n + 1;
        if !ok { return; }
      }
      return true, n;
    }

    /** A lifecycle call on an unsealed candidate: made if the evaluation authorizes it, else the run
        ends. */
    method LifecycleCall(ghost start: State, b: Build, k: nat, ghost n: nat) returns (ok: bool)
      requires state.run == Publishing(b, k) && Usable(state, b) && k < |state.drafts[b]|
      requires Unsealed(state.versions[state.drafts[b][k]].lifecycle) && state == PublishSteps(start, n)
      modifies this
      ensures state == PublishSteps(start, n + 1)
      ensures if ok then state.run == old(state.run) && state.drafts == old(state.drafts) else state.run.Idle?
      ensures state.finished == old(state.finished)
      ensures ok ==> Usable(state, b)
      ensures ok ==> state.versions[state.drafts[b][k]].lifecycle ==
                       if old(state).versions[state.drafts[b][k]].lifecycle.Draft? then DevelopmentTested else Shadow
    {
      var id := state.drafts[b][k];
      ok := Authorizes(state, b, id);
      if ok {
        CallLeaves(state, b, id);
        state := Call(state, b, id);
      } else {
        state := state.(run := Idle);
      }
    }

    /** The candidate is in shadow: on to the next one. */
    method MoveOn(ghost start: State, b: Build, k: nat, ghost n: nat)
      requires state.run == Publishing(b, k) && b in state.drafts && k < |state.drafts[b]|
      requires state.drafts[b][k] < |state.versions| && state.versions[state.drafts[b][k]].lifecycle.Shadow?
      requires state == PublishSteps(start, n)
      modifies this
      ensures state == PublishSteps(start, n + 1) && state == old(state).(run := Publishing(b, k + 1))
    {
      state := state.(run := Publishing(b, k + 1));
    }

    /** One round of `_publish`: test the candidate, publish it, insist that it is in shadow. */
    method PublishCandidate(ghost start: State, b: Build, k: nat, ghost n0: nat) returns (ok: bool, ghost n: nat)
      requires AtCandidate(start, state, b, k, n0) && Usable(state, b) && k < |state.drafts[b]|
      modifies this
      ensures state == PublishSteps(start, n)
      ensures if ok then AtCandidate(start, state, b, k + 1, n) else state.run.Idle?
      ensures state.finished == old(state.finished)
    {
      n, ok := n0, true;
      if state.versions[state.drafts[b][k]].lifecycle.Draft? {
        ok := LifecycleCall(start, b, k, n);
        n := n + 1;
        if !ok { return; }
      }
      if state.versions[state.drafts[b][k]].lifecycle.DevelopmentTested? {
        ok := LifecycleCall(start, b, k, n);
        n := n + 1;
        if !ok { return; }
      }
      MoveOn(start, b, k, n);
      n := n + 1;
    }

    /** The check of the current authority and its lineages, and the result. */
    method Conclude(b: Build) returns (ok: bool)
      requires state.run.Publishing? && state.run.build == b && b in state.drafts && state.run.k == |state.drafts[b]|
      modifies this
      ensures state == PublishStep(old(state)) && state.run.Idle?
      ensures state.finished == if ok then old(state).finished + {b} else old(state).finished
      ensures ok ==> Concludes(state, b)
    {
      ghost var last := state;
      ok := Concludes(state, b);
      state := state.(run := Idle, finished := if ok then state.finished + {b} else state.finished);
      assert forall id :: OwnPointer(state, b, id) == OwnPointer(last, b, id);
    }

    /** `_publish` and the check of what it led to: the build is finished exactly if at the start each
        candidate is unsealed and authorized, or published already under the build's contract. */
    method Publish(b: Build) returns (ok: bool, ghost n: nat)
      requires Inv(state) && state.run == Publishing(b, 0) && b !in state.finished
      modifies this
      ensures state == PublishSteps(old(state), n) && state.run.Idle?
      ensures ok <==> AllSettle(old(state), b)
      ensures state.finished == if ok then old(state).finished + {b} else old(state).finished
      ensures ok ==> Concludes(state, b)
    {
      ghost var start := state;
      ok, n := PublishAll(b);
      if ok {
        ok := Conclude(b);
        n := n + 1;
      }
      EndTells(start, b, n);
    }

    /** The loop over the candidates. */
    method PublishAll(b: Build) returns (ok: bool, ghost n: nat)
      requires Inv(state) && state.run == Publishing(b, 0)
      modifies this
      ensures state == PublishSteps(old(state), n) && state.finished == old(state.finished)
      ensures if ok then b in state.drafts && state.run == Publishing(b, |state.drafts[b]|) else state.run.Idle?
    {
      ghost var start := state;
      n := 0;
      for k := 0 to |state.drafts[b]|
        invariant AtCandidate(start, state, b, k, n) && b in state.drafts && state.finished == start.finished
      {
        StaysUsable(start, b, n);
        ok, n := PublishCandidate(start, b, k, n);
        if !ok { return; }
      }
      ok := true;
    }
  }
}
