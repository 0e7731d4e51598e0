/** The shadow-template rollover: freeze the published versions, clone each into a draft of
    the same content, write the drafts down, evaluate them, publish them under that evaluation.
    Any number of builds may roll over the same repository; each run may stop between any two
    steps and be started again.  One instance guard keeps the repository sections of runs apart. */
module ShadowRollover {
  import opened Sequences

  type Build = nat
  type Family = nat
  type VersionId = nat        // versions are numbered in the order they were stored

  const FAMILY_COUNT := 4

  datatype Lifecycle = Draft | DevelopmentTested | Shadow | Withdrawn

  /** `content` stands for the definition hash and the three reference hashes; `maker` is the
      build whose rollover stored the version. */
  datatype Version = Version(
    family: Family,
    number: nat,
    parent: Option<VersionId>,
    content: nat,
    lifecycle: Lifecycle,
    record: nat,
    maker: Option<Build>)

  /** What a revise request carried, and the version it produced. */
  datatype Revision = Revision(source: VersionId, record: nat, result: VersionId)

  datatype Frozen = Frozen(family: Family, source: VersionId, content: nat, number: nat)

  /** Under whose contract a family's published version was published. */
  datatype Publisher = Earlier(contract: nat) | Rolled(build: Build)

  /** A composite evaluation that came to an end: its scope, and its outcome unless it failed.
      Scope and outcome together are the identity of an evaluation. */
  datatype Attempt = Attempt(build: Build, candidates: seq<VersionId>, lifecycles: seq<Lifecycle>, outcome: Option<nat>)

  /** The run that holds the guard. */
  datatype Run =
    | Idle
    | Cloning(build: Build, drafts: seq<VersionId>)
    | Evaluating(build: Build)
    | Recording(build: Build, attempt: nat)      // stored, the evidence file not yet written
    | Publishing(build: Build, k: nat)

  datatype State = State(
    versions: seq<Version>,
    pointers: map<Family, VersionId>,
    publishers: map<Family, Publisher>,
    revisions: map<(Build, Family), Revision>,
    sources: map<Build, seq<Frozen>>,          // source-state.json, one per build
    drafts: map<Build, seq<VersionId>>,        // draft-state.json, one per build
    attempts: seq<Attempt>,                    // in the order of their sequence numbers
    evidence: map<Build, nat>,                 // the composite file, one per build: which attempt it reports
    finished: set<Build>,
    run: Run)

  datatype Action =
    | Freeze(build: Build, anchor: Build)      // the earlier build to take the sources from, if any
    | StartCloning(build: Build)
    | CloneNext
    | WriteDrafts
    | StartEvaluating(build: Build)
    | Evaluated(outcome: Option<nat>)          // `None`: the gate did not pass, or a technical failure
    | WriteEvidence
    | WriteFails
    | StartPublishing(build: Build)
    | PublishNext
    | Stop                                     // a crash or a refused call

  // ---- The repository ----

  predicate HasVersion(versions: seq<Version>, f: Family) {
    exists i :: 0 <= i < |versions| && versions[i].family == f
  }

  /** The version `get_family_current` returns: the last one stored for the family. */
  function Latest(versions: seq<Version>, f: Family): (id: VersionId)
    requires HasVersion(versions, f)
    ensures id < |versions| && versions[id].family == f
    ensures forall j :: id < j < |versions| ==> versions[j].family != f
    decreases |versions|
  {
    var last := |versions| - 1;
    if versions[last].family == f then last
    else
      assert HasVersion(versions[..last], f) by {
        var i :| 0 <= i < |versions| && versions[i].family == f;
        assert versions[..last][i] == versions[i];
      }
      Latest(versions[..last], f)
  }

  /** `revise_draft`: replayed under its key, refused under a key used for another request. */
  function Revise(s: State, b: Build, f: Family, source: VersionId, record: nat): Option<(State, VersionId)>
    requires source < |s.versions|
  {
    if (b, f) in s.revisions then
      var r := s.revisions[(b, f)];
      if r.source == source && r.record == record then Some((s, r.result)) else None
    else if s.versions[source].record != record || !HasVersion(s.versions, f) || Latest(s.versions, f) != source then None
    else
      var id := |s.versions|;
      var v := Version(f, s.versions[source].number + 1, Some(source), s.versions[source].content, Draft, 1, Some(b));
      Some((s.(versions := s.versions + [v], revisions := s.revisions[(b, f) := Revision(source, record, id)]), id))
  }

  function Advance(s: State, id: VersionId, to: Lifecycle): State
    requires id < |s.versions|
  {
    s.(versions := s.versions[id := s.versions[id].(lifecycle := to, record := s.versions[id].record + 1)])
  }

  // ---- The tool ----

  predicate Published(s: State, f: Family) {
    f in s.pointers && s.pointers[f] < |s.versions| && HasVersion(s.versions, f)
  }

  /** A family can be frozen when nothing, or only an identical unsealed draft, follows its
      published version. */
  predicate Freezable(s: State, f: Family) {
    Published(s, f) &&
    var id, latest := s.pointers[f], Latest(s.versions, f);
    latest == id
    || (s.versions[latest].lifecycle.Draft? && s.versions[latest].parent == Some(id)
        && s.versions[latest].content == s.versions[id].content)
  }

  function FreezeFamily(s: State, f: Family): Frozen
    requires Published(s, f)
  {
    var id := s.pointers[f];
    Frozen(f, id, s.versions[id].content, s.versions[id].number)
  }

  function FreezeAll(s: State, fams: seq<Family>): seq<Frozen>
    requires forall f <- fams :: Published(s, f)
  {
    seq(|fams|, i requires 0 <= i < |fams| => FreezeFamily(s, fams[i]))
  }

  /** An earlier build's frozen source still describes the live family. */
  predicate StillLive(s: State, z: Frozen) {
    Published(s, z.family) && s.versions[Latest(s.versions, z.family)].content == z.content
  }

  /** All published versions were published under one contract. */
  predicate OneContract(fams: seq<Family>, s: State) {
    forall f, g :: f in fams && g in fams ==>
      f in s.publishers && g in s.publishers && s.publishers[f] == s.publishers[g]
  }

  /** `fams` are the families with a published version. */
  function FreezeStep(fams: seq<Family>, s: State, b: Build, anchor: Build): State {
    if !s.run.Idle? || b in s.sources || !OneContract(fams, s) then s
    else if s.sources != map[] then
      if anchor in s.sources && forall z <- s.sources[anchor] :: StillLive(s, z)
      then s.(sources := s.sources[b := s.sources[anchor]]) else s
    else if forall f <- fams :: Freezable(s, f) then s.(sources := s.sources[b := FreezeAll(s, fams)])
    else s
  }

  predicate AcceptableDraft(s: State, z: Frozen, id: VersionId) {
    && id < |s.versions|
    && s.versions[id].parent.Some?
    && !s.versions[id].lifecycle.Withdrawn?
    && s.versions[id].content == z.content
  }

  /** One round of `_clone_drafts`: reuse the unsealed version or revise the published one. */
  function CloneFamily(s: State, b: Build, z: Frozen): Option<(State, VersionId)> {
    if !Published(s, z.family) || s.versions[s.pointers[z.family]].content != z.content then None
    else
      var shadow, latest := s.pointers[z.family], Latest(s.versions, z.family);
      var made := if latest == shadow then Revise(s, b, z.family, shadow, s.versions[shadow].record) else Some((s, latest));
      if made.None? || !AcceptableDraft(made.value.0, z, made.value.1) then None else made
  }

  function CloneStep(s: State): State {
    if !s.run.Cloning? || s.run.build !in s.sources || |s.run.drafts| >= |s.sources[s.run.build]| then s
    else
      match CloneFamily(s, s.run.build, s.sources[s.run.build][|s.run.drafts|])
      case None => s.(run := Idle)
      case Some((t, id)) => t.(run := Cloning(s.run.build, s.run.drafts + [id]))
  }

  /** What loading a written draft state checks about one candidate. */
  predicate DraftHolds(s: State, z: Frozen, id: VersionId) {
    && id < |s.versions|
    && s.versions[id].family == z.family
    && s.versions[id].parent.Some?
    && s.versions[id].content == z.content
    && s.versions[id].number > z.number
  }

  predicate DraftsHold(s: State, b: Build) {
    && b in s.sources && b in s.drafts
    && |s.drafts[b]| == |s.sources[b]| == FAMILY_COUNT
    && forall k :: 0 <= k < FAMILY_COUNT ==> DraftHolds(s, s.sources[b][k], s.drafts[b][k])
  }

  // ---- Evaluations ----

  predicate Unsealed(l: Lifecycle) { l.Draft? || l.DevelopmentTested? }

  predicate AllUnsealed(s: State, ids: seq<VersionId>) {
    forall k :: 0 <= k < |ids| ==> ids[k] < |s.versions| && Unsealed(s.versions[ids[k]].lifecycle)
  }

  function LifecyclesOf(s: State, ids: seq<VersionId>): seq<Lifecycle> {
    seq(|ids|, k requires 0 <= k < |ids| => if ids[k] < |s.versions| then s.versions[ids[k]].lifecycle else Withdrawn)
  }

  /** What evaluating the drafts of a build now would be recorded as. */
  function NewAttempt(s: State, b: Build, outcome: Option<nat>): Attempt
    requires b in s.drafts
  {
    Attempt(b, s.drafts[b], LifecyclesOf(s, s.drafts[b]), outcome)
  }

  /** The evaluation is stored under its identity, once; anything else is recorded as a failure
      of the same scope. */
  function EndEvaluation(s: State, b: Build, outcome: Option<nat>): State
    requires b in s.drafts
  {
    var x := NewAttempt(s, b, outcome);
    if outcome.None? || x in s.attempts then s.(attempts := s.attempts + [x.(outcome := None)], run := Idle)
    else s.(attempts := s.attempts + [x], run := Recording(b, |s.attempts|))
  }

  function EvaluateStep(s: State, a: Action): State {
    match s.run
    case Evaluating(b) => if a.Evaluated? && b in s.drafts then EndEvaluation(s, b, a.outcome) else s
    case Recording(b, i) =>
      if a.WriteEvidence? then s.(evidence := s.evidence[b := i], run := Idle)
      else if a.WriteFails? && i < |s.attempts|
      then s.(attempts := s.attempts + [s.attempts[i].(outcome := None)], run := Idle) else s
    case _ => s
  }

  predicate SameScope(x: Attempt, y: Attempt) {
    x.build == y.build && x.candidates == y.candidates && x.lifecycles == y.lifecycles
  }

  /** It succeeded, and nothing was recorded for its scope since. */
  predicate Standing(attempts: seq<Attempt>, i: nat)
    requires i < |attempts|
  {
    attempts[i].outcome.Some? && forall j :: i < j < |attempts| ==> !SameScope(attempts[j], attempts[i])
  }

  /** `_latest_development_evaluation_row`: the last standing evaluation of a version, whoever
      made it. */
  function LatestEvaluation(attempts: seq<Attempt>, id: VersionId, n: nat): Option<nat>
    requires n <= |attempts|
  {
    if n == 0 then None
    else if Standing(attempts, n - 1) && id in attempts[n - 1].candidates then Some(n - 1)
    else LatestEvaluation(attempts, id, n - 1)
  }

  /** `_validate_lifecycle_evaluation`, asked with the evaluation the build has evidence of. */
  predicate Authorizes(s: State, b: Build, id: VersionId) {
    b in s.evidence && LatestEvaluation(s.attempts, id, |s.attempts|) == Some(s.evidence[b])
  }

  // ---- Publishing ----

  /** The candidate is its family's published version, published under the build's contract. */
  predicate OwnPointer(s: State, b: Build, id: VersionId) {
    id < |s.versions| &&
    var f := s.versions[id].family;
    f in s.pointers && s.pointers[f] == id && f in s.publishers && s.publishers[f] == Rolled(b)
  }

  /** What the current authority and its lineages are checked for after `_publish`. */
  predicate Concludes(s: State, b: Build) {
    b in s.drafts && forall k :: 0 <= k < |s.drafts[b]| ==> OwnPointer(s, b, s.drafts[b][k])
  }

  /** The lifecycle call on an unsealed version: `mark_development_tested`, or `publish_shadow` which
      moves the family's pointer along. */
  function Call(s: State, b: Build, id: VersionId): State
    requires id < |s.versions|
  {
    if s.versions[id].lifecycle.Draft? then Advance(s, id, DevelopmentTested)
    else
      var t, f := Advance(s, id, Shadow), s.versions[id].family;
      t.(pointers := t.pointers[f := id], publishers := t.publishers[f := Rolled(b)])
  }

  /** One step of `_publish`: at most one lifecycle call, if the evaluation authorizes it, then on
      to the next candidate. */
  function PublishStep(s: State): State {
    if !s.run.Publishing? || s.run.build !in s.drafts then s
    else
      var b := s.run.build;
      if s.run.k >= |s.drafts[b]| then s.(run := Idle, finished := if Concludes(s, b) then s.finished + {b} else s.finished)
      else
        var id := s.drafts[b][s.run.k];
        if id >= |s.versions| || s.versions[id].lifecycle.Withdrawn? then s.(run := Idle)
        else if s.versions[id].lifecycle.Shadow? then s.(run := Publishing(b, s.run.k + 1))
        else if Authorizes(s, b, id) then Call(s, b, id)
        else s.(run := Idle)
  }

  function Apply(fams: seq<Family>, s: State, a: Action): State {
    match a
    case Freeze(b, anchor) => FreezeStep(fams, s, b, anchor)
    case StartCloning(b) =>
      if s.run.Idle? && b in s.sources && b !in s.drafts && |s.sources[b]| == FAMILY_COUNT
      then s.(run := Cloning(b, [])) else s
    case CloneNext => CloneStep(s)
    case WriteDrafts =>
      if s.run.Cloning? && |s.run.drafts| == FAMILY_COUNT && s.run.build !in s.drafts
      then s.(drafts := s.drafts[s.run.build := s.run.drafts], run := Idle) else s
    case StartEvaluating(b) =>
      if s.run.Idle? && b in s.drafts && DraftsHold(s, b) && b !in s.evidence && AllUnsealed(s, s.drafts[b])
      then s.(run := Evaluating(b)) else s
    case Evaluated(_) => EvaluateStep(s, a)
    case WriteEvidence => EvaluateStep(s, a)
    case WriteFails => EvaluateStep(s, a)
    case StartPublishing(b) =>
      if s.run.Idle? && b in s.drafts && DraftsHold(s, b) && b in s.evidence && b !in s.finished
      then s.(run := Publishing(b, 0)) else s
    case PublishNext => PublishStep(s)
    case Stop => s.(run := Idle)
  }

  function RunFrom(fams: seq<Family>, s: State, schedule: seq<Action>): State {
    if schedule == [] then s
    else Apply(fams, RunFrom(fams, s, schedule[..|schedule| - 1]), schedule[|schedule| - 1])
  }

  // ---- Lineage ----

  /** Following parents from `id` arrives at `source`, each step to an older version of the
      same family with the number one less, every content on the way being the source's. */
  predicate Descends(versions: seq<Version>, id: VersionId, source: VersionId)
    decreases id
  {
    && id < |versions| && source < |versions|
    && versions[id].content == versions[source].content
    && versions[id].family == versions[source].family
    && (id == source
        || (versions[id].parent.Some?
            && versions[id].parent.value < id
            && versions[id].number == versions[versions[id].parent.value].number + 1
            && Descends(versions, versions[id].parent.value, source)))
  }

  predicate ParentsAreOlder(versions: seq<Version>) {
    forall i :: 0 <= i < |versions| && versions[i].parent.Some? ==> versions[i].parent.value < i
  }

  ghost predicate IsLineage(versions: seq<Version>, line: seq<VersionId>, source: VersionId, execution: VersionId) {
    && line != [] && line[0] == source && line[|line| - 1] == execution
    && (forall i :: 0 <= i < |line| ==> line[i] < |versions|)
    && (forall i :: 0 <= i < |line| ==> versions[line[i]].content == versions[line[0]].content)
    && (forall i :: 0 < i < |line| ==>
        versions[line[i]].parent == Some(line[i - 1]) && versions[line[i]].number == versions[line[i - 1]].number + 1)
  }

  /** `_version_lineage`: walk the parents up to the source, turn round, check every pair. */
  method VersionLineage(versions: seq<Version>, source: VersionId, execution: VersionId)
      returns (ok: bool, line: seq<VersionId>)
    requires ParentsAreOlder(versions) && execution < |versions| && source < |versions|
    ensures ok ==> IsLineage(versions, line, source, execution)
    ensures Descends(versions, execution, source) ==> ok
  {
    line := [execution];
    var current := execution;
    while current != source
      invariant current < |versions| && line != [] && line[0] == current && line[|line| - 1] == execution
      invariant forall i :: 0 <= i < |line| ==> line[i] < |versions|
      invariant forall i :: 0 < i < |line| ==> versions[line[i]].parent == Some(line[i - 1])
      invariant Descends(versions, execution, source) ==>
                  Descends(versions, current, source)
                  && (forall i :: 0 <= i < |line| ==> versions[line[i]].content == versions[source].content)
                  && (forall i :: 0 < i < |line| ==> versions[line[i]].number == versions[line[i - 1]].number + 1)
      decreases current
    {
      if versions[current].parent.None? { return false, line; }
      current := versions[current].parent.value;
      line := [current] + line;
    }
    ok := forall i :: 0 < i < |line| ==>
      versions[line[i]].content == versions[line[0]].content && versions[line[i]].number == versions[line[i - 1]].number + 1;
  }

  // ---- What every schedule keeps ----

  /** Parents are older, of the same family, and numbered one less; pointers name published
      versions of their family. */
  ghost predicate RepositoryOk(s: State) {
    && ParentsAreOlder(s.versions)
    && (forall i {:trigger s.versions[i].parent} :: 0 <= i < |s.versions| && s.versions[i].parent.Some? ==>
        s.versions[i].number == s.versions[s.versions[i].parent.value].number + 1
        && s.versions[i].family == s.versions[s.versions[i].parent.value].family)
    && (forall f :: f in s.pointers ==>
        s.pointers[f] < |s.versions| && s.versions[s.pointers[f]].family == f && s.versions[s.pointers[f]].lifecycle.Shadow?)
  }

  /** Between source and published version there is only a lineage, and after the published
      version at most one unsealed version that continues it. */
  ghost predicate FamilyOk(s: State, z: Frozen) {
    && z.family in s.pointers
    && HasVersion(s.versions, z.family)
    && z.source < |s.versions|
    && s.versions[z.source].family == z.family
    && s.versions[z.source].content == z.content
    && s.versions[z.source].number == z.number
    && Descends(s.versions, s.pointers[z.family], z.source)
    && var latest := Latest(s.versions, z.family);
       latest == s.pointers[z.family]
       || (Descends(s.versions, latest, z.source)
           && s.versions[latest].parent == Some(s.pointers[z.family])
           && Unsealed(s.versions[latest].lifecycle))
  }

  ghost predicate SourcesOk(s: State) {
    && (forall a, b :: a in s.sources && b in s.sources ==> s.sources[a] == s.sources[b])
    && (forall b, k {:trigger s.sources[b][k]} :: b in s.sources && 0 <= k < |s.sources[b]| ==> FamilyOk(s, s.sources[b][k]))
    && (forall b :: b in s.sources ==> DistinctFamilies(s.sources[b]))
  }

  ghost predicate DistinctFamilies(zs: seq<Frozen>) {
    forall i, j :: 0 <= i < j < |zs| ==> zs[i].family != zs[j].family
  }

  /** A candidate continues the frozen lineage, and is published or the family's only
      unsealed version. */
  ghost predicate CandidateOk(s: State, z: Frozen, id: VersionId) {
    && id != z.source
    && Descends(s.versions, id, z.source)
    && z.source < |s.versions| && s.versions[z.source].family == z.family
    && (s.versions[id].lifecycle.Shadow?
        || (Unsealed(s.versions[id].lifecycle) && HasVersion(s.versions, z.family) && id == Latest(s.versions, z.family)
            && z.family in s.pointers && id != s.pointers[z.family]))
  }

  ghost predicate CandidatesOk(s: State, b: Build, ids: seq<VersionId>) {
    && b in s.sources && |ids| <= |s.sources[b]| == FAMILY_COUNT
    && forall k :: 0 <= k < |ids| ==> CandidateOk(s, s.sources[b][k], ids[k])
  }

  ghost predicate DraftsOk(s: State) {
    forall b :: b in s.drafts ==> CandidatesOk(s, b, s.drafts[b]) && |s.drafts[b]| == FAMILY_COUNT
  }

  ghost predicate ShadowFirst(s: State, ids: seq<VersionId>, n: nat) {
    n <= |ids| && forall k :: 0 <= k < n ==> ids[k] < |s.versions| && s.versions[ids[k]].lifecycle.Shadow?
  }

  ghost predicate RunOk(s: State) {
    && (s.run.Cloning? ==> CandidatesOk(s, s.run.build, s.run.drafts) && s.run.build !in s.drafts)
    && (s.run.Publishing? ==> s.run.build in s.drafts && ShadowFirst(s, s.drafts[s.run.build], s.run.k))
    && (forall b :: b in s.finished ==> b in s.drafts && ShadowFirst(s, s.drafts[b], |s.drafts[b]|))
  }

  /** Revisions and the versions rollovers made correspond one to one. */
  ghost predicate RevisionsOk(s: State) {
    && (forall key :: key in s.revisions ==>
        var r := s.revisions[key];
        && r.result < |s.versions|
        && s.versions[r.result].family == key.1
        && s.versions[r.result].maker == Some(key.0)
        && s.versions[r.result].parent == Some(r.source)
        && r.source < r.result)
    && (forall id :: 0 <= id < |s.versions| && s.versions[id].maker.Some? ==>
        var key := (s.versions[id].maker.value, s.versions[id].family);
        key in s.revisions && s.revisions[key].result == id)
  }

  ghost predicate Inv(s: State) {
    RepositoryOk(s) && SourcesOk(s) && DraftsOk(s) && RunOk(s) && RevisionsOk(s)
  }

  /** A repository no rollover has touched yet. */
  ghost predicate Initial(s: State) {
    && RepositoryOk(s)
    && (forall id :: 0 <= id < |s.versions| ==> s.versions[id].maker.None?)
    && s.revisions == map[] && s.sources == map[] && s.drafts == map[] && s.finished == {} && s.run.Idle?
    && s.attempts == [] && s.evidence == map[]
  }

  // ---- Versions are added or advanced, never rewritten ----

  ghost predicate SameShape(before: seq<Version>, after: seq<Version>) {
    && |before| <= |after|
    && forall i :: 0 <= i < |before| ==>
         && before[i].family == after[i].family && before[i].number == after[i].number
         && before[i].parent == after[i].parent && before[i].content == after[i].content
         && before[i].maker == after[i].maker
  }

  lemma {:induction false} DescendsStays(before: seq<Version>, after: seq<Version>, id: VersionId, source: VersionId)
    requires SameShape(before, after) && Descends(before, id, source)
    ensures Descends(after, id, source)
    decreases id
  {
    if id != source {
      DescendsStays(before, after, before[id].parent.value, source);
    }
  }

  lemma {:induction false} DescendsUp(versions: seq<Version>, id: VersionId, source: VersionId)
    requires Descends(versions, id, source)
    ensures source <= id && versions[source].number <= versions[id].number
    ensures id != source ==> versions[source].number < versions[id].number && versions[id].parent.Some?
    decreases id
  {
    if id != source {
      DescendsUp(versions, versions[id].parent.value, source);
    }
  }

  lemma LatestUnique(versions: seq<Version>, f: Family, id: VersionId)
    requires id < |versions| && versions[id].family == f
    requires forall j :: id < j < |versions| ==> versions[j].family != f
    ensures HasVersion(versions, f) && Latest(versions, f) == id
  {
  }

  lemma LatestAfterUpdate(before: seq<Version>, after: seq<Version>, f: Family)
    requires SameShape(before, after) && |before| == |after| && HasVersion(before, f)
    ensures HasVersion(after, f) && Latest(after, f) == Latest(before, f)
  {
    assert after[Latest(before, f)].family == f;
    LatestUnique(after, f, Latest(before, f));
  }

  lemma LatestAfterAppend(versions: seq<Version>, v: Version, f: Family)
    requires HasVersion(versions, f)
    ensures HasVersion(versions + [v], f)
    ensures Latest(versions + [v], f) == if v.family == f then |versions| else Latest(versions, f)
  {
    var after := versions + [v];
    var id := if v.family == f then |versions| else Latest(versions, f);
    assert after[id].family == f;
    LatestUnique(after, f, id);
  }

  // ---- The run changes, the repository does not ----

  /** Only the records of the runs differ, not the repository. */
  ghost predicate SameRepository(s: State, t: State) {
    s.versions == t.versions && s.pointers == t.pointers && s.revisions == t.revisions
  }

  lemma SameFamily(s: State, t: State, z: Frozen)
    requires SameRepository(s, t)
    ensures FamilyOk(s, z) == FamilyOk(t, z)
  {
  }

  lemma SameCandidates(s: State, t: State, b: Build, ids: seq<VersionId>)
    requires SameRepository(s, t) && CandidatesOk(s, b, ids) && b in t.sources && t.sources[b] == s.sources[b]
    ensures CandidatesOk(t, b, ids)
  {
    forall k | 0 <= k < |ids| ensures CandidateOk(t, t.sources[b][k], ids[k]) {
      assert CandidateOk(s, s.sources[b][k], ids[k]);
    }
  }

  /** The parts of the invariant that do not look at the run. */
  lemma OtherRun(s: State, t: State)
    requires SameRepository(s, t) && s.sources == t.sources && s.drafts == t.drafts
    requires RepositoryOk(s) && SourcesOk(s) && DraftsOk(s) && RevisionsOk(s)
    ensures RepositoryOk(t) && SourcesOk(t) && DraftsOk(t) && RevisionsOk(t)
  {
    forall c, k | c in t.sources && 0 <= k < |t.sources[c]| ensures FamilyOk(t, t.sources[c][k]) {
      SameFamily(s, t, s.sources[c][k]);
    }
    forall c | c in t.drafts ensures CandidatesOk(t, c, t.drafts[c]) {
      SameCandidates(s, t, c, s.drafts[c]);
    }
  }

  lemma RunChange(s: State, t: State)
    requires Inv(s) && SameRepository(s, t) && s.sources == t.sources && s.drafts == t.drafts && RunOk(t)
    ensures Inv(t)
  {
    OtherRun(s, t);
  }

  // ---- Advancing a candidate ----

  /** The state after the lifecycle call on the `k`-th candidate of build `b`. */
  function Advanced(s: State, id: VersionId, to: Lifecycle): State
    requires id < |s.versions|
  {
    var t := Advance(s, id, to);
    if to.Shadow? then t.(pointers := t.pointers[s.versions[id].family := id]) else t
  }

  lemma AdvancedShape(s: State, id: VersionId, to: Lifecycle)
    requires RepositoryOk(s) && id < |s.versions| && Unsealed(s.versions[id].lifecycle)
    ensures var t := Advanced(s, id, to);
      SameShape(s.versions, t.versions) && |t.versions| == |s.versions|
    ensures RepositoryOk(Advanced(s, id, to))
  {
  }

  lemma AdvancedPublishes(s: State, z: Frozen, id: VersionId)
    requires RepositoryOk(s) && FamilyOk(s, z) && CandidateOk(s, z, id) && Unsealed(s.versions[id].lifecycle)
    ensures FamilyOk(Advanced(s, id, Shadow), z)
  {
    var t := Advanced(s, id, Shadow);
    AdvancedShape(s, id, Shadow);
    DescendsStays(s.versions, t.versions, id, z.source);
    LatestAfterUpdate(s.versions, t.versions, z.family);
    assert t.pointers[z.family] == id == Latest(t.versions, z.family);
  }

  /** A family whose pointer stays: its latest version was advanced, or not touched. */
  lemma AdvancedKeepsFamily(s: State, id: VersionId, to: Lifecycle, y: Frozen)
    requires RepositoryOk(s) && id < |s.versions| && Unsealed(s.versions[id].lifecycle) && FamilyOk(s, y)
    requires to.DevelopmentTested? || (to.Shadow? && s.versions[id].family != y.family)
    ensures FamilyOk(Advanced(s, id, to), y)
  {
    var t := Advanced(s, id, to);
    AdvancedShape(s, id, to);
    DescendsStays(s.versions, t.versions, s.pointers[y.family], y.source);
    LatestAfterUpdate(s.versions, t.versions, y.family);
    var latest := Latest(s.versions, y.family);
    assert t.pointers[y.family] == s.pointers[y.family];
    if latest != s.pointers[y.family] {
      DescendsStays(s.versions, t.versions, latest, y.source);
      assert Unsealed(t.versions[latest].lifecycle);
    }
  }

  lemma AdvancedFamily(s: State, z: Frozen, id: VersionId, to: Lifecycle, y: Frozen)
    requires RepositoryOk(s) && FamilyOk(s, z) && CandidateOk(s, z, id) && Unsealed(s.versions[id].lifecycle)
    requires to.DevelopmentTested? || to.Shadow?
    requires FamilyOk(s, y) && (y.family == z.family ==> y == z)
    ensures FamilyOk(Advanced(s, id, to), y)
  {
    if to.Shadow? && y == z {
      AdvancedPublishes(s, z, id);
    } else {
      AdvancedKeepsFamily(s, id, to, y);
    }
  }

  lemma AdvancedCandidate(s: State, z: Frozen, id: VersionId, to: Lifecycle, y: Frozen, other: VersionId)
    requires RepositoryOk(s) && CandidateOk(s, z, id) && Unsealed(s.versions[id].lifecycle)
    requires to.DevelopmentTested? || to.Shadow?
    requires CandidateOk(s, y, other) && (y.family == z.family ==> y == z)
    ensures CandidateOk(Advanced(s, id, to), y, other)
  {
    var t := Advanced(s, id, to);
    AdvancedShape(s, id, to);
    DescendsStays(s.versions, t.versions, other, y.source);
    if other == id {
      if to.DevelopmentTested? { LatestAfterUpdate(s.versions, t.versions, y.family); }
    } else if !s.versions[other].lifecycle.Shadow? {
      LatestAfterUpdate(s.versions, t.versions, y.family);
      assert s.versions[id].family == z.family;
    }
  }

  /** A call on candidate `k` of build `b`, as `_publish` makes it. */
  ghost predicate Advancing(s: State, b: Build, k: nat, to: Lifecycle) {
    && b in s.drafts && k < |s.drafts[b]| && b in s.sources && k < |s.sources[b]|
    && s.drafts[b][k] < |s.versions| && Unsealed(s.versions[s.drafts[b][k]].lifecycle)
    && (to.DevelopmentTested? || to.Shadow?)
  }

  lemma AdvanceKeepsSources(s: State, b: Build, k: nat, to: Lifecycle)
    requires RepositoryOk(s) && SourcesOk(s) && DraftsOk(s) && Advancing(s, b, k, to)
    ensures SourcesOk(Advanced(s, s.drafts[b][k], to))
  {
    var id, z := s.drafts[b][k], s.sources[b][k];
    var t := Advanced(s, id, to);
    assert CandidateOk(s, z, id) && FamilyOk(s, z);
    forall c, j | c in t.sources && 0 <= j < |t.sources[c]| ensures FamilyOk(t, t.sources[c][j]) {
      assert s.sources[c] == s.sources[b];
      AdvancedFamily(s, z, id, to, s.sources[c][j]);
    }
  }

  lemma AdvanceKeepsCandidates(s: State, b: Build, k: nat, to: Lifecycle, c: Build, ids: seq<VersionId>)
    requires RepositoryOk(s) && SourcesOk(s) && DraftsOk(s) && Advancing(s, b, k, to)
    requires CandidatesOk(s, c, ids)
    ensures CandidatesOk(Advanced(s, s.drafts[b][k], to), c, ids)
  {
    var id, z := s.drafts[b][k], s.sources[b][k];
    var t := Advanced(s, id, to);
    assert CandidateOk(s, z, id);
    SameSources(s, b, c);
    forall j | 0 <= j < |ids| ensures CandidateOk(t, t.sources[c][j], ids[j]) {
      assert CandidateOk(s, s.sources[c][j], ids[j]);
      AdvancedCandidate(s, z, id, to, s.sources[c][j], ids[j]);
    }
  }

  /** All builds froze the same sources, one for each family. */
  lemma SameSources(s: State, b: Build, c: Build)
    requires SourcesOk(s) && b in s.sources && c in s.sources
    ensures s.sources[c] == s.sources[b]
    ensures forall i, j :: 0 <= i < |s.sources[b]| && 0 <= j < |s.sources[b]| && s.sources[b][i].family == s.sources[b][j].family ==> i == j
  {
    assert DistinctFamilies(s.sources[b]);
  }

  lemma AdvanceKeepsRevisions(s: State, id: VersionId, to: Lifecycle)
    requires RevisionsOk(s) && id < |s.versions|
    ensures RevisionsOk(Advanced(s, id, to))
  {
    var t := Advanced(s, id, to);
    forall i | 0 <= i < |t.versions|
      ensures t.versions[i].maker == s.versions[i].maker && t.versions[i].family == s.versions[i].family
              && t.versions[i].parent == s.versions[i].parent {
    }
  }

  lemma AdvanceKeepsDrafts(s: State, b: Build, k: nat, to: Lifecycle)
    requires RepositoryOk(s) && SourcesOk(s) && DraftsOk(s) && Advancing(s, b, k, to)
    ensures DraftsOk(Advanced(s, s.drafts[b][k], to))
  {
    var t := Advanced(s, s.drafts[b][k], to);
    forall c | c in t.drafts ensures CandidatesOk(t, c, t.drafts[c]) && |t.drafts[c]| == FAMILY_COUNT {
      assert CandidatesOk(s, c, s.drafts[c]);
      AdvanceKeepsCandidates(s, b, k, to, c, s.drafts[c]);
    }
  }

  lemma AdvanceKeepsRun(s: State, b: Build, k: nat, to: Lifecycle)
    requires RepositoryOk(s) && SourcesOk(s) && DraftsOk(s) && Advancing(s, b, k, to) && RunOk(s)
    ensures RunOk(Advanced(s, s.drafts[b][k], to))
  {
    var t := Advanced(s, s.drafts[b][k], to);
    if t.run.Cloning? {
      AdvanceKeepsCandidates(s, b, k, to, s.run.build, s.run.drafts);
    }
    forall ids, n: nat | ShadowFirst(s, ids, n) ensures ShadowFirst(t, ids, n) {
    }
  }

  lemma AdvanceKeeps(s: State, b: Build, k: nat, to: Lifecycle)
    requires Inv(s) && Advancing(s, b, k, to)
    ensures Inv(Advanced(s, s.drafts[b][k], to))
  {
    AdvancedShape(s, s.drafts[b][k], to);
    AdvanceKeepsSources(s, b, k, to);
    AdvanceKeepsDrafts(s, b, k, to);
    AdvanceKeepsRun(s, b, k, to);
    AdvanceKeepsRevisions(s, s.drafts[b][k], to);
  }

  /** A publishing step that makes no lifecycle call. */
  lemma PublishMoves(s: State)
    requires RunOk(s) && s.run.Publishing?
    requires s.run.k < |s.drafts[s.run.build]| ==>
      var id := s.drafts[s.run.build][s.run.k];
      id < |s.versions| && s.versions[id].lifecycle.Shadow?
    ensures RunOk(PublishStep(s))
  {
    forall ids, n: nat | ShadowFirst(s, ids, n) ensures ShadowFirst(PublishStep(s), ids, n) {
    }
  }

  lemma OtherPublishers(s: State, publishers: map<Family, Publisher>)
    requires Inv(s)
    ensures Inv(s.(publishers := publishers))
  {
    var t := s.(publishers := publishers);
    assert forall c, n: nat {:trigger ShadowFirst(t, c, n)} :: ShadowFirst(s, c, n) == ShadowFirst(t, c, n);
    RunChange(s, t);
  }

  /** A lifecycle call that the evaluation authorizes. */
  lemma CallKeeps(s: State, b: Build, k: nat)
    requires Inv(s) && b in s.drafts && k < |s.drafts[b]|
    requires var id := s.drafts[b][k]; id < |s.versions| && Unsealed(s.versions[id].lifecycle)
    ensures Inv(Call(s, b, s.drafts[b][k]))
  {
    var id := s.drafts[b][k];
    assert CandidatesOk(s, b, s.drafts[b]);
    CallAdvances(s, b, k, if s.versions[id].lifecycle.Draft? then DevelopmentTested else Shadow);
  }

  lemma CallAdvances(s: State, b: Build, k: nat, to: Lifecycle)
    requires Inv(s) && Advancing(s, b, k, to)
    requires to == if s.versions[s.drafts[b][k]].lifecycle.Draft? then DevelopmentTested else Shadow
    ensures Inv(Call(s, b, s.drafts[b][k]))
  {
    var id := s.drafts[b][k];
    assert Inv(Advanced(s, id, to)) by { AdvanceKeeps(s, b, k, to); }
    OtherPublishers(Advanced(s, id, to), Call(s, b, id).publishers);
    CallIsAdvance(s, b, id, to);
  }

  lemma CallIsAdvance(s: State, b: Build, id: VersionId, to: Lifecycle)
    requires id < |s.versions| && Unsealed(s.versions[id].lifecycle)
    requires to == if s.versions[id].lifecycle.Draft? then DevelopmentTested else Shadow
    ensures Call(s, b, id) == Advanced(s, id, to).(publishers := Call(s, b, id).publishers)
  {
  }

  lemma PublishKeeps(s: State)
    requires Inv(s)
    ensures Inv(PublishStep(s))
  {
    if s.run.Publishing? {
      var b, k := s.run.build, s.run.k;
      if k < |s.drafts[b]| {
        var id := s.drafts[b][k];
        assert CandidatesOk(s, b, s.drafts[b]) && CandidateOk(s, s.sources[b][k], id);
        if s.versions[id].lifecycle.Shadow? {
          PublishMoves(s);
          RunChange(s, PublishStep(s));
        } else if Authorizes(s, b, id) {
          CallKeeps(s, b, k);
        } else {
          Halted(s);
        }
      } else {
        EndKeeps(s);
      }
    }
  }

  lemma EndKeeps(s: State)
    requires Inv(s) && s.run.Publishing? && s.run.k >= |s.drafts[s.run.build]|
    ensures Inv(PublishStep(s))
  {
    PublishMoves(s);
    RunChange(s, PublishStep(s));
  }

  // ---- Freezing ----

  lemma FrozenIsOk(s: State, f: Family)
    requires RepositoryOk(s) && Freezable(s, f)
    ensures FamilyOk(s, FreezeFamily(s, f))
  {
    var z := FreezeFamily(s, f);
    assert Descends(s.versions, s.pointers[f], z.source);
    var latest := Latest(s.versions, f);
    if latest != s.pointers[f] {
      assert s.versions[latest].parent.value < latest;
      assert Descends(s.versions, latest, z.source);
    }
  }

  /** Taking over an earlier build's sources. */
  lemma AnchoredKeeps(s: State, b: Build, anchor: Build)
    requires Inv(s) && s.run.Idle? && b !in s.sources && anchor in s.sources
    ensures Inv(s.(sources := s.sources[b := s.sources[anchor]]))
  {
    var t := s.(sources := s.sources[b := s.sources[anchor]]);
    forall c, k | c in t.sources && 0 <= k < |t.sources[c]| ensures FamilyOk(t, t.sources[c][k]) {
      assert t.sources[c] == s.sources[anchor];
      SameFamily(s, t, s.sources[anchor][k]);
    }
    forall c | c in t.drafts ensures CandidatesOk(t, c, t.drafts[c]) {
      assert CandidatesOk(s, c, s.drafts[c]);
      SameCandidates(s, t, c, s.drafts[c]);
    }
  }

  lemma DraftsHaveSources(s: State)
    requires DraftsOk(s)
    ensures s.drafts.Keys <= s.sources.Keys
  {
    forall c | c in s.drafts ensures c in s.sources {
      assert CandidatesOk(s, c, s.drafts[c]);
    }
  }

  lemma FreezableArePublished(fams: seq<Family>, s: State)
    requires forall f <- fams :: Freezable(s, f)
    ensures forall f <- fams :: Published(s, f)
  {
  }

  lemma FirstSourcesOk(fams: seq<Family>, s: State, b: Build)
    requires Inv(s) && Distinct(fams) && s.sources == map[]
    requires (forall f <- fams :: Freezable(s, f)) && (forall f <- fams :: Published(s, f))
    ensures SourcesOk(s.(sources := s.sources[b := FreezeAll(s, fams)]))
  {
    var t := s.(sources := s.sources[b := FreezeAll(s, fams)]);
    forall c, k | c in t.sources && 0 <= k < |t.sources[c]| ensures FamilyOk(t, t.sources[c][k]) {
      assert fams[k] in fams;
      FrozenIsOk(s, fams[k]);
      SameFamily(s, t, t.sources[c][k]);
    }
  }

  lemma FirstFreezeKeeps(fams: seq<Family>, s: State, b: Build)
    requires Inv(s) && Distinct(fams) && s.run.Idle? && s.sources == map[]
    requires forall f <- fams :: Freezable(s, f)
    ensures (forall f <- fams :: Published(s, f)) && Inv(s.(sources := s.sources[b := FreezeAll(s, fams)]))
  {
    FreezableArePublished(fams, s);
    FirstSourcesOk(fams, s, b);
    DraftsHaveSources(s);
  }

  lemma FreezeKeeps(fams: seq<Family>, s: State, b: Build, anchor: Build)
    requires Inv(s) && Distinct(fams)
    ensures Inv(FreezeStep(fams, s, b, anchor))
  {
    if s.run.Idle? && b !in s.sources {
      if s.sources != map[] {
        if anchor in s.sources { AnchoredKeeps(s, b, anchor); }
      } else if forall f <- fams :: Freezable(s, f) {
        FirstFreezeKeeps(fams, s, b);
      }
    }
  }

  // ---- Cloning ----

  /** The state after a revise that stored a new version. */
  function Revised(s: State, b: Build, z: Frozen): State
    requires Published(s, z.family)
  {
    var shadow := s.pointers[z.family];
    var v := s.versions[shadow];
    s.(versions := s.versions + [Version(z.family, v.number + 1, Some(shadow), v.content, Draft, 1, Some(b))],
       revisions := s.revisions[(b, z.family) := Revision(shadow, v.record, |s.versions|)])
  }

  /** A fresh clone is due and its key is unused. */
  ghost predicate Revising(s: State, b: Build, z: Frozen) {
    && RepositoryOk(s) && FamilyOk(s, z)
    && Latest(s.versions, z.family) == s.pointers[z.family] && (b, z.family) !in s.revisions
  }

  lemma RevisedShape(s: State, b: Build, z: Frozen)
    requires Revising(s, b, z)
    ensures SameShape(s.versions, Revised(s, b, z).versions) && RepositoryOk(Revised(s, b, z))
  {
    var t := Revised(s, b, z);
    forall i | 0 <= i < |s.versions| ensures t.versions[i] == s.versions[i] {
    }
  }

  lemma RevisedDescends(s: State, b: Build, z: Frozen)
    requires Revising(s, b, z)
    ensures Descends(Revised(s, b, z).versions, |s.versions|, z.source)
  {
    var t := Revised(s, b, z);
    RevisedShape(s, b, z);
    DescendsStays(s.versions, t.versions, s.pointers[z.family], z.source);
    assert t.versions[s.pointers[z.family]] == s.versions[s.pointers[z.family]];
  }

  lemma RevisedFamily(s: State, b: Build, z: Frozen, y: Frozen)
    requires Revising(s, b, z) && FamilyOk(s, y) && (y.family == z.family ==> y == z)
    ensures FamilyOk(Revised(s, b, z), y)
  {
    var t := Revised(s, b, z);
    RevisedShape(s, b, z);
    DescendsStays(s.versions, t.versions, s.pointers[y.family], y.source);
    LatestAfterAppend(s.versions, t.versions[|s.versions|], y.family);
    var latest := Latest(s.versions, y.family);
    if y == z {
      RevisedDescends(s, b, z);
    } else if latest != s.pointers[y.family] {
      DescendsStays(s.versions, t.versions, latest, y.source);
      assert t.versions[latest] == s.versions[latest];
    }
  }

  lemma RevisedCandidate(s: State, b: Build, z: Frozen, y: Frozen, other: VersionId)
    requires Revising(s, b, z) && CandidateOk(s, y, other) && (y.family == z.family ==> y == z)
    ensures CandidateOk(Revised(s, b, z), y, other)
  {
    var t := Revised(s, b, z);
    RevisedShape(s, b, z);
    DescendsStays(s.versions, t.versions, other, y.source);
    assert t.versions[other] == s.versions[other];
    if !s.versions[other].lifecycle.Shadow? {
      LatestAfterAppend(s.versions, t.versions[|s.versions|], y.family);
    }
  }

  lemma RevisedRevisions(s: State, b: Build, z: Frozen)
    requires Revising(s, b, z) && RevisionsOk(s)
    ensures RevisionsOk(Revised(s, b, z))
  {
    var t := Revised(s, b, z);
    forall i | 0 <= i < |s.versions| ensures t.versions[i] == s.versions[i] {
    }
  }

  lemma RevisedSources(s: State, b: Build, k: nat)
    requires SourcesOk(s) && b in s.sources && k < |s.sources[b]| && Revising(s, b, s.sources[b][k])
    ensures SourcesOk(Revised(s, b, s.sources[b][k]))
  {
    var z := s.sources[b][k];
    var t := Revised(s, b, z);
    forall c, j | c in t.sources && 0 <= j < |t.sources[c]| ensures FamilyOk(t, t.sources[c][j]) {
      assert s.sources[c] == s.sources[b];
      RevisedFamily(s, b, z, s.sources[c][j]);
    }
  }

  lemma RevisedCandidates(s: State, b: Build, k: nat, c: Build, ids: seq<VersionId>)
    requires SourcesOk(s) && b in s.sources && k < |s.sources[b]| && Revising(s, b, s.sources[b][k])
    requires CandidatesOk(s, c, ids)
    ensures CandidatesOk(Revised(s, b, s.sources[b][k]), c, ids)
  {
    var z := s.sources[b][k];
    var t := Revised(s, b, z);
    assert s.sources[c] == s.sources[b];
    forall j | 0 <= j < |ids| ensures CandidateOk(t, t.sources[c][j], ids[j]) {
      RevisedCandidate(s, b, z, s.sources[c][j], ids[j]);
    }
  }

  lemma RevisedRuns(s: State, b: Build, k: nat)
    requires Inv(s) && b in s.sources && k < |s.sources[b]| && Revising(s, b, s.sources[b][k])
    ensures DraftsOk(Revised(s, b, s.sources[b][k])) && RunOk(Revised(s, b, s.sources[b][k]))
  {
    var t := Revised(s, b, s.sources[b][k]);
    forall c | c in t.drafts ensures CandidatesOk(t, c, t.drafts[c]) {
      assert CandidatesOk(s, c, s.drafts[c]);
      RevisedCandidates(s, b, k, c, s.drafts[c]);
    }
    if s.run.Cloning? {
      RevisedCandidates(s, b, k, s.run.build, s.run.drafts);
    }
    forall ids, n: nat | ShadowFirst(s, ids, n) ensures ShadowFirst(t, ids, n) {
    }
  }

  lemma RevisedKeeps(s: State, b: Build, k: nat)
    requires Inv(s) && b in s.sources && k < |s.sources[b]| && Revising(s, b, s.sources[b][k])
    ensures Inv(Revised(s, b, s.sources[b][k]))
  {
    RevisedShape(s, b, s.sources[b][k]);
    RevisedSources(s, b, k);
    RevisedRuns(s, b, k);
    RevisedRevisions(s, b, s.sources[b][k]);
  }

  /** An unsealed version after the published one is a candidate as it stands. */
  lemma WaitingDraft(s: State, z: Frozen)
    requires RepositoryOk(s) && FamilyOk(s, z) && Latest(s.versions, z.family) != s.pointers[z.family]
    ensures CandidateOk(s, z, Latest(s.versions, z.family)) && AcceptableDraft(s, z, Latest(s.versions, z.family))
  {
    DescendsUp(s.versions, s.pointers[z.family], z.source);
  }

  lemma FreshDraft(s: State, b: Build, z: Frozen)
    requires Revising(s, b, z)
    ensures var t := Revised(s, b, z);
      CandidateOk(t, z, |s.versions|) && AcceptableDraft(t, z, |s.versions|)
  {
    RevisedFamily(s, b, z, z);
    RevisedDescends(s, b, z);
    LatestAfterAppend(s.versions, Revised(s, b, z).versions[|s.versions|], z.family);
  }

  /** While a family's published version is its latest, the key of a build that already
      revised the family is spent. */
  lemma KeyIsSpent(s: State, b: Build, z: Frozen)
    requires RepositoryOk(s) && RevisionsOk(s) && FamilyOk(s, z)
    requires Latest(s.versions, z.family) == s.pointers[z.family] && (b, z.family) in s.revisions
    ensures CloneFamily(s, b, z) == None
  {
    var r := s.revisions[(b, z.family)];
    assert s.versions[r.result].family == z.family;
    assert r.result <= Latest(s.versions, z.family);
  }

  lemma WaitingIsTaken(s: State, b: Build, z: Frozen)
    requires RepositoryOk(s) && FamilyOk(s, z) && Latest(s.versions, z.family) != s.pointers[z.family]
    ensures CloneFamily(s, b, z) == Some((s, Latest(s.versions, z.family)))
  {
    WaitingDraft(s, z);
  }

  lemma FreshIsStored(s: State, b: Build, z: Frozen)
    requires Revising(s, b, z)
    ensures CloneFamily(s, b, z) == Some((Revised(s, b, z), |s.versions|))
  {
    FreshDraft(s, b, z);
  }

  /** Cloning a family succeeds exactly when an unsealed version is waiting or the build has
      not cloned the family before. */
  lemma CloneSucceedsExactly(s: State, b: Build, z: Frozen)
    requires RepositoryOk(s) && RevisionsOk(s) && FamilyOk(s, z)
    ensures CloneFamily(s, b, z).Some? <==>
            (Latest(s.versions, z.family) != s.pointers[z.family] || (b, z.family) !in s.revisions)
  {
    if Latest(s.versions, z.family) != s.pointers[z.family] {
      WaitingIsTaken(s, b, z);
    } else if (b, z.family) in s.revisions {
      KeyIsSpent(s, b, z);
    } else {
      FreshIsStored(s, b, z);
    }
  }

  lemma OneMoreCandidate(t: State, b: Build, ids: seq<VersionId>, id: VersionId)
    requires CandidatesOk(t, b, ids) && |ids| < |t.sources[b]| && CandidateOk(t, t.sources[b][|ids|], id)
    ensures CandidatesOk(t, b, ids + [id])
  {
  }

  lemma CloneAdds(t: State, id: VersionId)
    requires Inv(t) && t.run.Cloning? && |t.run.drafts| < |t.sources[t.run.build]|
    requires CandidateOk(t, t.sources[t.run.build][|t.run.drafts|], id)
    ensures Inv(t.(run := Cloning(t.run.build, t.run.drafts + [id])))
  {
    var b, ids := t.run.build, t.run.drafts;
    OneMoreCandidate(t, b, ids, id);
    var u := t.(run := Cloning(b, ids + [id]));
    SameCandidates(t, u, b, ids + [id]);
    assert forall c, n: nat {:trigger ShadowFirst(u, c, n)} :: ShadowFirst(t, c, n) == ShadowFirst(u, c, n);
    RunChange(t, u);
  }

  lemma CloneKeeps(s: State)
    requires Inv(s)
    ensures Inv(CloneStep(s))
  {
    if s.run.Cloning? && |s.run.drafts| < |s.sources[s.run.build]| {
      var b, k := s.run.build, |s.run.drafts|;
      var z := s.sources[b][k];
      assert FamilyOk(s, z);
      if Latest(s.versions, z.family) != s.pointers[z.family] {
        WaitingIsTaken(s, b, z);
        WaitingDraft(s, z);
        CloneAdds(s, Latest(s.versions, z.family));
      } else if (b, z.family) in s.revisions {
        KeyIsSpent(s, b, z);
        Halted(s);
      } else {
        FreshIsStored(s, b, z);
        RevisedKeeps(s, b, k);
        FreshDraft(s, b, z);
        CloneAdds(Revised(s, b, z), |s.versions|);
      }
    }
  }

  /** Wherever a run stops, the records stay sound. */
  lemma Halted(s: State)
    requires Inv(s)
    ensures Inv(s.(run := Idle))
  {
    var t := s.(run := Idle);
    assert forall c, n: nat {:trigger ShadowFirst(t, c, n)} :: ShadowFirst(s, c, n) == ShadowFirst(t, c, n);
    RunChange(s, t);
  }

  // ---- Every schedule ----

  lemma WriteKeeps(s: State)
    requires Inv(s) && s.run.Cloning? && |s.run.drafts| == FAMILY_COUNT
    ensures Inv(s.(drafts := s.drafts[s.run.build := s.run.drafts], run := Idle))
  {
    var b := s.run.build;
    var t := s.(drafts := s.drafts[b := s.run.drafts], run := Idle);
    OtherRun(s, t.(drafts := s.drafts));
    forall c | c in t.drafts ensures CandidatesOk(t, c, t.drafts[c]) && |t.drafts[c]| == FAMILY_COUNT {
      SameCandidates(s, t, c, t.drafts[c]);
    }
  }

  lemma StartKeeps(s: State, b: Build)
    requires Inv(s) && s.run.Idle?
    ensures b in s.sources && b !in s.drafts && |s.sources[b]| == FAMILY_COUNT ==> Inv(s.(run := Cloning(b, [])))
    ensures b in s.drafts ==> Inv(s.(run := Publishing(b, 0)))
    ensures Inv(s.(run := Evaluating(b)))
  {
    var t, u := s.(run := Cloning(b, [])), s.(run := Publishing(b, 0));
    var v := s.(run := Evaluating(b));
    assert forall c, n: nat {:trigger ShadowFirst(v, c, n)} :: ShadowFirst(s, c, n) == ShadowFirst(v, c, n);
    RunChange(s, v);
    assert forall c, n: nat {:trigger ShadowFirst(t, c, n)} :: ShadowFirst(s, c, n) == ShadowFirst(t, c, n);
    assert forall c, n: nat {:trigger ShadowFirst(u, c, n)} :: ShadowFirst(s, c, n) == ShadowFirst(u, c, n);
    if b in s.sources && b !in s.drafts && |s.sources[b]| == FAMILY_COUNT { RunChange(s, t); }
    if b in s.drafts { RunChange(s, u); }
  }

  lemma EvaluateLeaves(s: State, a: Action)
    ensures var t := EvaluateStep(s, a);
      t == s || (t == s.(attempts := t.attempts, evidence := t.evidence, run := t.run) && (t.run.Idle? || t.run.Recording?))
  {
  }

  lemma RecordsChange(s: State, t: State)
    requires Inv(s) && t == s.(attempts := t.attempts, evidence := t.evidence, run := t.run)
    requires !t.run.Cloning? && !t.run.Publishing?
    ensures Inv(t)
  {
    assert forall c, n: nat {:trigger ShadowFirst(t, c, n)} :: ShadowFirst(s, c, n) == ShadowFirst(t, c, n);
    RunChange(s, t);
  }

  lemma EvaluateKeeps(s: State, a: Action)
    requires Inv(s)
    ensures Inv(EvaluateStep(s, a))
  {
    EvaluateLeaves(s, a);
    if EvaluateStep(s, a) != s { RecordsChange(s, EvaluateStep(s, a)); }
  }

  lemma StepKeeps(fams: seq<Family>, s: State, a: Action)
    requires Inv(s) && Distinct(fams)
    ensures Inv(Apply(fams, s, a))
  {
    match a
    case Freeze(b, anchor) => FreezeKeeps(fams, s, b, anchor);
    case CloneNext => CloneKeeps(s);
    case PublishNext => PublishKeeps(s);
    case WriteDrafts =>
      if s.run.Cloning? && |s.run.drafts| == FAMILY_COUNT { WriteKeeps(s); }
    case StartCloning(b) => if s.run.Idle? { StartKeeps(s, b); }
    case StartEvaluating(b) => if s.run.Idle? { StartKeeps(s, b); }
    case Evaluated(_) => EvaluateKeeps(s, a);
    case WriteEvidence => EvaluateKeeps(s, a);
    case WriteFails => EvaluateKeeps(s, a);
    case StartPublishing(b) => if s.run.Idle? { StartKeeps(s, b); }
    case Stop => Halted(s);
  }

  lemma {:induction false} RunKeeps(fams: seq<Family>, s: State, schedule: seq<Action>)
    requires Initial(s) && Distinct(fams)
    ensures Inv(RunFrom(fams, s, schedule))
  {
    if schedule != [] {
      RunKeeps(fams, s, schedule[..|schedule| - 1]);
      StepKeeps(fams, RunFrom(fams, s, schedule[..|schedule| - 1]), schedule[|schedule| - 1]);
    }
  }

  // ---- What a rollover promises, over every schedule ----

  /** A build adds at most one version to a family, however often it is restarted. */
  lemma OneVersionPerFamily(fams: seq<Family>, s: State, schedule: seq<Action>, b: Build, i: VersionId, j: VersionId)
    requires Initial(s) && Distinct(fams)
    requires var t := RunFrom(fams, s, schedule);
      i < |t.versions| && j < |t.versions| && t.versions[i].family == t.versions[j].family
      && t.versions[i].maker == t.versions[j].maker == Some(b)
    ensures i == j
  {
    RunKeeps(fams, s, schedule);
  }

  /** A finished build has every family in shadow, and every candidate descends from the
      frozen source: the lineage walk of `VersionLineage` succeeds on it. */
  lemma FinishedMeansShadow(fams: seq<Family>, s: State, schedule: seq<Action>, b: Build, k: nat)
    requires Initial(s) && Distinct(fams) && k < FAMILY_COUNT
    requires b in RunFrom(fams, s, schedule).finished
    ensures var t := RunFrom(fams, s, schedule);
      && b in t.sources && b in t.drafts && |t.sources[b]| == |t.drafts[b]| == FAMILY_COUNT
      && t.drafts[b][k] < |t.versions|
      && t.versions[t.drafts[b][k]].family == t.sources[b][k].family
      && t.versions[t.drafts[b][k]].content == t.sources[b][k].content
      && t.versions[t.drafts[b][k]].lifecycle.Shadow?
      && ParentsAreOlder(t.versions)
      && Descends(t.versions, t.drafts[b][k], t.sources[b][k].source)
  {
    RunKeeps(fams, s, schedule);
    var t := RunFrom(fams, s, schedule);
    assert CandidatesOk(t, b, t.drafts[b]) && CandidateOk(t, t.sources[b][k], t.drafts[b][k]);
    assert FamilyOk(t, t.sources[b][k]);
  }

  // ---- Evaluations are recorded for written drafts, and evidence stands ----

  /** The build's evidence reports its last attempt, which succeeded. */
  ghost predicate EvidenceOk(s: State, b: Build) {
    b in s.evidence &&
    var e := s.evidence[b];
    && e < |s.attempts| && s.attempts[e].build == b && s.attempts[e].outcome.Some?
    && forall j :: e < j < |s.attempts| ==> s.attempts[j].build != b
  }

  ghost predicate RunRecorded(s: State) {
    match s.run
    case Idle => true
    case Cloning(b, _) => b !in s.drafts
    case Evaluating(b) => b in s.drafts && b !in s.evidence
    case Recording(b, i) =>
      && b in s.drafts && b !in s.evidence
      && i + 1 == |s.attempts| && s.attempts[i].build == b && s.attempts[i].outcome.Some?
    case Publishing(b, _) => b in s.drafts && b in s.evidence
  }

  ghost predicate AttemptsOk(s: State) {
    forall j :: 0 <= j < |s.attempts| ==>
      s.attempts[j].build in s.drafts && s.attempts[j].candidates == s.drafts[s.attempts[j].build]
  }

  ghost predicate Recorded(s: State) { AttemptsOk(s) && (forall b :: b in s.evidence ==> EvidenceOk(s, b)) && RunRecorded(s) }

  /** What a revise stores: a draft behind the others, and its key. */
  lemma ReviseLeaves(s: State, b: Build, f: Family, source: VersionId, record: nat)
    requires source < |s.versions| && Revise(s, b, f, source, record).Some?
    ensures var t := Revise(s, b, f, source, record).value.0;
      t == s.(versions := t.versions, revisions := t.revisions) && Stores(s, t, b)
  {
  }

  /** At most one version more, a draft the build made. */
  ghost predicate Stores(s: State, t: State, b: Build) {
    && |s.versions| <= |t.versions| <= |s.versions| + 1 && t.versions[..|s.versions|] == s.versions
    && (|t.versions| > |s.versions| ==>
        t.versions[|s.versions|].lifecycle.Draft? && t.versions[|s.versions|].maker == Some(b))
  }

  lemma CloneLeaves(s: State, b: Build, z: Frozen)
    requires CloneFamily(s, b, z).Some?
    ensures var t := CloneFamily(s, b, z).value.0;
      t == s.(versions := t.versions, revisions := t.revisions) && Stores(s, t, b)
  {
    var shadow := s.pointers[z.family];
    if Latest(s.versions, z.family) == shadow { ReviseLeaves(s, b, z.family, shadow, s.versions[shadow].record); }
  }

  lemma CloneStepLeaves(s: State)
    ensures var t := CloneStep(s);
      && t == s.(versions := t.versions, revisions := t.revisions, run := t.run)
      && (t == s || (s.run.Cloning? && (t.run.Idle? || (t.run.Cloning? && t.run.build == s.run.build)) && Stores(s, t, s.run.build)))
  {
    if s.run.Cloning? && s.run.build in s.sources && |s.run.drafts| < |s.sources[s.run.build]| {
      var z := s.sources[s.run.build][|s.run.drafts|];
      if CloneFamily(s, s.run.build, z).Some? { CloneLeaves(s, s.run.build, z); }
    }
  }

  lemma CloneRecords(s: State)
    ensures var t := CloneStep(s);
      && t.attempts == s.attempts && t.evidence == s.evidence && t.drafts == s.drafts
      && (t.run.Idle? || t.run == s.run || (s.run.Cloning? && t.run.Cloning? && t.run.build == s.run.build))
  {
    CloneStepLeaves(s);
  }

  /** What a lifecycle call leaves alone, and what it makes of the version. */
  lemma CallLeaves(s: State, b: Build, id: VersionId)
    requires id < |s.versions|
    ensures var t := Call(s, b, id);
      && t == s.(versions := t.versions, pointers := t.pointers, publishers := t.publishers)
      && |t.versions| == |s.versions|
      && (forall i :: 0 <= i < |s.versions| && i != id ==> t.versions[i] == s.versions[i])
      && SameShape(s.versions, t.versions)
      && t.versions[id].lifecycle == (if s.versions[id].lifecycle.Draft? then DevelopmentTested else Shadow)
  {
  }

  lemma PublishRecords(s: State)
    ensures var t := PublishStep(s);
      && t == s.(versions := t.versions, pointers := t.pointers, publishers := t.publishers, finished := t.finished, run := t.run)
      && (t.run.Idle? || t.run == s.run || (s.run.Publishing? && t.run.Publishing? && t.run.build == s.run.build))
  {
    if s.run.Publishing? && s.run.build in s.drafts && s.run.k < |s.drafts[s.run.build]| {
      var id := s.drafts[s.run.build][s.run.k];
      if id < |s.versions| { CallLeaves(s, s.run.build, id); }
    }
  }

  lemma PublishShape(s: State)
    ensures |PublishStep(s).versions| == |s.versions| && SameShape(s.versions, PublishStep(s).versions)
  {
    if s.run.Publishing? && s.run.build in s.drafts && s.run.k < |s.drafts[s.run.build]| {
      var id := s.drafts[s.run.build][s.run.k];
      if id < |s.versions| { CallLeaves(s, s.run.build, id); }
    }
  }

  lemma EvaluateRecorded(s: State, a: Action)
    requires Recorded(s)
    ensures Recorded(EvaluateStep(s, a))
  {
    if s.run.Evaluating? && a.Evaluated? {
      EndRecorded(s, a.outcome);
    } else if s.run.Recording? && a.WriteEvidence? {
      WriteRecorded(s);
    } else if s.run.Recording? && a.WriteFails? {
      FailRecorded(s);
    }
  }

  lemma EvidenceStays(s: State, t: State, x: Attempt)
    requires forall b :: b in s.evidence ==> EvidenceOk(s, b)
    requires t.evidence == s.evidence && t.attempts == s.attempts + [x] && x.build !in s.evidence
    ensures forall b :: b in t.evidence ==> EvidenceOk(t, b)
  {
    forall b | b in t.evidence ensures EvidenceOk(t, b) {
      assert EvidenceOk(s, b);
    }
  }

  lemma EndRecorded(s: State, outcome: Option<nat>)
    requires Recorded(s) && s.run.Evaluating?
    ensures Recorded(EndEvaluation(s, s.run.build, outcome))
  {
    var t := EndEvaluation(s, s.run.build, outcome);
    EvidenceStays(s, t, t.attempts[|s.attempts|]);
  }

  lemma WriteRecorded(s: State)
    requires Recorded(s) && s.run.Recording?
    ensures Recorded(s.(evidence := s.evidence[s.run.build := s.run.attempt], run := Idle))
  {
    var t := s.(evidence := s.evidence[s.run.build := s.run.attempt], run := Idle);
    forall b | b in t.evidence ensures EvidenceOk(t, b) {
      assert b in s.evidence ==> EvidenceOk(s, b);
    }
  }

  lemma FailRecorded(s: State)
    requires Recorded(s) && s.run.Recording?
    ensures Recorded(s.(attempts := s.attempts + [s.attempts[s.run.attempt].(outcome := None)], run := Idle))
  {
    var x := s.attempts[s.run.attempt].(outcome := None);
    EvidenceStays(s, s.(attempts := s.attempts + [x], run := Idle), x);
  }

  lemma StepRecorded(fams: seq<Family>, s: State, a: Action)
    requires Recorded(s)
    ensures Recorded(Apply(fams, s, a))
  {
    match a
    case CloneNext =>
      CloneRecords(s);
      SameRecorded(s, CloneStep(s));
    case PublishNext =>
      PublishRecords(s);
      SameRecorded(s, PublishStep(s));
    case Evaluated(_) => EvaluateRecorded(s, a);
    case WriteEvidence => EvaluateRecorded(s, a);
    case WriteFails => EvaluateRecorded(s, a);
    case WriteDrafts =>
      var t := Apply(fams, s, a);
      if t != s { DraftsRecorded(s, t); }
    case Freeze(_, _) => FreezeRecorded(fams, s, a);
    case _ => StartRecorded(fams, s, a);
  }

  lemma FreezeRecorded(fams: seq<Family>, s: State, a: Action)
    requires Recorded(s) && a.Freeze?
    ensures Recorded(Apply(fams, s, a))
  {
    var t := FreezeStep(fams, s, a.build, a.anchor);
    assert t == s.(sources := t.sources);
    SameRecorded(s, t);
  }

  lemma StartRecorded(fams: seq<Family>, s: State, a: Action)
    requires Recorded(s) && (a.StartCloning? || a.StartEvaluating? || a.StartPublishing? || a.Stop?)
    ensures Recorded(Apply(fams, s, a))
  {
    var t := Apply(fams, s, a);
    assert t == s.(run := t.run);
    SameRecorded(s, t);
  }

  lemma DraftsRecorded(s: State, t: State)
    requires Recorded(s) && s.run.Cloning?
    requires t == s.(drafts := s.drafts[s.run.build := s.run.drafts], run := Idle)
    ensures Recorded(t)
  {
    forall b | b in t.evidence ensures EvidenceOk(t, b) {
      assert EvidenceOk(s, b);
    }
  }

  lemma SameRecorded(s: State, t: State)
    requires Recorded(s) && RunRecorded(t)
    requires t.attempts == s.attempts && t.evidence == s.evidence && t.drafts == s.drafts
    ensures Recorded(t)
  {
    forall b | b in t.evidence ensures EvidenceOk(t, b) {
      assert EvidenceOk(s, b);
    }
  }

  lemma {:induction false} RunRecords(fams: seq<Family>, s: State, schedule: seq<Action>)
    requires Initial(s)
    ensures Recorded(RunFrom(fams, s, schedule))
  {
    if schedule != [] {
      RunRecords(fams, s, schedule[..|schedule| - 1]);
      StepRecorded(fams, RunFrom(fams, s, schedule[..|schedule| - 1]), schedule[|schedule| - 1]);
    }
  }

  lemma {:induction false} LatestIs(attempts: seq<Attempt>, id: VersionId, n: nat, e: nat)
    requires e < n <= |attempts|
    ensures LatestEvaluation(attempts, id, n) == Some(e) <==>
            && Standing(attempts, e) && id in attempts[e].candidates
            && forall j :: e < j < n ==> !(Standing(attempts, j) && id in attempts[j].candidates)
  {
    if n - 1 > e { LatestIs(attempts, id, n - 1, e); } else { LatestBelow(attempts, id, n - 1); }
  }

  lemma {:induction false} LatestBelow(attempts: seq<Attempt>, id: VersionId, n: nat)
    requires n <= |attempts|
    ensures LatestEvaluation(attempts, id, n).Some? ==> LatestEvaluation(attempts, id, n).value < n
  {
    if n > 0 { LatestBelow(attempts, id, n - 1); }
  }

  /** Another build has evaluated the version since, and that evaluation stands. */
  ghost predicate Superseded(s: State, b: Build, id: VersionId)
    requires b in s.evidence
  {
    exists j :: s.evidence[b] < j < |s.attempts| && s.attempts[j].build != b
      && Standing(s.attempts, j) && id in s.attempts[j].candidates
  }

  /** The evaluation of a build authorizes its candidate exactly until another build has
      evaluated that candidate. */
  lemma AuthorizesExactly(s: State, b: Build, id: VersionId)
    requires Recorded(s) && b in s.evidence && id in s.drafts[b]
    ensures Authorizes(s, b, id) <==> !Superseded(s, b, id)
  {
    assert EvidenceOk(s, b);
    LatestIs(s.attempts, id, |s.attempts|, s.evidence[b]);
  }

  // ---- What was advanced was written down before ----

  lemma CloningOnlyAppends(s: State)
    ensures |s.versions| <= |CloneStep(s).versions| <= |s.versions| + 1 && CloneStep(s).pointers == s.pointers
    ensures forall id :: 0 <= id < |s.versions| ==> CloneStep(s).versions[id] == s.versions[id]
    ensures forall id :: |s.versions| <= id < |CloneStep(s).versions| ==>
              CloneStep(s).versions[id].lifecycle.Draft? && s.run.Cloning? && CloneStep(s).versions[id].maker == Some(s.run.build)
  {
    CloneStepLeaves(s);
    assert forall id :: 0 <= id < |s.versions| ==> CloneStep(s).versions[..|s.versions|][id] == CloneStep(s).versions[id];
  }

  /** What a step of `_publish` may change: the candidate it stands at. */
  ghost predicate StandsAt(s: State, id: VersionId) {
    && s.run.Publishing? && s.run.build in s.drafts && s.run.k < |s.drafts[s.run.build]|
    && id == s.drafts[s.run.build][s.run.k]
  }

  lemma PublishVersions(s: State)
    requires s.run.Publishing? && s.run.build in s.drafts && s.run.k < |s.drafts[s.run.build]|
    ensures var t, id := PublishStep(s), s.drafts[s.run.build][s.run.k];
      t.versions == s.versions
      || (id < |s.versions| && Unsealed(s.versions[id].lifecycle) && t.versions == Call(s, s.run.build, id).versions)
  {
  }

  lemma PublishingOnlyAdvances(s: State, id: VersionId)
    requires id < |s.versions|
    ensures |PublishStep(s).versions| == |s.versions|
    ensures PublishStep(s).versions[id] == s.versions[id] || (StandsAt(s, id) && Unsealed(s.versions[id].lifecycle))
  {
    if s.run.Publishing? && s.run.build in s.drafts && s.run.k < |s.drafts[s.run.build]| {
      PublishVersions(s);
      var next := s.drafts[s.run.build][s.run.k];
      if next < |s.versions| { CallLeaves(s, s.run.build, next); }
    }
  }

  /** The build has written its drafts with this version among them, and has the evidence of a
      passed evaluation. */
  ghost predicate ListedBy(s: State, b: Build, id: VersionId) {
    b in s.drafts && id in s.drafts[b] && b in s.evidence
  }

  /** The lifecycle a version was stored with. */
  function StoredAs(start: State, id: VersionId): Lifecycle {
    if id < |start.versions| then start.versions[id].lifecycle else Draft
  }

  ghost predicate AdvancedAreListed(start: State, s: State) {
    |start.versions| <= |s.versions| &&
    forall id :: 0 <= id < |s.versions| && s.versions[id].lifecycle != StoredAs(start, id) ==> exists b :: ListedBy(s, b, id)
  }

  lemma StepListed(fams: seq<Family>, s: State, a: Action, b: Build, id: VersionId)
    requires ListedBy(s, b, id)
    ensures ListedBy(Apply(fams, s, a), b, id)
  {
    if a == CloneNext { CloneRecords(s); }
    if a == PublishNext { PublishRecords(s); }
  }

  lemma StepAdvances(fams: seq<Family>, s: State, a: Action, id: VersionId)
    requires Recorded(s)
    ensures |s.versions| <= |Apply(fams, s, a).versions|
    ensures id < |Apply(fams, s, a).versions| ==>
              || Apply(fams, s, a).versions[id].lifecycle == StoredAs(s, id)
              || (s.run.Publishing? && ListedBy(s, s.run.build, id))
  {
    if a == CloneNext {
      CloningOnlyAppends(s);
    } else if a == PublishNext && id < |s.versions| {
      PublishingOnlyAdvances(s, id);
    }
  }

  lemma StepAllListed(fams: seq<Family>, start: State, s: State, a: Action)
    requires Recorded(s) && AdvancedAreListed(start, s)
    ensures AdvancedAreListed(start, Apply(fams, s, a))
  {
    var t := Apply(fams, s, a);
    StepAdvances(fams, s, a, 0);
    forall id | 0 <= id < |t.versions| && t.versions[id].lifecycle != StoredAs(start, id) ensures exists b :: ListedBy(t, b, id) {
      StepAdvances(fams, s, a, id);
      if t.versions[id].lifecycle == StoredAs(s, id) {
        var b :| ListedBy(s, b, id);
        StepListed(fams, s, a, b, id);
      } else {
        StepListed(fams, s, a, s.run.build, id);
      }
    }
  }

  /** Over every schedule: whatever version is no longer in the lifecycle it was stored with, a
      build had written it down among its drafts and had passed their evaluation. */
  lemma {:induction false} AdvancedOnlyWhenWritten(fams: seq<Family>, s: State, schedule: seq<Action>)
    requires Initial(s)
    ensures AdvancedAreListed(s, RunFrom(fams, s, schedule))
  {
    if schedule != [] {
      var before := schedule[..|schedule| - 1];
      AdvancedOnlyWhenWritten(fams, s, before);
      RunRecords(fams, s, before);
      StepAllListed(fams, s, RunFrom(fams, s, before), schedule[|schedule| - 1]);
    }
  }

  /** What was written as a draft state always loads again. */
  lemma DraftStateLoads(fams: seq<Family>, s: State, schedule: seq<Action>, b: Build)
    requires Initial(s) && Distinct(fams)
    requires b in RunFrom(fams, s, schedule).drafts
    ensures DraftsHold(RunFrom(fams, s, schedule), b)
  {
    RunKeeps(fams, s, schedule);
    WrittenDraftsHold(RunFrom(fams, s, schedule), b);
  }

  lemma WrittenDraftsHold(t: State, b: Build)
    requires Inv(t) && b in t.drafts
    ensures DraftsHold(t, b)
  {
    assert CandidatesOk(t, b, t.drafts[b]);
    forall k | 0 <= k < FAMILY_COUNT ensures DraftHolds(t, t.sources[b][k], t.drafts[b][k]) {
      assert CandidateOk(t, t.sources[b][k], t.drafts[b][k]) && FamilyOk(t, t.sources[b][k]);
      DescendsUp(t.versions, t.drafts[b][k], t.sources[b][k].source);
    }
  }
}
