/** One network trial against the local service: poll the job, recover an expired login at
    most three times, and stop the job safely whatever happens.  The service is any function
    from the request history to replies; time is in milliseconds and never runs backwards. */
module NetworkTrial {
  import opened Sequences

  type JobId = nat
  type Time = nat

  const MAX_AUTOMATIC_RESUMES := 3
  const COOLDOWN := 30_000
  const POLL_PAUSE := 400
  const STOP_PAUSE := 200
  const STOP_LIMIT := 30_000

  datatype Status = Failed | Cancelled | Succeeded | Paused | WaitingExternal | Running
  datatype Diagnostic = BrowserClosed | DailyLoginRequired | OtherDiagnostic
  datatype Waiting = AccessWindowExpired | OtherWaiting

  datatype Request = Start | Job(id: JobId) | Progress(id: JobId) | Cancel(id: JobId, version: nat)

  /** The fields of a reply the trial looks at; a missing or malformed field is `None`. */
  datatype Reply = Reply(
    job: Option<JobId>,
    status: Status,
    diagnostic: Diagnostic,
    waiting: Waiting,
    cancelEnabled: bool,
    version: Option<nat>,
    incomplete: bool,
    total: Option<int>,
    fetched: Option<int>,
    committed: Option<int>)

  /** A request that was sent, when, and what came back; `None` is a failed call. */
  datatype Call = Call(request: Request, at: Time, reply: Option<Reply>)

  /** How the service answers and how long it takes, given all calls before. */
  datatype Service = Service(answer: (seq<Call>, Request) -> Option<Reply>, latency: (seq<Call>, Request) -> nat)

  datatype StopStatus = Stopped(status: Status) | CancelUnavailable | CancelTimeout | CancelRequestFailed

  datatype Reason = ApiFailed | JobFailed | PausedOutside | OtherJob | Incomplete | TimedOut

  datatype Outcome =
    | NotStarted                                   // the first call failed, there is no job
    | TrialFailed(reason: Reason, stop: StopStatus)
    | NotStopped(stop: StopStatus)
    | Trial(waybills: int, retries: nat, committed: int)

  predicate Terminal(status: Status) { status.Cancelled? || status.Failed? || status.Succeeded? }

  /** `_safe_automatic_recovery_allowed`, the count apart. */
  predicate LoginExpired(r: Reply) {
    && (r.status.Paused? || r.status.WaitingExternal?)
    && (r.diagnostic.BrowserClosed? || r.diagnostic.DailyLoginRequired?)
    && r.waiting.AccessWindowExpired?
  }

  predicate Complete(r: Reply) { r.total.Some? && r.total.value > 0 && r.fetched.Some? && r.fetched.value >= r.total.value }

  // ---- What the history of calls shows ----

  /** The times at which a business read was started or attached. */
  function StartTimes(calls: seq<Call>): seq<Time> {
    if calls == [] then []
    else
      StartTimes(calls[..|calls| - 1]) + if calls[|calls| - 1].request.Start? then [calls[|calls| - 1].at] else []
  }

  /** Recoveries are the starts after the first: few, and far apart. */
  predicate Spaced(starts: seq<Time>) {
    |starts| <= 1 + MAX_AUTOMATIC_RESUMES && forall i :: 1 <= i < |starts| - 1 ==> starts[i] + COOLDOWN <= starts[i + 1]
  }

  predicate BoundTo(call: Call, id: JobId) { call.request.Start? ==> call.reply.Some? && call.reply.value.job == Some(id) }

  predicate AllBound(calls: seq<Call>, id: JobId) { forall i :: 0 <= i < |calls| ==> BoundTo(calls[i], id) }

  /** Every call after the first start concerns the one job. */
  predicate About(call: Call, id: JobId) {
    match call.request
    case Start => true
    case Job(j) => j == id
    case Progress(j) => j == id
    case Cancel(j, _) => j == id
  }

  predicate AllAbout(calls: seq<Call>, id: JobId) { forall i :: 0 <= i < |calls| ==> About(calls[i], id) }

  predicate NoStart(calls: seq<Call>) { forall i :: 0 <= i < |calls| ==> !calls[i].request.Start? }

  predicate NoCancel(calls: seq<Call>) { forall i :: 0 <= i < |calls| ==> !calls[i].request.Cancel? }

  /** A call of the stop that began with `read`: it reads the status, or cancels directly after
      `read`, if that offered it, bound to the version just read. */
  predicate StopCall(call: Call, id: JobId, read: Call, next: bool) {
    match call.request
    case Job(j) => j == id
    case Cancel(j, version) =>
      && j == id && next && read.reply.Some?
      && read.reply.value.cancelEnabled && !Terminal(read.reply.value.status) && read.reply.value.version == Some(version)
    case _ => false
  }

  /** No cancel is sent before `k`; from there on there is one stop, which reads the status first. */
  predicate StopsAt(calls: seq<Call>, id: JobId, k: nat) {
    && k < |calls| && NoCancel(calls[..k]) && calls[k].request == Job(id)
    && forall i :: k <= i < |calls| ==> StopCall(calls[i], id, calls[k], i == k + 1)
  }

  lemma {:induction false} StartsStay(calls: seq<Call>, more: seq<Call>)
    requires NoStart(more)
    ensures StartTimes(calls + more) == StartTimes(calls)
  {
    if more == [] {
      assert calls + more == calls;
    } else {
      assert (calls + more)[..|calls + more| - 1] == calls + more[..|more| - 1];
      StartsStay(calls, more[..|more| - 1]);
    }
  }

  lemma OneCallMore(calls: seq<Call>, call: Call)
    ensures StartTimes(calls + [call]) == StartTimes(calls) + if call.request.Start? then [call.at] else []
  {
    assert (calls + [call])[..|calls|] == calls;
  }

  // ---- Calls ----

  function Send(service: Service, calls: seq<Call>, now: Time, request: Request): (r: (seq<Call>, Time, Option<Reply>))
    ensures r.0 == calls + [Call(request, now, r.2)] && r.1 >= now
  {
    var reply := service.answer(calls, request);
    (calls + [Call(request, now, reply)], now + service.latency(calls, request), reply)
  }

  /** `_attempt_safe_stop`: a cancel is sent at most once, only if the job offers it, and bound
      to the version just read; a terminal status is reported only as last replied. */
  method AttemptSafeStop(service: Service, id: JobId, deadline: Time, calls: seq<Call>, start: Time)
      returns (stop: StopStatus, after: seq<Call>, now: Time)
    ensures calls <= after && start <= now
    ensures NoCancel(calls) ==> StopsAt(after, id, |calls|)
    ensures |after| > |calls| && forall i :: |calls| <= i < |after| ==> StopCall(after[i], id, after[|calls|], i == |calls| + 1)
    ensures stop.CancelUnavailable? ==>
              |after| == |calls| + 1 && after[|calls|].reply.Some?
              && !Terminal(after[|calls|].reply.value.status) && !after[|calls|].reply.value.cancelEnabled
    ensures stop.Stopped? ==> Terminal(stop.status) && after[|after| - 1].reply.Some?
                              && after[|after| - 1].reply.value.status == stop.status
    ensures stop.CancelRequestFailed? ==> after[|after| - 1].reply.None? || after[|after| - 1].reply.value.version.None?
  {
    var reply: Option<Reply>;
    var sent := Send(service, calls, start, Job(id));
    after, now, reply := sent.0, sent.1, sent.2;
    if reply.None? { return CancelRequestFailed, after, now; }
    if Terminal(reply.value.status) { return Stopped(reply.value.status), after, now; }
    if !reply.value.cancelEnabled { return CancelUnavailable, after, now; }
    if reply.value.version.None? { return CancelRequestFailed, after, now; }
    sent := Send(service, after, now, Cancel(id, reply.value.version.value));
    after, now, reply := sent.0, sent.1, sent.2;
    if reply.None? { return CancelRequestFailed, after, now; }
    var stopDeadline := if deadline < now + STOP_LIMIT then deadline else now + STOP_LIMIT;
    ghost var cancelled := after;
    while now < stopDeadline
      invariant cancelled <= after && |cancelled| == |calls| + 2 && start <= now
      invariant forall i :: |calls| <= i < |after| ==> StopCall(after[i], id, after[|calls|], i == |calls| + 1)
      decreases stopDeadline - now
    {
      sent := Send(service, after, now, Job(id));
      after, now, reply := sent.0, sent.1, sent.2;
      if reply.None? { return CancelRequestFailed, after, now; }
      if Terminal(reply.value.status) { return Stopped(reply.value.status), after, now; }
      now := now + STOP_PAUSE;
    }
    return CancelTimeout, after, now;
  }

  // ---- Polling ----

  datatype Polled = Finished(final: Reply) | Broken(reason: Reason)

  /** What the last reply shows when polling ends the way it does. */
  predicate EndsWith(polled: Polled, request: Request, reply: Reply, id: JobId, recoveries: int) {
    match polled
    case Finished(final) => request.Progress? && reply == final && Complete(final) && !final.incomplete
    case Broken(OtherJob) => request.Start? && reply.job != Some(id)
    case Broken(Incomplete) => request.Progress? && reply.incomplete
    case Broken(JobFailed) => request.Job? && reply.status.Failed?
    case Broken(PausedOutside) =>
      request.Job? && (reply.status.Paused? || reply.status.WaitingExternal?)
      && (!LoginExpired(reply) || recoveries == MAX_AUTOMATIC_RESUMES)
    case Broken(ApiFailed) => false
    case Broken(TimedOut) => false
  }

  /** Polling ends at the deadline, or its last call failed or brought a reply that says so. */
  predicate Explains(polled: Polled, calls: seq<Call>, id: JobId) {
    || polled == Broken(TimedOut)
    || (&& calls != []
        && match calls[|calls| - 1].reply
           case None => polled == Broken(ApiFailed)
           case Some(reply) => EndsWith(polled, calls[|calls| - 1].request, reply, id, |StartTimes(calls)| - 1))
  }

  /** Once a recovery attaches to another job, or fails, no other is tried. */
  predicate BoundBefore(calls: seq<Call>, id: JobId) {
    forall i, j :: 0 <= i < j < |calls| && calls[j].request.Start? ==> BoundTo(calls[i], id)
  }

  /** Status is read only before the deadline. */
  predicate PolledInTime(calls: seq<Call>, deadline: Time) {
    forall i :: 0 <= i < |calls| && calls[i].request.Job? ==> calls[i].at < deadline
  }

  /** What polling keeps even when it breaks off. */
  ghost predicate Kept(before: seq<Call>, calls: seq<Call>, id: JobId, deadline: Time) {
    && before <= calls && AllAbout(calls[|before|..], id) && PolledInTime(calls[|before|..], deadline)
    && NoCancel(calls[|before|..]) && Spaced(StartTimes(calls)) && BoundBefore(calls, id)
  }

  /** What holds between two polls. */
  ghost predicate Polling(before: seq<Call>, calls: seq<Call>, id: JobId, deadline: Time, recoveries: nat, last: Option<Time>) {
    && before <= calls && AllAbout(calls[|before|..], id) && AllBound(calls, id) && PolledInTime(calls[|before|..], deadline)
    && NoCancel(calls[|before|..])
    && |StartTimes(calls)| == 1 + recoveries && Spaced(StartTimes(calls))
    && (recoveries > 0 ==> last == Some(StartTimes(calls)[recoveries]))
    && (recoveries == 0 ==> last.None?)
  }

  lemma QuietCall(before: seq<Call>, calls: seq<Call>, id: JobId, deadline: Time, recoveries: nat, last: Option<Time>, call: Call)
    requires Polling(before, calls, id, deadline, recoveries, last) && !call.request.Start? && About(call, id)
    requires !call.request.Cancel?
    requires call.request.Job? ==> call.at < deadline
    ensures Polling(before, calls + [call], id, deadline, recoveries, last)
  {
    OneCallMore(calls, call);
    assert (calls + [call])[|before|..] == calls[|before|..] + [call];
  }

  /** A recovery is sent: few enough and late enough, whatever it attaches to. */
  lemma RecoveryCall(before: seq<Call>, calls: seq<Call>, id: JobId, deadline: Time, recoveries: nat, last: Option<Time>,
                     call: Call)
    requires Polling(before, calls, id, deadline, recoveries, last) && call.request.Start?
    requires recoveries < MAX_AUTOMATIC_RESUMES && (last.Some? ==> last.value + COOLDOWN <= call.at)
    ensures Spaced(StartTimes(calls + [call])) && |StartTimes(calls + [call])| == 2 + recoveries
    ensures BoundBefore(calls + [call], id) && AllAbout((calls + [call])[|before|..], id)
    ensures PolledInTime((calls + [call])[|before|..], deadline) && NoCancel((calls + [call])[|before|..])
    ensures BoundTo(call, id) ==> Polling(before, calls + [call], id, deadline, recoveries + 1, Some(call.at))
  {
    OneCallMore(calls, call);
    assert (calls + [call])[|before|..] == calls[|before|..] + [call];
  }

  /** The official login recovery: attach to the job again, if the last try is long enough ago. */
  method RecoverLogin(service: Service, id: JobId, deadline: Time, ghost before: seq<Call>, calls: seq<Call>, now: Time,
                      recoveries: nat, last: Option<Time>)
      returns (trouble: Option<Reason>, after: seq<Call>, later: Time, count: nat, latest: Option<Time>)
    requires Polling(before, calls, id, deadline, recoveries, last) && recoveries < MAX_AUTOMATIC_RESUMES
    ensures calls <= after && now <= later && count <= MAX_AUTOMATIC_RESUMES
    ensures trouble.None? ==> Polling(before, after, id, deadline, count, latest)
    ensures Kept(before, after, id, deadline)
    ensures trouble.Some? ==> !trouble.value.TimedOut? && Explains(Broken(trouble.value), after, id)
  {
    trouble, after, later, count, latest := None, calls, now, recoveries, last;
    if last.None? || now - last.value >= COOLDOWN {
      var sent := Send(service, calls, now, Start);
      RecoveryCall(before, calls, id, deadline, recoveries, last, Call(Start, now, sent.2));
      after, later := sent.0, sent.1;
      if sent.2.None? {
        trouble := Some(ApiFailed);
      } else if sent.2.value.job != Some(id) {
        trouble := Some(OtherJob);
      } else {
        count, latest := recoveries + 1, Some(now);
      }
    }
  }

  /** The job's status: it has failed, is paused for a reason to recover from or not, or is at work. */
  method PollStatus(service: Service, id: JobId, deadline: Time, ghost before: seq<Call>, calls: seq<Call>, now: Time,
                    recoveries: nat, last: Option<Time>)
      returns (polled: Option<Polled>, paused: bool, after: seq<Call>, later: Time, count: nat, latest: Option<Time>)
    requires Polling(before, calls, id, deadline, recoveries, last) && now < deadline && recoveries <= MAX_AUTOMATIC_RESUMES
    ensures calls <= after && now <= later && count <= MAX_AUTOMATIC_RESUMES
    ensures polled.None? ==> Polling(before, after, id, deadline, count, latest)
    ensures polled.Some? ==> polled.value.Broken? && !polled.value.reason.TimedOut? && Explains(polled.value, after, id)
    ensures Kept(before, after, id, deadline)
  {
    var sent := Send(service, calls, now, Job(id));
    QuietCall(before, calls, id, deadline, recoveries, last, Call(Job(id), now, sent.2));
    polled, paused, after, later, count, latest := None, false, sent.0, sent.1, recoveries, last;
    if sent.2.None? {
      polled := Some(Broken(ApiFailed));
    } else if sent.2.value.status.Failed? {
      polled := Some(Broken(JobFailed));
    } else if sent.2.value.status.Paused? || sent.2.value.status.WaitingExternal? {
      paused := true;
      if !(recoveries < MAX_AUTOMATIC_RESUMES && LoginExpired(sent.2.value)) {
        polled := Some(Broken(PausedOutside));
      } else {
        var trouble: Option<Reason>;
        trouble, after, later, count, latest := RecoverLogin(service, id, deadline, before, after, later, recoveries, last);
        polled := if trouble.Some? then Some(Broken(trouble.value)) else None;
      }
    }
  }

  /** The progress of the read: it fails, is incomplete, is complete, or goes on. */
  method ReadProgress(service: Service, id: JobId, deadline: Time, ghost before: seq<Call>, calls: seq<Call>, now: Time,
                      ghost recoveries: nat, ghost last: Option<Time>)
      returns (polled: Option<Polled>, after: seq<Call>, later: Time)
    requires Polling(before, calls, id, deadline, recoveries, last)
    ensures calls <= after && now <= later && Polling(before, after, id, deadline, recoveries, last)
    ensures polled.Some? ==> polled.value != Broken(TimedOut) && Explains(polled.value, after, id)
  {
    var sent := Send(service, calls, now, Progress(id));
    QuietCall(before, calls, id, deadline, recoveries, last, Call(Progress(id), now, sent.2));
    after, later := sent.0, sent.1;
    polled :=
      if sent.2.None? then Some(Broken(ApiFailed))
      else if sent.2.value.incomplete then Some(Broken(Incomplete))
      else if Complete(sent.2.value) then Some(Finished(sent.2.value))
      else None;
  }

  /** The `try` block of `_run_trial`. */
  method Poll(service: Service, id: JobId, deadline: Time, calls: seq<Call>, start: Time)
      returns (polled: Polled, after: seq<Call>, now: Time, recoveries: nat)
    requires |StartTimes(calls)| == 1 && AllBound(calls, id)
    ensures Kept(calls, after, id, deadline) && start <= now
    ensures Explains(polled, after, id) && (polled == Broken(TimedOut) ==> now >= deadline)
    ensures polled.Finished? ==> AllBound(after, id) && |StartTimes(after)| == 1 + recoveries
    ensures recoveries <= MAX_AUTOMATIC_RESUMES
  {
    after, now, recoveries := calls, start, 0;
    var last: Option<Time> := None;
    while now < deadline
      invariant Polling(calls, after, id, deadline, recoveries, last) && start <= now && recoveries <= MAX_AUTOMATIC_RESUMES
      decreases deadline - now
    {
      var result: Option<Polled>, paused: bool;
      result, paused, after, now, recoveries, last := PollStatus(service, id, deadline, calls, after, now, recoveries, last);
      if result.Some? { return result.value, after, now, recoveries; }
      if paused {
        now := now + POLL_PAUSE;
        continue;
      }
      result, after, now := ReadProgress(service, id, deadline, calls, after, now, recoveries, last);
      if result.Some? { return result.value, after, now, recoveries; }
      now := now + POLL_PAUSE;
    }
    return Broken(TimedOut), after, now, recoveries;
  }

  // ---- The trial ----

  /** The outcome tells how polling ended, at the calls before `k`, and how the stop did. */
  predicate Accounts(outcome: Outcome, calls: seq<Call>, id: JobId, k: nat)
    requires 0 < k < |calls|
  {
    match outcome
    case NotStarted => false
    case TrialFailed(reason, stop) => Explains(Broken(reason), calls[..k], id) && StoppedAsReplied(stop, calls[|calls| - 1])
    case NotStopped(stop) => PolledWhole(calls, k) && !stop.Stopped?
    case Trial(waybills, retries, _) =>
      && PolledWhole(calls, k) && calls[k - 1].reply.value.total == Some(waybills) && AllBound(calls, id)
      && retries == |StartTimes(calls)| - 1
      && calls[|calls| - 1].reply.Some? && Terminal(calls[|calls| - 1].reply.value.status)
  }

  /** The last call before `k` showed a complete read. */
  predicate PolledWhole(calls: seq<Call>, k: nat)
    requires 0 < k <= |calls|
  {
    && calls[k - 1].request.Progress? && calls[k - 1].reply.Some?
    && Complete(calls[k - 1].reply.value) && !calls[k - 1].reply.value.incomplete
  }

  predicate StoppedAsReplied(stop: StopStatus, call: Call) {
    stop.Stopped? ==> Terminal(stop.status) && call.reply.Some? && call.reply.value.status == stop.status
  }

  /** `_run_trial`: at most three recoveries, thirty seconds apart and bound to the job; no cancel
      while polling, then one safe stop for every job that was started, however polling ended; a
      trial only of a complete read whose job was seen in a terminal status. */
  method RunTrial(service: Service, start: Time, timeout: nat) returns (outcome: Outcome, calls: seq<Call>)
    ensures calls != [] && calls[0].request.Start?
    ensures Spaced(StartTimes(calls))
    ensures outcome.NotStarted? <==> calls[0].reply.None? || calls[0].reply.value.job.None?
    ensures outcome.NotStarted? ==> |calls| == 1
    ensures !outcome.NotStarted? ==>
              var id := calls[0].reply.value.job.value;
              && AllAbout(calls, id) && BoundBefore(calls, id)
              && exists k :: 0 < k < |calls| && StopsAt(calls, id, k) && Accounts(outcome, calls, id, k)
    ensures forall i, j :: 0 <= i < j < |calls| && calls[i].request.Cancel? ==> !calls[j].request.Cancel?
  {
    var sent := Send(service, [], start, Start);
    calls := sent.0;
    var now, reply := sent.1, sent.2;
    OneCallMore([], calls[0]);
    if reply.None? || reply.value.job.None? { return NotStarted, calls; }
    var id := reply.value.job.value;
    var deadline := now + timeout;
    ghost var first := calls;
    var polled, after, later, recoveries := Poll(service, id, deadline, calls, now);
    ghost var polls := after;
    assert polls[0] == first[0];
    NoCancelYet(first, polls);
    var stop, all, _ := AttemptSafeStop(service, id, deadline, after, later);
    calls := all;
    StopIsQuiet(first, polls, calls, id);
    OneCancel(calls, id, |polls|);
    assert calls[..|polls|] == polls;
    match polled {
      case Broken(reason) => outcome := TrialFailed(reason, stop);
      case Finished(final) =>
        assert calls[|polls| - 1] == polls[|polls| - 1];
        outcome := if !stop.Stopped? then NotStopped(stop)
                   else Trial(final.total.value, recoveries, if final.committed.Some? then final.committed.value else 0);
    }
    assert Accounts(outcome, calls, id, |polls|);
  }

  lemma NoCancelYet(first: seq<Call>, polls: seq<Call>)
    requires |first| == 1 && first[0].request.Start? && first <= polls && NoCancel(polls[1..])
    ensures NoCancel(polls)
  {
    forall i | 0 <= i < |polls| ensures !polls[i].request.Cancel? {
      if i > 0 { assert polls[i] == polls[1..][i - 1]; }
    }
  }

  lemma OneCancel(calls: seq<Call>, id: JobId, k: nat)
    requires StopsAt(calls, id, k)
    ensures forall i :: 0 <= i < |calls| && calls[i].request.Cancel? ==> i == k + 1
  {
    assert forall i :: 0 <= i < k ==> calls[..k][i] == calls[i];
  }

  lemma StopIsQuiet(first: seq<Call>, polls: seq<Call>, calls: seq<Call>, id: JobId)
    requires |first| == 1 && first[0].request.Start? && first <= polls <= calls
    requires AllAbout(polls[1..], id) && BoundBefore(polls, id)
    requires forall i :: |polls| <= i < |calls| ==> StopCall(calls[i], id, calls[|polls|], i == |polls| + 1)
    ensures AllAbout(calls, id) && BoundBefore(calls, id) && StartTimes(calls) == StartTimes(polls)
    ensures AllBound(polls, id) ==> AllBound(calls, id)
  {
    forall i | 0 <= i < |calls| ensures About(calls[i], id) && (i >= |polls| ==> !calls[i].request.Start?) {
      if i >= |polls| {
        assert StopCall(calls[i], id, calls[|polls|], i == |polls| + 1);
      } else if i > 0 {
        assert calls[i] == polls[1..][i - 1];
      }
    }
    assert calls == polls + calls[|polls|..];
    StartsStay(polls, calls[|polls|..]);
  }
}
