/** The browser worker's command loop: a reader thread and an engine thread that share
    a FIFO queue, the "active request" cell, one cancel event per command and one output
    stream.  A run is an arbitrary schedule of atomic steps of the two threads. */
module BrowserWorker {
  import opened Sequences

  /** One line of standard input, as `parse_command` classifies it. */
  datatype Line =
    | Batch(id: string)                  // the two commands that can be aborted
    | Close(id: string)
    | Other(id: string)                  // every other command
    | Abort(id: string, target: string)
    | Malformed                          // parsing raises ProtocolError
    | Unreadable                         // reading or parsing raises anything else
  {
    predicate IsCommand() { Batch? || Close? || Other? }
    predicate IsBad() { Malformed? || Unreadable? }
  }

  datatype Item = Command(line: nat) | Stop

  /** Frames name the input line of their request. */
  datatype Frame =
    | Response(line: nat, ok: bool)
    | Progress(line: nat)
    | AbortAck(line: nat, accepted: bool)

  /** Where the reader thread stands. */
  datatype Reader =
    | Reading
    | Acking(line: nat, accepted: bool)  // decided under the lock, frame not yet written
    | Failing                            // reader_failed is set, first stop not yet queued
    | Draining                           // in the finally clause
    | Finished

  /** Where the engine thread stands. */
  datatype Engine =
    | Waiting
    | Arming(line: nat)
    | Executing(line: nat)
    | Assembling(line: nat)              // a batch behind its last look at the event
    | Disarming(line: nat, ok: bool)
    | Unwinding(line: nat)               // an exception escaped the handler
    | Replying(line: nat, ok: bool)
    | Leaving(byStop: bool)
    | Exited(byStop: bool, code: int)
    | Dead

  /** What one abort saw while it held the lock, and where the engine stood; kept as history only. */
  datatype Decision = Decision(line: nat, active: Option<nat>, accepted: bool, written: nat, engine: Engine)

  datatype State = State(
    next: nat,
    reader: Reader,
    readerFailed: bool,
    queue: seq<Item>,
    active: Option<nat>,
    cancelled: set<nat>,
    engine: Engine,
    output: seq<Frame>,
    decisions: seq<Decision>)

  datatype Action =
    | ReaderStep
    | EngineStep
    | EmitProgress
    | LastLook                           // the last `ensure_not_aborted` of a batch
    | ExecutionEnds(ok: bool)
    | ExceptionEscapes

  const INITIAL := State(0, Reading, false, [], None, {}, Waiting, [], [])

  /** The comparison made under the lock: the active request's id is the abort's target. */
  predicate Accepts(input: seq<Line>, active: Option<nat>, target: string) {
    active.Some? && active.value < |input| && input[active.value].Batch? && input[active.value].id == target
  }

  function ReadLine(input: seq<Line>, s: State): State
    requires s.reader.Reading?
  {
    if s.next >= |input| || input[s.next].Unreadable? then
      s.(reader := Draining)
    else if input[s.next].Malformed? then
      s.(reader := Failing, readerFailed := true)
    else if input[s.next].Abort? then
      var accepted := Accepts(input, s.active, input[s.next].target);
      s.(next := s.next + 1,
         reader := Acking(s.next, accepted),
         cancelled := if accepted then s.cancelled + {s.active.value} else s.cancelled,
         decisions := s.decisions + [Decision(s.next, s.active, accepted, |s.output|, s.engine)])
    else
      s.(next := s.next + 1, queue := s.queue + [Command(s.next)])
  }

  function ReaderNext(input: seq<Line>, s: State): State {
    match s.reader
    case Reading => ReadLine(input, s)
    case Acking(line, accepted) => s.(reader := Reading, output := s.output + [AbortAck(line, accepted)])
    case Failing => s.(reader := Draining, queue := s.queue + [Stop])
    case Draining => s.(reader := Finished, queue := s.queue + [Stop])
    case Finished => s
  }

  function Dequeue(input: seq<Line>, s: State): State
    requires s.engine.Waiting? && s.queue != []
  {
    var rest := s.(queue := s.queue[1..]);
    match s.queue[0]
    case Stop => rest.(engine := Leaving(true))
    case Command(line) =>
      rest.(engine := if line < |input| && input[line].Batch? then Arming(line) else Executing(line))
  }

  function EngineNext(input: seq<Line>, s: State): State {
    match s.engine
    case Waiting => if s.queue == [] then s else Dequeue(input, s)
    case Arming(line) => s.(engine := Executing(line), active := Some(line))
    case Executing(_) => s
    case Assembling(_) => s
    case Disarming(line, ok) => s.(engine := Replying(line, ok), active := None)
    case Unwinding(_) => s.(engine := Dead, active := None)
    case Replying(line, ok) =>
      s.(engine := if line < |input| && input[line].Close? then Leaving(false) else Waiting,
         output := s.output + [Response(line, ok)])
    case Leaving(byStop) => s.(engine := Exited(byStop, if s.readerFailed then 2 else 0))
    case Exited(_, _) => s
    case Dead => s
  }

  /** The command's code comes to its end.  A batch ends well only behind its last look, and a
      set event ends it there; whatever raises earlier ends it badly. */
  function EndExecution(input: seq<Line>, e: Engine, ok: bool): Engine {
    match e
    case Executing(line) => if !IsBatch(input, line) then Replying(line, ok) else if ok then e else Disarming(line, false)
    case Assembling(line) => Disarming(line, ok)
    case _ => e
  }

  /** One atomic step; an action that is not enabled leaves the state alone. */
  function Apply(input: seq<Line>, s: State, a: Action): State {
    match a
    case ReaderStep => ReaderNext(input, s)
    case EngineStep => EngineNext(input, s)
    case EmitProgress =>
      if s.engine.Executing? && IsBatch(input, s.engine.line)
      then s.(output := s.output + [Progress(s.engine.line)]) else s
    case LastLook =>
      if s.engine.Executing? && IsBatch(input, s.engine.line)
      then s.(engine := if s.engine.line in s.cancelled then Disarming(s.engine.line, false) else Assembling(s.engine.line))
      else s
    case ExecutionEnds(ok) => s.(engine := EndExecution(input, s.engine, ok))
    case ExceptionEscapes =>
      if s.engine.Executing? || s.engine.Assembling? then s.(engine := Unwinding(s.engine.line)) else s
  }

  function Run(input: seq<Line>, schedule: seq<Action>): State {
    if schedule == [] then INITIAL
    else Apply(input, Run(input, schedule[..|schedule| - 1]), schedule[|schedule| - 1])
  }

  // ---- What the input asks for ----

  /** The lines of the commands among the first `n` lines, in order. */
  function Commands(input: seq<Line>, n: nat): seq<nat>
    requires n <= |input|
  {
    if n == 0 then []
    else Commands(input, n - 1) + (if input[n - 1].IsCommand() then [n - 1] else [])
  }

  /** How many lines precede the first one that stops the reader. */
  function ReadableFrom(input: seq<Line>, k: nat): (end: nat)
    requires k <= |input|
    ensures k <= end <= |input|
    ensures end == |input| || input[end].IsBad()
    ensures forall i :: k <= i < end ==> !input[i].IsBad()
    decreases |input| - k
  {
    if k == |input| || input[k].IsBad() then k else ReadableFrom(input, k + 1)
  }

  function Requests(input: seq<Line>): seq<nat> {
    Commands(input, ReadableFrom(input, 0))
  }

  /** The commands up to and including the first Close. */
  function UpToClose(input: seq<Line>, lines: seq<nat>): seq<nat> {
    if lines == [] then []
    else if lines[0] < |input| && input[lines[0]].Close? then [lines[0]]
    else [lines[0]] + UpToClose(input, lines[1..])
  }

  // ---- What the output shows ----

  function Responses(output: seq<Frame>): seq<nat> {
    if output == [] then []
    else
      var last := output[|output| - 1];
      Responses(output[..|output| - 1]) + (if last.Response? then [last.line] else [])
  }

  function Acks(output: seq<Frame>): seq<Frame> {
    if output == [] then []
    else
      var last := output[|output| - 1];
      Acks(output[..|output| - 1]) + (if last.AbortAck? then [last] else [])
  }

  function Queued(queue: seq<Item>): seq<nat> {
    if queue == [] then []
    else (if queue[0].Command? then [queue[0].line] else []) + Queued(queue[1..])
  }

  function InFlight(e: Engine): seq<nat> {
    match e
    case Arming(line) => [line]
    case Executing(line) => [line]
    case Assembling(line) => [line]
    case Disarming(line, _) => [line]
    case Unwinding(line) => [line]
    case Replying(line, _) => [line]
    case _ => []
  }

  function Decided(d: Decision): Frame { AbortAck(d.line, d.accepted) }

  // ---- The invariant ----

  ghost predicate NoneBad(input: seq<Line>, n: nat) {
    n <= |input| && forall i :: 0 <= i < n ==> !input[i].IsBad()
  }

  ghost predicate AtBadOrEnd(input: seq<Line>, n: nat) {
    n >= |input| || input[n].IsBad()
  }

  predicate IsClose(input: seq<Line>, line: nat) { line < |input| && input[line].Close? }
  predicate IsBatch(input: seq<Line>, line: nat) { line < |input| && input[line].Batch? }

  /** Answered, then in flight, then queued: together the consumed commands, in order. */
  ghost predicate Accounted(input: seq<Line>, s: State) {
    && NoneBad(input, s.next)
    && (if s.engine.Dead? then Responses(s.output) <= Commands(input, s.next)
        else Commands(input, s.next) == Responses(s.output) + (InFlight(s.engine) + Queued(s.queue)))
  }

  ghost predicate OnlyCommands(queue: seq<Item>) {
    forall i :: 0 <= i < |queue| ==> queue[i].Command?
  }

  ghost predicate StopsLast(queue: seq<Item>) {
    forall i, j :: 0 <= i < j < |queue| && queue[i].Stop? ==> queue[j].Stop?
  }

  predicate Stopped(e: Engine) { (e.Leaving? || e.Exited?) && e.byStop }
  predicate Closed(e: Engine) { (e.Leaving? || e.Exited?) && !e.byStop }

  /** Stops enter the queue only after the last line the reader will ever take. */
  ghost predicate ReaderAgrees(input: seq<Line>, s: State) {
    var over := s.reader.Draining? || s.reader.Finished?;
    && StopsLast(s.queue)
    && (!over ==> OnlyCommands(s.queue) && !Stopped(s.engine))
    && (over || s.reader.Failing? ==> AtBadOrEnd(input, s.next))
    && (s.readerFailed <==> (over || s.reader.Failing?) && s.next < |input| && input[s.next].Malformed?)
    && (s.reader.Finished? && !Stopped(s.engine) ==> s.queue != [] && s.queue[|s.queue| - 1].Stop?)
    && (Stopped(s.engine) ==> Queued(s.queue) == [])
  }

  ghost predicate CodeAgrees(s: State) {
    s.engine.Exited? ==>
      && (s.engine.code == 0 || s.engine.code == 2)
      && (s.engine.code == 2 ==> s.readerFailed)
      && (s.engine.byStop && s.readerFailed ==> s.engine.code == 2)
  }

  ghost predicate NoClose(input: seq<Line>, lines: seq<nat>) {
    forall i :: 0 <= i < |lines| ==> !IsClose(input, lines[i])
  }

  ghost predicate CloseEnds(input: seq<Line>, lines: seq<nat>) {
    |lines| > 0 && NoClose(input, lines[..|lines| - 1]) && IsClose(input, lines[|lines| - 1])
  }

  predicate Armed(e: Engine) { e.Executing? || e.Assembling? || e.Disarming? || e.Unwinding? }

  /** The active cell names the batch being executed, and nothing else. */
  ghost predicate EngineAgrees(input: seq<Line>, s: State) {
    && s.active == (if Armed(s.engine) && IsBatch(input, s.engine.line) then Some(s.engine.line) else None)
    && (s.engine.Arming? || s.engine.Assembling? || s.engine.Disarming? ==> IsBatch(input, s.engine.line))
    && (if Closed(s.engine) then CloseEnds(input, Responses(s.output)) else NoClose(input, Responses(s.output)))
  }

  ghost predicate Inv(input: seq<Line>, s: State) {
    Accounted(input, s) && ReaderAgrees(input, s) && CodeAgrees(s) && EngineAgrees(input, s)
  }

  // ---- Small facts about the projections ----

  lemma QueuedAppend(queue: seq<Item>, item: Item)
    ensures Queued(queue + [item]) == Queued(queue) + (if item.Command? then [item.line] else [])
  {
    if queue == [] {
      assert [item][1..] == [];
    } else {
      assert (queue + [item])[1..] == queue[1..] + [item];
      QueuedAppend(queue[1..], item);
    }
  }

  lemma OutputAppend(output: seq<Frame>, f: Frame)
    ensures Responses(output + [f]) == Responses(output) + (if f.Response? then [f.line] else [])
    ensures Acks(output + [f]) == Acks(output) + (if f.AbortAck? then [f] else [])
  {
    assert (output + [f])[..|output|] == output;
  }

  lemma StopFirst(queue: seq<Item>)
    requires queue != [] && StopsLast(queue) && queue[0].Stop?
    ensures Queued(queue) == []
    decreases queue
  {
    if |queue| > 1 {
      StopFirst(queue[1..]);
    }
  }

  lemma {:induction false} CommandsPrefix(input: seq<Line>, m: nat, n: nat)
    requires m <= n <= |input|
    ensures Commands(input, m) <= Commands(input, n)
    decreases n
  {
    if m < n {
      CommandsPrefix(input, m, n - 1);
    }
  }

  lemma CommandsAreCommands(input: seq<Line>, n: nat)
    requires n <= |input|
    ensures forall l <- Commands(input, n) :: l < n && input[l].IsCommand()
  {
  }

  /** Every consumed prefix is a prefix of all the requests. */
  lemma ConsumedAreRequests(input: seq<Line>, n: nat)
    requires n <= |input| && forall i :: 0 <= i < n ==> !input[i].IsBad()
    ensures n <= ReadableFrom(input, 0)
    ensures Commands(input, n) <= Requests(input)
    ensures n == |input| || input[n].IsBad() ==> Commands(input, n) == Requests(input)
  {
    CommandsPrefix(input, n, ReadableFrom(input, 0));
  }

  // ---- The invariant is kept ----

  lemma CommandReadAccounts(input: seq<Line>, s: State)
    requires Inv(input, s) && s.reader.Reading? && s.next < |input| && input[s.next].IsCommand()
    ensures Accounted(input, ReadLine(input, s))
  {
    QueuedAppend(s.queue, Command(s.next));
    var before := Responses(s.output);
    assert before + (InFlight(s.engine) + (Queued(s.queue) + [s.next]))
        == (before + (InFlight(s.engine) + Queued(s.queue))) + [s.next];
  }

  lemma CommandReadKeeps(input: seq<Line>, s: State)
    requires Inv(input, s) && s.reader.Reading? && s.next < |input| && input[s.next].IsCommand()
    ensures Inv(input, ReadLine(input, s))
  {
    CommandReadAccounts(input, s);
    QueuedAppend(s.queue, Command(s.next));
  }

  lemma OtherReadKeeps(input: seq<Line>, s: State)
    requires Inv(input, s) && s.reader.Reading? && !(s.next < |input| && input[s.next].IsCommand())
    ensures Inv(input, ReadLine(input, s))
  {
    if s.next < |input| && input[s.next].Abort? {
      assert Commands(input, s.next + 1) == Commands(input, s.next);
    }
  }

  lemma StopPutKeeps(input: seq<Line>, s: State)
    requires Inv(input, s) && (s.reader.Failing? || s.reader.Draining?)
    ensures Inv(input, ReaderNext(input, s))
  {
    QueuedAppend(s.queue, Stop);
  }

  lemma AckKeeps(input: seq<Line>, s: State)
    requires Inv(input, s) && s.reader.Acking?
    ensures Inv(input, ReaderNext(input, s))
  {
    OutputAppend(s.output, AbortAck(s.reader.line, s.reader.accepted));
  }

  lemma ReaderKeeps(input: seq<Line>, s: State)
    requires Inv(input, s)
    ensures Inv(input, ReaderNext(input, s))
  {
    match s.reader
    case Reading =>
      if s.next < |input| && input[s.next].IsCommand() { CommandReadKeeps(input, s); } else { OtherReadKeeps(input, s); }
    case Acking(_, _) => AckKeeps(input, s);
    case Failing => StopPutKeeps(input, s);
    case Draining => StopPutKeeps(input, s);
    case Finished =>
  }

  lemma DequeueAccounts(input: seq<Line>, s: State)
    requires Inv(input, s) && s.engine.Waiting? && s.queue != []
    ensures Accounted(input, Dequeue(input, s))
  {
    if s.queue[0].Stop? {
      StopFirst(s.queue);
      assert Queued(s.queue) == [] + Queued(s.queue[1..]);
    } else {
      var line := s.queue[0].line;
      assert [line] + Queued(s.queue[1..]) == Queued(s.queue) == [] + Queued(s.queue);
    }
  }

  lemma DequeueKeeps(input: seq<Line>, s: State)
    requires Inv(input, s) && s.engine.Waiting? && s.queue != []
    ensures Inv(input, Dequeue(input, s))
  {
    DequeueAccounts(input, s);
    DequeueReaderAgrees(input, s);
  }

  lemma DequeueReaderAgrees(input: seq<Line>, s: State)
    requires Inv(input, s) && s.engine.Waiting? && s.queue != []
    ensures ReaderAgrees(input, Dequeue(input, s))
  {
    assert forall i :: 0 <= i < |s.queue| - 1 ==> s.queue[1..][i] == s.queue[i + 1];
    if s.queue[0].Stop? { StopFirst(s.queue); }
  }

  lemma ReplyAccounts(input: seq<Line>, s: State)
    requires Inv(input, s) && s.engine.Replying?
    ensures Accounted(input, EngineNext(input, s))
  {
    var line := s.engine.line;
    OutputAppend(s.output, Response(line, s.engine.ok));
    assert Responses(s.output) + ([line] + Queued(s.queue)) == (Responses(s.output) + [line]) + ([] + Queued(s.queue));
  }

  lemma ReplyKeeps(input: seq<Line>, s: State)
    requires Inv(input, s) && s.engine.Replying?
    ensures Inv(input, EngineNext(input, s))
  {
    var line := s.engine.line;
    ReplyAccounts(input, s);
    OutputAppend(s.output, Response(line, s.engine.ok));
    assert (Responses(s.output) + [line])[..|Responses(s.output)|] == Responses(s.output);
  }

  lemma LeavingKeeps(input: seq<Line>, s: State)
    requires Inv(input, s) && s.engine.Leaving?
    ensures Inv(input, EngineNext(input, s))
  {
  }

  lemma ArmingKeeps(input: seq<Line>, s: State)
    requires Inv(input, s) && (s.engine.Arming? || s.engine.Disarming?)
    ensures Inv(input, EngineNext(input, s))
  {
  }

  lemma UnwindingKeeps(input: seq<Line>, s: State)
    requires Inv(input, s) && s.engine.Unwinding?
    ensures Inv(input, EngineNext(input, s))
  {
  }

  lemma EngineKeeps(input: seq<Line>, s: State)
    requires Inv(input, s)
    ensures Inv(input, EngineNext(input, s))
  {
    match s.engine
    case Waiting => if s.queue != [] { DequeueKeeps(input, s); }
    case Replying(_, _) => ReplyKeeps(input, s);
    case Leaving(_) => LeavingKeeps(input, s);
    case Arming(_) => ArmingKeeps(input, s);
    case Disarming(_, _) => ArmingKeeps(input, s);
    case Unwinding(_) => UnwindingKeeps(input, s);
    case _ =>
  }

  lemma ExecutionKeeps(input: seq<Line>, s: State, a: Action)
    requires Inv(input, s) && (a.LastLook? || a.ExecutionEnds? || a.ExceptionEscapes?)
    ensures Inv(input, Apply(input, s, a))
  {
  }

  lemma ProgressKeeps(input: seq<Line>, s: State)
    requires Inv(input, s)
    ensures Inv(input, Apply(input, s, EmitProgress))
  {
    if s.engine.Executing? { OutputAppend(s.output, Progress(s.engine.line)); }
  }

  lemma StepKeeps(input: seq<Line>, s: State, a: Action)
    requires Inv(input, s)
    ensures Inv(input, Apply(input, s, a))
  {
    match a
    case ReaderStep => ReaderKeeps(input, s);
    case EngineStep => EngineKeeps(input, s);
    case EmitProgress => ProgressKeeps(input, s);
    case LastLook => ExecutionKeeps(input, s, a);
    case ExecutionEnds(_) => ExecutionKeeps(input, s, a);
    case ExceptionEscapes => ExecutionKeeps(input, s, a);
  }

  lemma {:induction false} RunKeeps(input: seq<Line>, schedule: seq<Action>)
    ensures Inv(input, Run(input, schedule))
  {
    if schedule != [] {
      RunKeeps(input, schedule[..|schedule| - 1]);
      StepKeeps(input, Run(input, schedule[..|schedule| - 1]), schedule[|schedule| - 1]);
    }
  }

  // ---- Responses: one per command, in input order, all of them by exit ----

  lemma NoCloseTail(input: seq<Line>, done: seq<nat>)
    requires done != []
    ensures NoClose(input, done) ==> !IsClose(input, done[0]) && NoClose(input, done[1..])
    ensures CloseEnds(input, done) && |done| > 1 ==> !IsClose(input, done[0]) && CloseEnds(input, done[1..])
  {
    assert forall i :: 0 <= i < |done| - 1 ==> done[1..][i] == done[i + 1];
    if |done| > 1 {
      assert done[..|done| - 1][0] == done[0];
      assert done[1..][..|done| - 2] == done[..|done| - 1][1..];
    }
  }

  lemma {:induction false} UpToCloseOf(input: seq<Line>, done: seq<nat>, rest: seq<nat>)
    ensures NoClose(input, done) ==> UpToClose(input, done + rest) == done + UpToClose(input, rest)
    ensures CloseEnds(input, done) ==> UpToClose(input, done + rest) == done
  {
    if done == [] {
      assert done + rest == rest;
    } else {
      UpToCloseOf(input, done[1..], rest);
      NoCloseTail(input, done);
      assert (done + rest)[1..] == done[1..] + rest;
      assert done == [done[0]] + done[1..];
    }
  }

  lemma {:induction false} NoCloseStays(input: seq<Line>, lines: seq<nat>)
    requires NoClose(input, lines)
    ensures UpToClose(input, lines) == lines
  {
    UpToCloseOf(input, lines, []);
    assert lines + [] == lines;
  }

  /** In every interleaving the responses answer the commands one by one in input order,
      and none after the first Close. */
  lemma ResponsesFollowRequests(input: seq<Line>, schedule: seq<Action>)
    ensures Responses(Run(input, schedule).output) <= UpToClose(input, Requests(input))
  {
    RunKeeps(input, schedule);
    var s := Run(input, schedule);
    var answered := Responses(s.output);
    ConsumedAreRequests(input, s.next);
    assert answered <= Requests(input);
    UpToCloseOf(input, answered, Requests(input)[|answered|..]);
    assert Requests(input) == answered + Requests(input)[|answered|..];
  }

  /** A worker that exits has answered every command up to the first Close, and no other. */
  lemma ExitAnswersEverything(input: seq<Line>, schedule: seq<Action>)
    requires Run(input, schedule).engine.Exited?
    ensures Responses(Run(input, schedule).output) == UpToClose(input, Requests(input))
  {
    RunKeeps(input, schedule);
    var s := Run(input, schedule);
    var answered := Responses(s.output);
    ConsumedAreRequests(input, s.next);
    assert Requests(input) == answered + Requests(input)[|answered|..];
    UpToCloseOf(input, answered, Requests(input)[|answered|..]);
    if s.engine.byStop {
      assert answered + ([] + []) == answered;
      NoCloseStays(input, answered);
    }
  }

  lemma NoClosePrefix(input: seq<Line>, some: seq<nat>, all: seq<nat>)
    requires some <= all && NoClose(input, all)
    ensures NoClose(input, some) && !CloseEnds(input, some)
  {
    assert forall i :: 0 <= i < |some| ==> some[i] == all[i];
  }

  /** The exit code is 2 exactly when the line that stops the reader is malformed, provided
      no Close let the engine leave early; with a Close it may also be 0. */
  lemma ExitCodeTellsTheLastLine(input: seq<Line>, schedule: seq<Action>)
    requires Run(input, schedule).engine.Exited?
    ensures Run(input, schedule).engine.code in {0, 2}
    ensures Run(input, schedule).engine.code == 2 ==>
              ReadableFrom(input, 0) < |input| && input[ReadableFrom(input, 0)].Malformed?
    ensures NoClose(input, Requests(input)) ==>
              (Run(input, schedule).engine.code == 2 <==>
               ReadableFrom(input, 0) < |input| && input[ReadableFrom(input, 0)].Malformed?)
  {
    RunKeeps(input, schedule);
    var s := Run(input, schedule);
    ConsumedAreRequests(input, s.next);
    if NoClose(input, Requests(input)) {
      NoClosePrefix(input, Responses(s.output), Requests(input));
    }
  }

  // ---- Cancellation ----

  function AbortLines(input: seq<Line>, n: nat): seq<nat>
    requires n <= |input|
  {
    if n == 0 then []
    else AbortLines(input, n - 1) + (if input[n - 1].Abort? then [n - 1] else [])
  }

  function DecisionLines(ds: seq<Decision>): seq<nat> {
    seq(|ds|, k requires 0 <= k < |ds| => ds[k].line)
  }

  function DecisionFrames(ds: seq<Decision>): seq<Frame> {
    seq(|ds|, k requires 0 <= k < |ds| => Decided(ds[k]))
  }

  /** What one abort saw: it was accepted exactly when it named the batch being executed,
      and that batch was the next command to be answered. */
  ghost predicate Sound(input: seq<Line>, output: seq<Frame>, d: Decision) {
    && d.line < |input| && input[d.line].Abort?
    && d.written <= |output|
    && (d.accepted <==> Accepts(input, d.active, input[d.line].target))
    && (d.active.Some? ==>
        && d.active.value < d.line
        && IsBatch(input, d.active.value)
        && Responses(output[..d.written]) + [d.active.value] <= Commands(input, d.line))
  }

  ghost predicate AllSound(input: seq<Line>, output: seq<Frame>, ds: seq<Decision>) {
    forall k :: 0 <= k < |ds| ==> Sound(input, output, ds[k])
  }

  /** The events that are set are those of the batches an accepted abort saw. */
  ghost predicate CancelledBy(cancelled: set<nat>, ds: seq<Decision>) {
    forall l :: l in cancelled <==> exists k :: 0 <= k < |ds| && ds[k].accepted && ds[k].active == Some(l)
  }

  /** Every progress frame stands after the previous response and before its own. */
  ghost predicate ProgressPlaced(output: seq<Frame>, consumed: seq<nat>) {
    forall p :: 0 <= p < |output| && output[p].Progress? ==>
      Responses(output[..p]) + [output[p].line] <= consumed
  }

  ghost predicate History(input: seq<Line>, s: State) {
    && s.next <= |input|
    && DecisionLines(s.decisions) == AbortLines(input, s.next)
    && AllSound(input, s.output, s.decisions)
    && CancelledBy(s.cancelled, s.decisions)
    && DecisionFrames(s.decisions)
       == Acks(s.output) + (if s.reader.Acking? then [AbortAck(s.reader.line, s.reader.accepted)] else [])
    && ProgressPlaced(s.output, Commands(input, s.next))
  }

  lemma SoundGrows(input: seq<Line>, output: seq<Frame>, f: Frame, ds: seq<Decision>)
    requires AllSound(input, output, ds)
    ensures AllSound(input, output + [f], ds)
  {
    forall k | 0 <= k < |ds| ensures Sound(input, output + [f], ds[k]) {
      assert Sound(input, output, ds[k]);
      assert (output + [f])[..ds[k].written] == output[..ds[k].written];
    }
  }

  lemma ProgressPlacedAppend(output: seq<Frame>, f: Frame, consumed: seq<nat>)
    requires ProgressPlaced(output, consumed)
    requires f.Progress? ==> Responses(output) + [f.line] <= consumed
    ensures ProgressPlaced(output + [f], consumed)
  {
    var t := output + [f];
    forall p | 0 <= p < |t| && t[p].Progress? ensures Responses(t[..p]) + [t[p].line] <= consumed {
      assert t[..p] == output[..p];
      assert output[..|output|] == output;
    }
  }

  lemma ProgressPlacedLonger(output: seq<Frame>, consumed: seq<nat>, more: seq<nat>)
    requires ProgressPlaced(output, consumed) && consumed <= more
    ensures ProgressPlaced(output, more)
  {
    forall p | 0 <= p < |output| && output[p].Progress? ensures Responses(output[..p]) + [output[p].line] <= more {
      assert Responses(output[..p]) + [output[p].line] <= consumed;
    }
  }

  lemma CancelledByAppend(cancelled: set<nat>, ds: seq<Decision>, d: Decision)
    requires CancelledBy(cancelled, ds) && (d.accepted ==> d.active.Some?)
    ensures CancelledBy(if d.accepted then cancelled + {d.active.value} else cancelled, ds + [d])
  {
    var after := if d.accepted then cancelled + {d.active.value} else cancelled;
    var t := ds + [d];
    forall l ensures l in after <==> exists k :: 0 <= k < |t| && t[k].accepted && t[k].active == Some(l) {
      if l in cancelled {
        var k :| 0 <= k < |ds| && ds[k].accepted && ds[k].active == Some(l);
        assert t[k] == ds[k];
      } else if l in after {
        assert t[|ds|].active == Some(l);
      }
      if k :| 0 <= k < |t| && t[k].accepted && t[k].active == Some(l) {
        if k < |ds| { assert t[k] == ds[k]; }
      }
    }
  }

  lemma HistoryAppendsFrame(input: seq<Line>, s: State, t: State, f: Frame)
    requires History(input, s)
    requires t.next == s.next && t.decisions == s.decisions && t.cancelled == s.cancelled
    requires t.output == s.output + [f]
    requires f.AbortAck? ==> s.reader == Acking(f.line, f.accepted) && !t.reader.Acking?
    requires !f.AbortAck? ==> t.reader == s.reader
    requires f.Progress? ==> Responses(s.output) + [f.line] <= Commands(input, s.next)
    ensures History(input, t)
  {
    SoundGrows(input, s.output, f, s.decisions);
    OutputAppend(s.output, f);
    ProgressPlacedAppend(s.output, f, Commands(input, s.next));
  }

  lemma NewDecisionSound(input: seq<Line>, s: State, d: Decision)
    requires Inv(input, s)
    requires s.reader.Reading? && s.next < |input| && input[s.next].Abort?
    requires d == Decision(s.next, s.active, Accepts(input, s.active, input[s.next].target), |s.output|, s.engine)
    ensures Sound(input, s.output, d)
  {
    assert s.output[..|s.output|] == s.output;
    if s.active.Some? {
      CommandsAreCommands(input, s.next);
      assert s.active.value == Commands(input, s.next)[|Responses(s.output)|];
    }
  }

  lemma AbortReadHistory(input: seq<Line>, s: State)
    requires Inv(input, s) && History(input, s)
    requires s.reader.Reading? && s.next < |input| && input[s.next].Abort?
    ensures History(input, ReadLine(input, s))
  {
    var t := ReadLine(input, s);
    var d := t.decisions[|s.decisions|];
    NewDecisionSound(input, s, d);
    CancelledByAppend(s.cancelled, s.decisions, d);
    assert DecisionLines(t.decisions) == DecisionLines(s.decisions) + [s.next];
    assert DecisionFrames(t.decisions) == DecisionFrames(s.decisions) + [Decided(d)];
    assert Commands(input, s.next + 1) == Commands(input, s.next);
  }

  lemma CommandReadHistory(input: seq<Line>, s: State)
    requires History(input, s)
    requires s.reader.Reading? && s.next < |input| && input[s.next].IsCommand()
    ensures History(input, ReadLine(input, s))
  {
    ProgressPlacedLonger(s.output, Commands(input, s.next), Commands(input, s.next + 1));
    assert AbortLines(input, s.next + 1) == AbortLines(input, s.next);
  }

  lemma ReaderHistory(input: seq<Line>, s: State)
    requires Inv(input, s) && History(input, s)
    ensures History(input, ReaderNext(input, s))
  {
    match s.reader
    case Reading =>
      if s.next < |input| && input[s.next].Abort? { AbortReadHistory(input, s); }
      else if s.next < |input| && input[s.next].IsCommand() { CommandReadHistory(input, s); }
    case Acking(line, accepted) =>
      HistoryAppendsFrame(input, s, ReaderNext(input, s), AbortAck(line, accepted));
    case _ =>
  }

  lemma ProgressHistory(input: seq<Line>, s: State)
    requires Inv(input, s) && History(input, s)
    ensures History(input, Apply(input, s, EmitProgress))
  {
    var t := Apply(input, s, EmitProgress);
    if t != s {
      assert s.engine.line == Commands(input, s.next)[|Responses(s.output)|];
      HistoryAppendsFrame(input, s, t, Progress(s.engine.line));
    }
  }

  lemma EngineHistory(input: seq<Line>, s: State)
    requires History(input, s)
    ensures History(input, EngineNext(input, s))
  {
    var t := EngineNext(input, s);
    if s.engine.Replying? {
      HistoryAppendsFrame(input, s, t, Response(s.engine.line, s.engine.ok));
    } else {
      assert t == s.(engine := t.engine, active := t.active, queue := t.queue);
    }
  }

  lemma StepHistory(input: seq<Line>, s: State, a: Action)
    requires Inv(input, s) && History(input, s)
    ensures History(input, Apply(input, s, a))
  {
    match a
    case ReaderStep => ReaderHistory(input, s);
    case EngineStep => EngineHistory(input, s);
    case EmitProgress => ProgressHistory(input, s);
    case _ =>
  }

  lemma {:induction false} RunHistory(input: seq<Line>, schedule: seq<Action>)
    ensures History(input, Run(input, schedule))
  {
    if schedule != [] {
      RunKeeps(input, schedule[..|schedule| - 1]);
      RunHistory(input, schedule[..|schedule| - 1]);
      StepHistory(input, Run(input, schedule[..|schedule| - 1]), schedule[|schedule| - 1]);
    }
  }

  /** Each command's progress frames follow the previous response and precede its own. */
  lemma ProgressStandsBeforeItsResponse(input: seq<Line>, schedule: seq<Action>, p: nat)
    requires p < |Run(input, schedule).output| && Run(input, schedule).output[p].Progress?
    ensures var output := Run(input, schedule).output;
            Responses(output[..p]) + [output[p].line] <= Requests(input) && IsBatch(input, output[p].line)
  {
    RunKeeps(input, schedule);
    RunHistory(input, schedule);
    var s := Run(input, schedule);
    ConsumedAreRequests(input, s.next);
    RunProgressIsBatch(input, schedule, p);
  }

  lemma {:induction false} RunProgressIsBatch(input: seq<Line>, schedule: seq<Action>, p: nat)
    requires p < |Run(input, schedule).output| && Run(input, schedule).output[p].Progress?
    ensures IsBatch(input, Run(input, schedule).output[p].line)
  {
    var before := schedule[..|schedule| - 1];
    if p < |Run(input, before).output| {
      RunProgressIsBatch(input, before, p);
    }
  }

  /** No stale or misdirected cancellation: an abort is accepted exactly when it names the
      batch being executed at that moment, which is then the next command to be answered;
      and the set events are exactly those an accepted abort set. */
  lemma CancellationIsExact(input: seq<Line>, schedule: seq<Action>, k: nat)
    requires k < |Run(input, schedule).decisions|
    ensures var s := Run(input, schedule);
            var d := s.decisions[k];
            && Sound(input, s.output, d)
            && CancelledBy(s.cancelled, s.decisions)
            && (d.accepted ==> Responses(s.output[..d.written]) + [d.active.value] <= Requests(input))
  {
    RunKeeps(input, schedule);
    RunHistory(input, schedule);
    var s := Run(input, schedule);
    var d := s.decisions[k];
    assert Sound(input, s.output, d);
    AbortLinesBelow(input, s.next);
    assert d.line == DecisionLines(s.decisions)[k] == AbortLines(input, s.next)[k];
    assert d.line in AbortLines(input, s.next);
    CommandsPrefix(input, d.line, s.next);
    ConsumedAreRequests(input, s.next);
  }

  lemma AbortLinesBelow(input: seq<Line>, n: nat)
    requires n <= |input|
    ensures forall l <- AbortLines(input, n) :: l < n
  {
  }

  /** When no two commands share an id, a command that is still queued or already answered
      is never hit: only the next one to be answered can be. */
  lemma OnlyTheActiveCommandIsHit(input: seq<Line>, schedule: seq<Action>, k: nat, t: nat)
    requires forall i, j :: 0 <= i < j < |input| && input[i].IsCommand() && input[j].IsCommand() ==> input[i].id != input[j].id
    requires k < |Run(input, schedule).decisions|
    requires t < |input| && input[t].IsCommand()
    ensures var s := Run(input, schedule);
            var d := s.decisions[k];
            Sound(input, s.output, d) &&
            (d.accepted && input[t].id == input[d.line].target ==>
              d.active == Some(t) && Responses(s.output[..d.written]) + [t] <= Requests(input))
  {
    CancellationIsExact(input, schedule, k);
  }

  /** Every abort line read gets one acknowledgement, in order, saying what was decided. */
  lemma EveryAbortIsAcknowledged(input: seq<Line>, schedule: seq<Action>)
    requires Run(input, schedule).reader.Finished?
    ensures var s := Run(input, schedule);
            DecisionFrames(s.decisions) == Acks(s.output)
            && DecisionLines(s.decisions) == AbortLines(input, ReadableFrom(input, 0))
  {
    RunKeeps(input, schedule);
    RunHistory(input, schedule);
    ConsumedAreRequests(input, Run(input, schedule).next);
  }

  // ---- What an accepted abort brings about ----

  /** The batch has looked at its event for the last time, and nothing has failed yet. */
  predicate PastLastLook(e: Engine, t: nat) { e == Assembling(t) || e == Disarming(t, true) || e == Replying(t, true) }

  predicate Succeeded(s: State, t: nat) { Response(t, true) in s.output }

  /** The batch's event is set, and the batch can no longer get past its last look. */
  predicate Missed(input: seq<Line>, s: State, t: nat) {
    IsBatch(input, t) && t in s.cancelled && !PastLastLook(s.engine, t) && !Succeeded(s, t)
  }

  lemma MissedStays(input: seq<Line>, s: State, a: Action, t: nat)
    requires Missed(input, s, t)
    ensures Missed(input, Apply(input, s, a), t)
  {
  }

  lemma {:induction false} MissedForGood(input: seq<Line>, schedule: seq<Action>, more: seq<Action>, t: nat)
    requires Missed(input, Run(input, schedule), t)
    ensures Missed(input, Run(input, schedule + more), t)
  {
    if more == [] {
      assert schedule + more == schedule;
    } else {
      var init, last := more[..|more| - 1], more[|more| - 1];
      assert (schedule + more)[..|schedule + more| - 1] == schedule + init;
      MissedForGood(input, schedule, init, t);
      MissedStays(input, Run(input, schedule + init), last, t);
    }
  }

  lemma OneMore(input: seq<Line>, schedule: seq<Action>, a: Action)
    ensures Run(input, schedule + [a]) == Apply(input, Run(input, schedule), a)
  {
    assert (schedule + [a])[..|schedule|] == schedule;
  }

  lemma ReplySucceeds(input: seq<Line>, schedule: seq<Action>, t: nat)
    requires Run(input, schedule).engine == Replying(t, true)
    ensures Succeeded(Run(input, schedule + [EngineStep]), t)
  {
    OneMore(input, schedule, EngineStep);
  }

  /** A batch behind its last look can still be answered as successful, whatever was accepted. */
  lemma {:induction false} CanStillSucceed(input: seq<Line>, schedule: seq<Action>, t: nat) returns (more: seq<Action>)
    requires PastLastLook(Run(input, schedule).engine, t)
    ensures Succeeded(Run(input, schedule + more), t)
    decreases EngineRank(Run(input, schedule).engine)
  {
    var e := Run(input, schedule).engine;
    if e.Replying? {
      ReplySucceeds(input, schedule, t);
      more := [EngineStep];
    } else {
      var a := if e.Assembling? then ExecutionEnds(true) else EngineStep;
      OneMore(input, schedule, a);
      var rest := CanStillSucceed(input, schedule + [a], t);
      more := [a] + rest;
      assert schedule + more == schedule + [a] + rest;
    }
  }

  lemma {:induction false} CommandsIncrease(input: seq<Line>, n: nat)
    requires n <= |input|
    ensures forall i, j :: 0 <= i < j < |Commands(input, n)| ==> Commands(input, n)[i] < Commands(input, n)[j]
  {
    if n > 0 {
      CommandsIncrease(input, n - 1);
      CommandsAreCommands(input, n - 1);
      var before := Commands(input, n - 1);
      assert forall i {:trigger before[i]} :: 0 <= i < |before| ==> before[i] in before;
    }
  }

  lemma {:induction false} RespondedIsListed(output: seq<Frame>, f: Frame)
    requires f in output && f.Response?
    ensures f.line in Responses(output)
  {
    var init, last := output[..|output| - 1], output[|output| - 1];
    assert output == init + [last];
    if f in init { RespondedIsListed(init, f); }
  }

  /** The command in flight has not been answered. */
  lemma ActiveIsUnanswered(input: seq<Line>, s: State)
    requires Inv(input, s) && Armed(s.engine)
    ensures !Succeeded(s, s.engine.line)
  {
    var t, done := s.engine.line, Responses(s.output);
    CommandsIncrease(input, s.next);
    assert Commands(input, s.next)[|done|] == t;
    assert forall i :: 0 <= i < |done| ==> done[i] == Commands(input, s.next)[i];
    if Succeeded(s, t) { RespondedIsListed(s.output, Response(t, true)); }
  }

  /** Whatever was accepted before the last look has missed its success. */
  ghost predicate InTimeMisses(input: seq<Line>, s: State, d: Decision) {
    d.accepted ==> d.active.Some? && (PastLastLook(d.engine, d.active.value) || Missed(input, s, d.active.value))
  }

  ghost predicate AllInTimeMiss(input: seq<Line>, s: State) {
    forall k :: 0 <= k < |s.decisions| ==> InTimeMisses(input, s, s.decisions[k])
  }

  lemma NewDecisionMisses(input: seq<Line>, s: State)
    requires Inv(input, s) && s.reader.Reading? && s.next < |input| && input[s.next].Abort?
    ensures var t := ReadLine(input, s); InTimeMisses(input, t, t.decisions[|s.decisions|])
  {
    if Accepts(input, s.active, input[s.next].target) { ActiveIsUnanswered(input, s); }
  }

  lemma OldDecisionMisses(input: seq<Line>, s: State, a: Action, d: Decision)
    requires InTimeMisses(input, s, d)
    ensures InTimeMisses(input, Apply(input, s, a), d)
  {
    if d.accepted && Missed(input, s, d.active.value) { MissedStays(input, s, a, d.active.value); }
  }

  lemma StepMisses(input: seq<Line>, s: State, a: Action)
    requires Inv(input, s) && AllInTimeMiss(input, s)
    ensures AllInTimeMiss(input, Apply(input, s, a))
  {
    var t := Apply(input, s, a);
    forall k | 0 <= k < |t.decisions| ensures InTimeMisses(input, t, t.decisions[k]) {
      if k < |s.decisions| {
        OldDecisionMisses(input, s, a, s.decisions[k]);
      } else {
        NewDecisionMisses(input, s);
      }
    }
  }

  lemma {:induction false} RunMisses(input: seq<Line>, schedule: seq<Action>)
    ensures AllInTimeMiss(input, Run(input, schedule))
  {
    if schedule != [] {
      RunKeeps(input, schedule[..|schedule| - 1]);
      RunMisses(input, schedule[..|schedule| - 1]);
      StepMisses(input, Run(input, schedule[..|schedule| - 1]), schedule[|schedule| - 1]);
    }
  }

  /** An abort that was accepted before its batch's last look at the event is obeyed: the batch is
      never answered as successful.  Success means the abort came behind the last look. */
  lemma AbortInTimeIsObeyed(input: seq<Line>, schedule: seq<Action>, k: nat)
    requires k < |Run(input, schedule).decisions| && Run(input, schedule).decisions[k].accepted
    ensures var s := Run(input, schedule);
      var d := s.decisions[k];
      && d.active.Some?
      && (Succeeded(s, d.active.value) ==> PastLastLook(d.engine, d.active.value))
  {
    RunMisses(input, schedule);
    var s := Run(input, schedule);
    assert InTimeMisses(input, s, s.decisions[k]);
  }

  /** From any point of any run, the target of an accepted abort can be answered as successful
      exactly if it has been, or is behind its last look with nothing failed yet. */
  lemma AcceptedAbortMayStillSucceed(input: seq<Line>, schedule: seq<Action>, k: nat)
    requires k < |Run(input, schedule).decisions| && Run(input, schedule).decisions[k].accepted
    ensures var s := Run(input, schedule);
      && s.decisions[k].active.Some?
      && var t := s.decisions[k].active.value;
         (exists more :: Succeeded(Run(input, schedule + more), t)) <==> Succeeded(s, t) || PastLastLook(s.engine, t)
  {
    var s := Run(input, schedule);
    AcceptedIsSet(input, schedule, k);
    var t := s.decisions[k].active.value;
    assert schedule + [] == schedule;
    if PastLastLook(s.engine, t) {
      var more := CanStillSucceed(input, schedule, t);
    } else if !Succeeded(s, t) {
      forall more ensures !Succeeded(Run(input, schedule + more), t) {
        MissedForGood(input, schedule, more, t);
      }
    }
  }

  lemma AcceptedIsSet(input: seq<Line>, schedule: seq<Action>, k: nat)
    requires k < |Run(input, schedule).decisions| && Run(input, schedule).decisions[k].accepted
    ensures var s := Run(input, schedule);
      var active := s.decisions[k].active;
      active.Some? && active.value in s.cancelled && IsBatch(input, active.value)
  {
    RunHistory(input, schedule);
    var s := Run(input, schedule);
    assert Sound(input, s.output, s.decisions[k]);
  }

  lemma Unfold(input: seq<Line>, schedule: seq<Action>, n: nat)
    requires 0 < n <= |schedule|
    ensures Run(input, schedule[..n]) == Apply(input, Run(input, schedule[..n - 1]), schedule[n - 1])
  {
    assert schedule[..n][..n - 1] == schedule[..n - 1];
  }

  // ---- No deadlock, bounded work ----

  function ReaderRank(r: Reader): nat {
    match r
    case Reading => 16
    case Acking(_, _) => 17
    case Failing => 15
    case Draining => 8
    case Finished => 0
  }

  function EngineRank(e: Engine): nat {
    match e
    case Arming(_) => 7
    case Executing(_) => 6
    case Assembling(_) => 5
    case Disarming(_, _) => 4
    case Replying(_, _) => 3
    case Waiting => 2
    case Unwinding(_) => 1
    case Leaving(_) => 1
    case Exited(_, _) => 0
    case Dead => 0
  }

  function Rank(input: seq<Line>, s: State): int {
    12 * (|input| - s.next) + 6 * |s.queue| + ReaderRank(s.reader) + EngineRank(s.engine)
  }

  /** How many steps of a schedule, progress frames aside, changed anything. */
  function Effective(input: seq<Line>, schedule: seq<Action>): nat {
    if schedule == [] then 0
    else
      var before := schedule[..|schedule| - 1];
      var last := schedule[|schedule| - 1];
      Effective(input, before)
      + if !last.EmitProgress? && Run(input, schedule) != Run(input, before) then 1 else 0
  }

  lemma StepRank(input: seq<Line>, s: State, a: Action)
    requires s.next <= |input|
    ensures Rank(input, Apply(input, s, a)) <= Rank(input, s)
    ensures !a.EmitProgress? && Apply(input, s, a) != s ==> Rank(input, Apply(input, s, a)) < Rank(input, s)
  {
  }

  /** Apart from progress frames a run can change the worker only so often. */
  lemma {:induction false} WorkIsBounded(input: seq<Line>, schedule: seq<Action>)
    ensures Effective(input, schedule) + Rank(input, Run(input, schedule)) <= 12 * |input| + 18
    ensures Rank(input, Run(input, schedule)) >= 0
  {
    RunKeeps(input, schedule);
    if schedule != [] {
      var before := schedule[..|schedule| - 1];
      WorkIsBounded(input, before);
      RunKeeps(input, before);
      StepRank(input, Run(input, before), schedule[|schedule| - 1]);
    }
  }

  /** The engine never waits for ever: until it exits or dies, some step other than a
      progress frame changes the state. */
  lemma NoDeadlock(input: seq<Line>, schedule: seq<Action>)
    requires !Run(input, schedule).engine.Exited? && !Run(input, schedule).engine.Dead?
    ensures var s := Run(input, schedule);
            || Apply(input, s, ReaderStep) != s || Apply(input, s, EngineStep) != s
            || Apply(input, s, LastLook) != s || Apply(input, s, ExecutionEnds(true)) != s
  {
    RunKeeps(input, schedule);
    var s := Run(input, schedule);
    if s.engine.Waiting? && s.queue == [] {
      assert !s.reader.Finished?;
    }
  }

  // ---- The two threads over shared fields ----

  /** The process: what `main` and `read_commands` share, updated in place step by step. */
  class WorkerProcess {
    const input: seq<Line>
    var next: nat
    var reader: Reader
    var readerFailed: bool
    var queue: seq<Item>
    var active: Option<nat>
    var cancelled: set<nat>
    var engine: Engine
    var output: seq<Frame>
    ghost var decisions: seq<Decision>

    ghost function View(): State
      reads this
    {
      State(next, reader, readerFailed, queue, active, cancelled, engine, output, decisions)
    }

    constructor (lines: seq<Line>)
      ensures input == lines && View() == INITIAL
    {
      input := lines;
      next, reader, readerFailed, queue, active, cancelled := 0, Reading, false, [], None, {};
      engine, output, decisions := Waiting, [], [];
    }

    /** One step of `read_commands`. */
    method StepReader()
      modifies this
      ensures View() == ReaderNext(input, old(View()))
    {
      match reader
      case Reading =>
        if next >= |input| || input[next].Unreadable? {
          reader := Draining;
        } else if input[next].Malformed? {
          readerFailed := true;
          reader := Failing;
        } else if input[next].Abort? {
          var accepted := Accepts(input, active, input[next].target);
          if accepted {
            cancelled := cancelled + {active.value};
          }
          decisions := decisions + [Decision(next, active, accepted, |output|, engine)];
          reader := Acking(next, accepted);
          next := next + 1;
        } else {
          queue := queue + [Command(next)];
          next := next + 1;
        }
      case Acking(line, accepted) =>
        output := output + [AbortAck(line, accepted)];
        reader := Reading;
      case Failing =>
        queue := queue + [Stop];
        reader := Draining;
      case Draining =>
        queue := queue + [Stop];
        reader := Finished;
      case Finished =>
    }

    /** One step of the main loop outside the browser engine. */
    method StepEngine()
      modifies this
      ensures View() == EngineNext(input, old(View()))
    {
      match engine
      case Waiting =>
        if queue != [] {
          var item := queue[0];
          queue := queue[1..];
          if item.Stop? {
            engine := Leaving(true);
          } else if item.line < |input| && input[item.line].Batch? {
            engine := Arming(item.line);
          } else {
            engine := Executing(item.line);
          }
        }
      case Arming(line) =>
        active := Some(line);
        engine := Executing(line);
      case Executing(_) =>
      case Assembling(_) =>
      case Disarming(line, ok) =>
        active := None;
        engine := Replying(line, ok);
      case Unwinding(_) =>
        active := None;
        engine := Dead;
      case Replying(line, ok) =>
        output := output + [Response(line, ok)];
        if line < |input| && input[line].Close? {
          engine := Leaving(false);
        } else {
          engine := Waiting;
        }
      case Leaving(byStop) =>
        engine := Exited(byStop, if readerFailed then 2 else 0);
      case Exited(_, _) =>
      case Dead =>
    }

    /** What the browser engine can do while it executes a command. */
    method StepExecution(a: Action)
      requires !a.ReaderStep? && !a.EngineStep?
      modifies this
      ensures View() == Apply(input, old(View()), a)
    {
      if engine.Executing? {
        var line := engine.line;
        var batch := line < |input| && input[line].Batch?;
        match a
        case EmitProgress =>
          if batch { output := output + [Progress(line)]; }
        case LastLook =>
          if batch {
            if line in cancelled { engine := Disarming(line, false); } else { engine := Assembling(line); }
          }
        case ExecutionEnds(ok) =>
          if !batch { engine := Replying(line, ok); } else if !ok { engine := Disarming(line, false); }
        case ExceptionEscapes =>
          engine := Unwinding(line);
      } else if engine.Assembling? {
        match a
        case ExecutionEnds(ok) => engine := Disarming(engine.line, ok);
        case ExceptionEscapes => engine := Unwinding(engine.line);
        case _ =>
      }
    }

    /** Any interleaving of the two threads, from the start. */
    method Drive(schedule: seq<Action>)
      requires View() == INITIAL
      modifies this
      ensures View() == Run(input, schedule)
      ensures Responses(output) <= UpToClose(input, Requests(input))
    {
      assert schedule[..0] == [];
      for n := 0 to |schedule|
        invariant View() == Run(input, schedule[..n])
      {
        Unfold(input, schedule, n + 1);
        match schedule[n]
        case ReaderStep => StepReader();
        case EngineStep => StepEngine();
        case _ => StepExecution(schedule[n]);
      }
      assert schedule[..|schedule|] == schedule;
      ResponsesFollowRequests(input, schedule);
    }
  }
}
