/** The offline twin of the platform: a server that recognises five transitions in order, and
    the router of the check that lets one final query through. */
module OfflineTwin {
  import opened Sequences

  type Stage = nat           // 0 to 4 are the transitions in their order
  const TRANSITIONS := 5
  const FINAL: Stage := 5    // any other number is any other stage

  // ---- Subsequences ----

  /** `at` picks the first `k` transitions out of `stages`, in order. */
  ghost predicate Picks(stages: seq<Stage>, at: seq<nat>, k: nat) {
    && |at| == k
    && (forall i :: 0 <= i < k ==> at[i] < |stages| && stages[at[i]] == i)
    && (forall i, j :: 0 <= i < j < k ==> at[i] < at[j])
  }

  ghost predicate HasTransitions(stages: seq<Stage>, k: nat) { exists at :: Picks(stages, at, k) }

  /** `do_POST` on the transition index, one handler at a time. */
  function Advance(index: nat, stage: Stage): nat { if index < TRANSITIONS && stage == index then index + 1 else index }

  function IndexAfter(stages: seq<Stage>): nat {
    if stages == [] then 0 else Advance(IndexAfter(stages[..|stages| - 1]), stages[|stages| - 1])
  }

  lemma {:induction false} PicksEarlier(stages: seq<Stage>, at: seq<nat>, k: nat)
    requires k > 0 && Picks(stages, at, k) && stages != []
    ensures HasTransitions(stages[..|stages| - 1], k - 1)
    ensures stages[|stages| - 1] != k - 1 ==> HasTransitions(stages[..|stages| - 1], k)
  {
    var init := stages[..|stages| - 1];
    assert Picks(init, at[..k - 1], k - 1) by {
      forall i | 0 <= i < k - 1 ensures at[i] < |init| && init[at[i]] == i {
        assert at[i] < at[k - 1];
      }
    }
    if stages[|stages| - 1] != k - 1 {
      assert Picks(init, at, k) by {
        forall i | 0 <= i < k ensures at[i] < |init| && init[at[i]] == i {
          if i < k - 1 { assert at[i] < at[k - 1]; }
        }
      }
    }
  }

  lemma PicksMore(stages: seq<Stage>, at: seq<nat>, k: nat, stage: Stage)
    requires Picks(stages, at, k)
    ensures HasTransitions(stages + [stage], k)
    ensures stage == k ==> HasTransitions(stages + [stage], k + 1)
  {
    assert Picks(stages + [stage], at, k);
    if stage == k { assert Picks(stages + [stage], at + [|stages|], k + 1); }
  }

  lemma NothingPicked(k: nat)
    requires k > 0
    ensures !HasTransitions([], k)
  {
    forall at: seq<nat> | |at| == k ensures !Picks([], at, k) {
      assert at[0] >= 0;
    }
  }

  /** The greedy index counts the transitions that occur, in order, among the stages. */
  lemma {:induction false} IndexIsLongest(stages: seq<Stage>, k: nat)
    requires k <= TRANSITIONS
    ensures IndexAfter(stages) <= TRANSITIONS
    ensures IndexAfter(stages) >= k <==> HasTransitions(stages, k)
  {
    if stages == [] {
      assert Picks([], [], 0);
      if k > 0 { NothingPicked(k); }
    } else {
      var init, last := stages[..|stages| - 1], stages[|stages| - 1];
      assert stages == init + [last];
      IndexIsLongest(init, k);
      if k > 0 { IndexIsLongest(init, k - 1); }
      if IndexAfter(stages) >= k {
        if IndexAfter(init) >= k {
          var at :| Picks(init, at, k);
          PicksMore(init, at, k, last);
        } else {
          var at :| Picks(init, at, k - 1);
          PicksMore(init, at, k - 1, last);
        }
      }
      if HasTransitions(stages, k) && k > 0 {
        var at :| Picks(stages, at, k);
        PicksEarlier(stages, at, k);
      }
    }
  }

  /** The twin, as an object its handlers update. */
  class Twin {
    var transitionIndex: nat
    ghost var history: seq<Stage>

    ghost predicate Valid() reads this { transitionIndex == IndexAfter(history) }

    constructor ()
      ensures Valid() && history == []
    {
      transitionIndex, history := 0, [];
    }

    /** `do_POST` for `/api/list`: a final query is answered as ready exactly when the five
        transitions are a subsequence of the stages before it. */
    method Post(stage: Stage) returns (ready: bool)
      requires Valid()
      modifies this
      ensures Valid() && history == old(history) + [stage]
      ensures ready <==> stage == FINAL && HasTransitions(old(history), TRANSITIONS)
    {
      IndexIsLongest(history, TRANSITIONS);
      assert (history + [stage])[..|history|] == history;
      var index := transitionIndex;
      if index < TRANSITIONS && stage == index {
        transitionIndex := index + 1;
        index := index + 1;
      }
      ready := stage == FINAL && index == TRANSITIONS;
      history := history + [stage];
    }
  }

  // ---- Handlers that overlap ----

  /** The server runs a handler a thread: each reads the index, and stores the advanced value
      later.  `pending` holds the values not yet stored; `started` the stages in the order in
      which the handlers read the index. */
  datatype Threads = Threads(index: nat, pending: map<nat, nat>, started: seq<Stage>)

  datatype Action = Arrive(handler: nat, stage: Stage) | Store(handler: nat)

  function Apply(s: Threads, a: Action): Threads {
    match a
    case Arrive(h, stage) =>
      if h in s.pending then s
      else
        Threads(s.index, if Advance(s.index, stage) != s.index then s.pending[h := s.index + 1] else s.pending,
                s.started + [stage])
    case Store(h) => if h in s.pending then Threads(s.pending[h], s.pending - {h}, s.started) else s
  }

  /** Whether a final query arriving now is answered as ready. */
  predicate FinalReady(s: Threads) { s.index == TRANSITIONS }

  function Run(schedule: seq<Action>): Threads {
    if schedule == [] then Threads(0, map[], []) else Apply(Run(schedule[..|schedule| - 1]), schedule[|schedule| - 1])
  }

  /** However handlers overlap, the stored and the pending values are no further than the
      transitions that arrived. */
  ghost predicate NotAhead(s: Threads) {
    s.index <= IndexAfter(s.started) <= TRANSITIONS
    && forall h :: h in s.pending ==> s.pending[h] <= IndexAfter(s.started)
  }

  lemma ApplyKeeps(s: Threads, a: Action)
    requires NotAhead(s)
    ensures NotAhead(Apply(s, a))
  {
    if a.Arrive? {
      assert (s.started + [a.stage])[..|s.started|] == s.started;
    }
  }

  lemma {:induction false} RunKeeps(schedule: seq<Action>)
    ensures NotAhead(Run(schedule))
  {
    if schedule != [] {
      RunKeeps(schedule[..|schedule| - 1]);
      ApplyKeeps(Run(schedule[..|schedule| - 1]), schedule[|schedule| - 1]);
    }
  }

  /** Under every interleaving, a final query is ready only after the five transitions. */
  lemma ReadyNeedsTransitions(schedule: seq<Action>)
    ensures FinalReady(Run(schedule)) ==> HasTransitions(Run(schedule).started, TRANSITIONS)
  {
    RunKeeps(schedule);
    IndexIsLongest(Run(schedule).started, TRANSITIONS);
  }

  // ---- When nothing that arrives is forgotten ----

  /** What one handler does to the index, whatever its stage: it reads it and later, if the stage
      was due, stores it. */
  datatype Moment = Reads(handler: nat) | Stores(handler: nat)

  predicate AllDistinct(pattern: seq<Moment>) { forall i, j :: 0 <= i < j < |pattern| ==> pattern[i] != pattern[j] }

  predicate ReadFirst(pattern: seq<Moment>) {
    forall k :: 0 <= k < |pattern| && pattern[k].Stores? ==> Reads(pattern[k].handler) in pattern[..k]
  }

  predicate AllStored(pattern: seq<Moment>) {
    forall i :: 0 <= i < |pattern| && pattern[i].Reads? ==> Stores(pattern[i].handler) in pattern[i + 1..]
  }

  /** Every handler reads once and comes to its store once, later. */
  predicate Complete(pattern: seq<Moment>) { AllDistinct(pattern) && ReadFirst(pattern) && AllStored(pattern) }

  /** The second handler reads between the first one's read and its store. */
  predicate Overtakes(pattern: seq<Moment>, i: nat, j: nat, k: nat) {
    i < j < k < |pattern| && pattern[i].Reads? && pattern[j].Reads? && pattern[k] == Stores(pattern[i].handler)
  }

  ghost predicate Overlaps(pattern: seq<Moment>) { exists i, j, k :: Overtakes(pattern, i, j, k) }

  /** How many handlers have read among the first `n` moments. */
  function Arrivals(pattern: seq<Moment>, n: nat): nat
    requires n <= |pattern|
  {
    if n == 0 then 0 else Arrivals(pattern, n - 1) + if pattern[n - 1].Reads? then 1 else 0
  }

  /** The schedule when the handlers carry the stages in the order in which they read. */
  function Assigned(pattern: seq<Moment>, stages: nat -> Stage): seq<Action> {
    seq(|pattern|, i requires 0 <= i < |pattern| => ActionAt(pattern, stages, i))
  }

  function ActionAt(pattern: seq<Moment>, stages: nat -> Stage, i: nat): Action
    requires i < |pattern|
  {
    match pattern[i]
    case Reads(h) => Arrive(h, stages(Arrivals(pattern, i)))
    case Stores(h) => Store(h)
  }

  function InOrder(stages: nat -> Stage, n: nat): seq<Stage> { seq(n, r requires 0 <= r < n => stages(r)) }

  /** The state after the first `n` moments. */
  function After(pattern: seq<Moment>, stages: nat -> Stage, n: nat): Threads
    requires n <= |pattern|
  {
    Run(Assigned(pattern, stages)[..n])
  }

  lemma NextMoment(pattern: seq<Moment>, stages: nat -> Stage, n: nat)
    requires n < |pattern|
    ensures After(pattern, stages, n + 1) == Apply(After(pattern, stages, n), ActionAt(pattern, stages, n))
  {
    var schedule := Assigned(pattern, stages);
    assert schedule[..n + 1][..n] == schedule[..n];
  }

  lemma {:induction false} ArrivalsGrow(pattern: seq<Moment>, m: nat, n: nat)
    requires m <= n <= |pattern|
    ensures Arrivals(pattern, m) <= Arrivals(pattern, n)
    ensures m < n && pattern[m].Reads? ==> Arrivals(pattern, m) < Arrivals(pattern, n)
  {
    if m < n { ArrivalsGrow(pattern, m, n - 1); }
  }

  lemma ArriveStarts(s: Threads, h: nat, stage: Stage)
    requires h !in s.pending
    ensures Apply(s, Arrive(h, stage)).started == s.started + [stage]
    ensures Apply(s, Arrive(h, stage)).pending.Keys <= s.pending.Keys + {h}
  {
  }

  lemma StoreStarts(s: Threads, h: nat)
    ensures Apply(s, Store(h)).started == s.started && Apply(s, Store(h)).pending.Keys <= s.pending.Keys
  {
  }

  predicate HaveRead(handlers: set<nat>, pattern: seq<Moment>) { forall h :: h in handlers ==> Reads(h) in pattern }

  lemma MoreHaveRead(handlers: set<nat>, more: set<nat>, pattern: seq<Moment>, n: nat)
    requires n < |pattern| && HaveRead(handlers, pattern[..n])
    requires more <= handlers + if pattern[n].Reads? then {pattern[n].handler} else {}
    ensures HaveRead(more, pattern[..n + 1])
  {
    assert pattern[..n + 1] == pattern[..n] + [pattern[n]];
  }

  lemma NotReadYet(handlers: set<nat>, pattern: seq<Moment>, n: nat)
    requires AllDistinct(pattern) && n < |pattern| && pattern[n].Reads? && HaveRead(handlers, pattern[..n])
    ensures pattern[n].handler !in handlers
  {
  }

  /** Only handlers that have read can be about to store. */
  lemma {:induction false} StartedInOrder(pattern: seq<Moment>, stages: nat -> Stage, n: nat)
    requires AllDistinct(pattern) && n <= |pattern|
    ensures After(pattern, stages, n).started == InOrder(stages, Arrivals(pattern, n))
    ensures HaveRead(After(pattern, stages, n).pending.Keys, pattern[..n])
  {
    if n > 0 {
      StartedInOrder(pattern, stages, n - 1);
      NextStarted(pattern, stages, n - 1);
    }
  }

  lemma NextStarted(pattern: seq<Moment>, stages: nat -> Stage, m: nat)
    requires AllDistinct(pattern) && m < |pattern|
    requires After(pattern, stages, m).started == InOrder(stages, Arrivals(pattern, m))
    requires HaveRead(After(pattern, stages, m).pending.Keys, pattern[..m])
    ensures After(pattern, stages, m + 1).started == InOrder(stages, Arrivals(pattern, m + 1))
    ensures HaveRead(After(pattern, stages, m + 1).pending.Keys, pattern[..m + 1])
  {
    NextMoment(pattern, stages, m);
    var s, a := After(pattern, stages, m), Arrivals(pattern, m);
    assert InOrder(stages, a + 1) == InOrder(stages, a) + [stages(a)];
    match pattern[m] {
      case Reads(h) =>
        NotReadYet(s.pending.Keys, pattern, m);
        ArriveStarts(s, h, stages(Arrivals(pattern, m)));
      case Stores(h) => StoreStarts(s, h);
    }
    MoreHaveRead(s.pending.Keys, After(pattern, stages, m + 1).pending.Keys, pattern, m);
  }

  // ---- One handler at a time ----

  /** Between two moments of a pattern without overlaps: at most the handler that read last has
      still to store, and then it brings the index up to date. */
  predicate UpToDate(s: Threads, pattern: seq<Moment>, n: nat)
    requires n <= |pattern|
  {
    || (s.pending == map[] && s.index == IndexAfter(s.started))
    || (n > 0 && pattern[n - 1].Reads? && s.pending == map[pattern[n - 1].handler := IndexAfter(s.started)])
  }

  lemma ArriveUpToDate(s: Threads, h: nat, stage: Stage)
    requires s.pending == map[] && s.index == IndexAfter(s.started)
    ensures var t := Apply(s, Arrive(h, stage));
      (t.pending == map[] && t.index == IndexAfter(t.started)) || t.pending == map[h := IndexAfter(t.started)]
  {
    assert (s.started + [stage])[..|s.started|] == s.started;
  }

  lemma NotOvertaken(pattern: seq<Moment>, i: nat, j: nat, k: nat)
    requires !Overlaps(pattern)
    ensures !Overtakes(pattern, i, j, k)
  {
  }

  lemma NextIsNoRead(pattern: seq<Moment>, n: nat)
    requires AllStored(pattern) && !Overlaps(pattern) && 0 < n < |pattern| && pattern[n - 1].Reads?
    ensures pattern[n].Stores?
  {
    var stored := pattern[n - 1 + 1..];
    var k :| 0 <= k < |stored| && stored[k] == Stores(pattern[n - 1].handler);
    assert pattern[n + k] == stored[k];
    NotOvertaken(pattern, n - 1, n, n + k);
  }

  lemma NextIsOwnStore(pattern: seq<Moment>, n: nat)
    requires ReadFirst(pattern) && !Overlaps(pattern) && 0 < n < |pattern| && pattern[n - 1].Reads? && pattern[n].Stores?
    ensures pattern[n].handler == pattern[n - 1].handler
  {
    var read := pattern[..n];
    var i :| 0 <= i < |read| && read[i] == Reads(pattern[n].handler);
    assert pattern[i] == read[i];
    NotOvertaken(pattern, i, n - 1, n);
  }

  /** The moment after a read is that handler's store. */
  lemma StoresNext(pattern: seq<Moment>, n: nat)
    requires Complete(pattern) && !Overlaps(pattern) && 0 < n < |pattern| && pattern[n - 1].Reads?
    ensures pattern[n] == Stores(pattern[n - 1].handler)
  {
    NextIsNoRead(pattern, n);
    NextIsOwnStore(pattern, n);
  }

  lemma {:induction false} OneAtATime(pattern: seq<Moment>, stages: nat -> Stage, n: nat)
    requires Complete(pattern) && !Overlaps(pattern) && n <= |pattern|
    ensures UpToDate(After(pattern, stages, n), pattern, n)
  {
    if n > 0 {
      OneAtATime(pattern, stages, n - 1);
      NextMoment(pattern, stages, n - 1);
      var s := After(pattern, stages, n - 1);
      if n > 1 && pattern[n - 2].Reads? { StoresNext(pattern, n - 1); }
      match pattern[n - 1]
      case Reads(h) => ArriveUpToDate(s, h, stages(Arrivals(pattern, n - 1)));
      case Stores(h) =>
    }
  }

  lemma LastIsStore(pattern: seq<Moment>)
    requires Complete(pattern) && pattern != []
    ensures pattern[|pattern| - 1].Stores?
  {
    assert pattern[|pattern| - 1 + 1..] == [];
  }

  lemma AllRecognised(pattern: seq<Moment>, stages: nat -> Stage)
    requires Complete(pattern) && !Overlaps(pattern)
    ensures Recognises(pattern, stages)
  {
    OneAtATime(pattern, stages, |pattern|);
    assert Assigned(pattern, stages)[..|pattern|] == Assigned(pattern, stages);
    if pattern != [] { LastIsStore(pattern); }
  }

  // ---- Handlers that overlap forget ----

  /** The transitions in order, from the arrival `w` on; all other stages are none. */
  function Window(w: nat): nat -> Stage { r => if w <= r < w + TRANSITIONS then r - w else FINAL }

  /** The first handler holds its transition back until `k`, so the next one is not yet due. */
  predicate HeldBack(s: Threads, first: nat, t: nat, stored: bool) {
    && s.index <= (if stored then t + 1 else t)
    && forall h :: h in s.pending ==> s.pending[h] <= if stored || h == first then t + 1 else t
  }

  lemma ArriveHeldBack(s: Threads, first: nat, t: nat, stored: bool, h: nat, stage: Stage)
    requires HeldBack(s, first, t, stored)
    requires (stored ==> stage != t + 1) && (!stored && h != first ==> stage != t)
    ensures HeldBack(Apply(s, Arrive(h, stage)), first, t, stored)
  {
  }

  lemma StoreHeldBack(s: Threads, first: nat, t: nat, stored: bool, h: nat)
    requires HeldBack(s, first, t, stored)
    ensures HeldBack(Apply(s, Store(h)), first, t, stored || h == first)
  {
  }

  /** Nobody else has the first handler's stage, and all others after the store have later ones. */
  lemma StageInWindow(pattern: seq<Moment>, i: nat, j: nat, k: nat, w: nat, n: nat)
    requires Overtakes(pattern, i, j, k) && w <= Arrivals(pattern, i) < w + TRANSITIONS - 1
    requires n < |pattern| && pattern[n].Reads?
    ensures n > k ==> Window(w)(Arrivals(pattern, n)) != Arrivals(pattern, i) - w + 1
    ensures n != i ==> Window(w)(Arrivals(pattern, n)) != Arrivals(pattern, i) - w
  {
    if n < i { ArrivalsGrow(pattern, n, i); }
    if i < n { ArrivalsGrow(pattern, i, n); }
    if k < n {
      ArrivalsGrow(pattern, i, j);
      ArrivalsGrow(pattern, j, n);
    }
  }

  lemma NextHeldBack(pattern: seq<Moment>, i: nat, j: nat, k: nat, w: nat, m: nat, s: Threads)
    requires AllDistinct(pattern) && Overtakes(pattern, i, j, k) && w <= Arrivals(pattern, i) < w + TRANSITIONS - 1
    requires m < |pattern| && HeldBack(s, pattern[i].handler, Arrivals(pattern, i) - w, m > k)
    ensures HeldBack(Apply(s, ActionAt(pattern, Window(w), m)), pattern[i].handler, Arrivals(pattern, i) - w, m >= k)
  {
    var first, t := pattern[i].handler, Arrivals(pattern, i) - w;
    match pattern[m]
    case Reads(h) =>
      StageInWindow(pattern, i, j, k, w, m);
      ArriveHeldBack(s, first, t, m > k, h, Window(w)(Arrivals(pattern, m)));
    case Stores(h) =>
      StoreHeldBack(s, first, t, m > k, h);
  }

  lemma {:induction false} IndexHeldBack(pattern: seq<Moment>, i: nat, j: nat, k: nat, w: nat, n: nat)
    requires AllDistinct(pattern) && Overtakes(pattern, i, j, k) && w <= Arrivals(pattern, i) < w + TRANSITIONS - 1
    requires n <= |pattern|
    ensures HeldBack(After(pattern, Window(w), n), pattern[i].handler, Arrivals(pattern, i) - w, n > k)
  {
    if n > 0 {
      IndexHeldBack(pattern, i, j, k, w, n - 1);
      NextMoment(pattern, Window(w), n - 1);
      NextHeldBack(pattern, i, j, k, w, n - 1, After(pattern, Window(w), n - 1));
    }
  }

  lemma WindowHasTransitions(w: nat, n: nat, m: nat)
    requires m <= TRANSITIONS && w + m <= n
    ensures HasTransitions(InOrder(Window(w), n), m) && IndexAfter(InOrder(Window(w), n)) >= m
  {
    var stages := InOrder(Window(w), n);
    assert Picks(stages, seq(m, x => w + x), m);
    IndexIsLongest(stages, m);
  }

  lemma FinalStarted(pattern: seq<Moment>, stages: nat -> Stage)
    requires AllDistinct(pattern)
    ensures Run(Assigned(pattern, stages)).started == InOrder(stages, Arrivals(pattern, |pattern|))
  {
    StartedInOrder(pattern, stages, |pattern|);
    assert Assigned(pattern, stages)[..|pattern|] == Assigned(pattern, stages);
  }

  lemma FinalHeldBack(pattern: seq<Moment>, i: nat, j: nat, k: nat, w: nat)
    requires AllDistinct(pattern) && Overtakes(pattern, i, j, k) && w <= Arrivals(pattern, i) < w + TRANSITIONS - 1
    ensures Run(Assigned(pattern, Window(w))).index <= Arrivals(pattern, i) - w + 1
  {
    IndexHeldBack(pattern, i, j, k, w, |pattern|);
    assert Assigned(pattern, Window(w))[..|pattern|] == Assigned(pattern, Window(w));
  }

  /** If one handler reads between another's read and its store, there are stages for which the
      server forgets the second of two transitions that arrived in order. */
  lemma OverlapForgets(pattern: seq<Moment>, i: nat, j: nat, k: nat, w: nat)
    requires AllDistinct(pattern) && Overtakes(pattern, i, j, k) && w <= Arrivals(pattern, i) < w + TRANSITIONS - 1
    ensures var s := Run(Assigned(pattern, Window(w)));
      && s.index <= Arrivals(pattern, i) - w + 1 < IndexAfter(s.started)
      && s.started == InOrder(Window(w), Arrivals(pattern, |pattern|))
  {
    FinalHeldBack(pattern, i, j, k, w);
    FinalStarted(pattern, Window(w));
    ArrivalsGrow(pattern, i, j);
    ArrivalsGrow(pattern, j, |pattern|);
    WindowHasTransitions(w, Arrivals(pattern, |pattern|), Arrivals(pattern, i) - w + 2);
  }

  // ---- Exactly when ----

  /** When all handlers are done, the index has counted the transitions that arrived in order. */
  predicate Recognises(pattern: seq<Moment>, stages: nat -> Stage) {
    var s := Run(Assigned(pattern, stages));
    s.index == IndexAfter(s.started)
  }

  /** The server recognises what arrives, for all stages, exactly if its handlers do not overlap. */
  lemma RecognisesExactly(pattern: seq<Moment>)
    requires Complete(pattern)
    ensures (forall stages: nat -> Stage :: Recognises(pattern, stages)) <==> !Overlaps(pattern)
  {
    if Overlaps(pattern) {
      var i, j, k :| Overtakes(pattern, i, j, k);
      OverlapForgets(pattern, i, j, k, Arrivals(pattern, i));
      assert !Recognises(pattern, Window(Arrivals(pattern, i)));
    } else {
      forall stages: nat -> Stage ensures Recognises(pattern, stages) {
        AllRecognised(pattern, stages);
      }
    }
  }

  /** Whether a final query after all handlers is ready exactly if the five transitions arrived. */
  ghost predicate ReadyIsRight(pattern: seq<Moment>, stages: nat -> Stage) {
    var s := Run(Assigned(pattern, stages));
    FinalReady(s) <==> HasTransitions(s.started, TRANSITIONS)
  }

  lemma {:induction false} IndexAtMostLength(stages: seq<Stage>)
    ensures IndexAfter(stages) <= |stages|
  {
    if stages != [] { IndexAtMostLength(stages[..|stages| - 1]); }
  }

  lemma FewAreRight(pattern: seq<Moment>, stages: nat -> Stage)
    requires Complete(pattern) && Arrivals(pattern, |pattern|) < TRANSITIONS
    ensures ReadyIsRight(pattern, stages)
  {
    var s := Run(Assigned(pattern, stages));
    FinalStarted(pattern, stages);
    RunKeeps(Assigned(pattern, stages));
    IndexAtMostLength(s.started);
    IndexIsLongest(s.started, TRANSITIONS);
  }

  lemma OverlapIsNotReady(pattern: seq<Moment>)
    requires Complete(pattern) && Overlaps(pattern) && Arrivals(pattern, |pattern|) >= TRANSITIONS
    ensures exists stages: nat -> Stage :: !ReadyIsRight(pattern, stages)
  {
    var i, j, k :| Overtakes(pattern, i, j, k);
    var n, p := Arrivals(pattern, |pattern|), Arrivals(pattern, i);
    ArrivalsGrow(pattern, i, j);
    ArrivalsGrow(pattern, j, |pattern|);
    var w := if p <= n - TRANSITIONS then p else n - TRANSITIONS;
    OverlapForgets(pattern, i, j, k, w);
    WindowHasTransitions(w, n, TRANSITIONS);
    assert !ReadyIsRight(pattern, Window(w));
  }

  /** The final answer is right, for all stages, exactly if no handlers overlap or there are too
      few for five transitions. */
  lemma ReadyIsRightExactly(pattern: seq<Moment>)
    requires Complete(pattern)
    ensures (forall stages: nat -> Stage :: ReadyIsRight(pattern, stages)) <==>
            !Overlaps(pattern) || Arrivals(pattern, |pattern|) < TRANSITIONS
  {
    var n := Arrivals(pattern, |pattern|);
    if n < TRANSITIONS {
      forall stages: nat -> Stage ensures ReadyIsRight(pattern, stages) {
        FewAreRight(pattern, stages);
      }
    } else if Overlaps(pattern) {
      OverlapIsNotReady(pattern);
    } else {
      RecognisesExactly(pattern);
      forall stages: nat -> Stage ensures ReadyIsRight(pattern, stages) {
        assert Recognises(pattern, stages);
        IndexIsLongest(Run(Assigned(pattern, stages)).started, TRANSITIONS);
      }
    }
  }

  // ---- The router ----

  /** What the router looks at in a request, and whether the check had armed it by then. */
  datatype Query = Query(list: bool, stage: Stage, duplicate: bool, post: bool, fetch: bool, armed: bool)

  predicate IsTransitionRead(q: Query) { !q.armed && q.list && q.stage < TRANSITIONS && q.post && q.fetch }

  predicate IsFinalQuery(q: Query) { q.list && q.stage == FINAL && !q.duplicate && q.armed && q.post && q.fetch }

  /** The first final query of a history. */
  predicate FirstFinal(history: seq<Query>, i: int) {
    0 <= i < |history| && IsFinalQuery(history[i]) && forall j :: 0 <= j < i ==> !IsFinalQuery(history[j])
  }

  function Transitions(history: seq<Query>): nat {
    if history == [] then 0
    else Transitions(history[..|history| - 1]) + if IsTransitionRead(history[|history| - 1]) then 1 else 0
  }

  class Router {
    var observed: nat
    var approved: nat
    var blocked: nat
    var transitionReads: nat
    ghost var history: seq<Query>
    ghost var forwarded: set<nat>        // which requests were let through

    /** Exactly the transitions read before arming and the first final query go through. */
    ghost predicate Valid() reads this {
      && observed == approved + blocked && approved <= 1
      && transitionReads == Transitions(history) && observed + transitionReads == |history|
      && (approved == 1 <==> exists i :: FirstFinal(history, i))
      && (forall i :: i in forwarded <==>
            0 <= i < |history| && (IsTransitionRead(history[i]) || FirstFinal(history, i)))
    }

    constructor ()
      ensures Valid() && history == []
    {
      observed, approved, blocked, transitionReads, history, forwarded := 0, 0, 0, 0, [], {};
    }

    method Route(q: Query) returns (through: bool)
      requires Valid()
      modifies this
      ensures Valid() && history == old(history) + [q]
      ensures through <==> |old(history)| in forwarded
    {
      ghost var before, n := history, |history|;
      history := history + [q];
      assert history[..n] == before;
      FirstFinalStays(before, q);
      if IsTransitionRead(q) {
        transitionReads := transitionReads + 1;
        forwarded := forwarded + {n};
        return true;
      }
      observed := observed + 1;
      if IsFinalQuery(q) && approved == 0 {
        approved := approved + 1;
        forwarded := forwarded + {n};
        return true;
      }
      blocked := blocked + 1;
      return false;
    }
  }

  lemma FirstFinalStays(before: seq<Query>, q: Query)
    ensures forall i :: i != |before| ==> (FirstFinal(before + [q], i) <==> FirstFinal(before, i))
    ensures FirstFinal(before + [q], |before|) <==> IsFinalQuery(q) && !exists i :: FirstFinal(before, i)
    ensures (exists i :: FirstFinal(before + [q], i)) <==> IsFinalQuery(q) || exists i :: FirstFinal(before, i)
  {
    var after := before + [q];
    forall i | i != |before| ensures FirstFinal(after, i) <==> FirstFinal(before, i) {
      if FirstFinal(after, i) {
        forall j | 0 <= j < i ensures !IsFinalQuery(before[j]) {
          assert after[j] == before[j];
        }
      }
    }
    FirstExists(before);
    if IsFinalQuery(q) && !exists i :: FirstFinal(before, i) {
      assert FirstFinal(after, |before|);
    }
    if FirstFinal(after, |before|) {
      forall i | 0 <= i < |before| ensures !IsFinalQuery(before[i]) {
        assert after[i] == before[i];
      }
    }
    if exists i :: FirstFinal(before, i) {
      var i :| FirstFinal(before, i);
      assert FirstFinal(after, i);
    }
  }

  /** If there is a final query, there is a first one. */
  lemma {:induction false} FirstExists(history: seq<Query>)
    ensures (exists i :: FirstFinal(history, i)) <==> exists j :: 0 <= j < |history| && IsFinalQuery(history[j])
  {
    if history != [] {
      var init := history[..|history| - 1];
      FirstExists(init);
      if exists i :: FirstFinal(init, i) {
        var i :| FirstFinal(init, i);
        assert FirstFinal(history, i);
      } else if IsFinalQuery(history[|history| - 1]) {
        forall j | 0 <= j < |init| ensures !IsFinalQuery(history[j]) {
          assert init[j] == history[j];
        }
        assert FirstFinal(history, |init|);
      } else {
        forall j | 0 <= j < |history| ensures !IsFinalQuery(history[j]) {
          if j < |init| { assert init[j] == history[j]; }
        }
      }
    }
  }
}
