/** The pool that post-processes comments beside the review loop (internal/llmloop/pool.go): a semaphore,
    one wait group for the pool and one for each key, and units of work that may panic.

    A step is one atomic action of one goroutine. `Run` folds any sequence of events, so a statement about
    `Run` covers every interleaving of submissions and units and every behaviour of the submitted work. */
module WorkerPool {
  import opened Options

  type Comment = string

  /** Where a unit stands. Keyed: counted under its key and not yet started. Queued: its goroutine waits
      for a permit. Running: the submitted work runs. Unwinding: it has returned or its panic has been
      recovered. Released: the permit is back. KeyDone: signed off from its key. Finished: from the pool. */
  datatype Stage = Keyed | Queued | Running | Unwinding | Released | KeyDone | Finished

  datatype Unit = Unit(key: Option<string>, stage: Stage, comments: seq<Comment>)

  /** `used` is how many permits are out, `wg` and `keys` are the counters of the wait groups. */
  datatype Pool = Pool(
    cap: nat, used: int, wg: int, keys: map<string, int>, results: seq<Comment>, units: seq<Unit>)

  datatype Event =
    | Register(key: string)
    | Submit
    | Launch(u: nat)
    | Acquire(u: nat)
    | Return(u: nat, comments: seq<Comment>)
    | Panic(u: nat)
    | Release(u: nat)
    | SignKey(u: nat)
    | Finish(u: nat)

  const DEFAULT_WORKERS := 8

  /** NewCommentWorkerPool */
  function NewPool(workerCount: int): (p: Pool) {
    Pool(if workerCount <= 0 then DEFAULT_WORKERS else workerCount, 0, 0, map[], [], [])
  }

  predicate Submission(e: Event) { e.Register? || e.Submit? }

  /** The event is a step of unit `u`. */
  predicate IsStepOf(e: Event, u: Option<nat>) {
    !Submission(e) && Some(e.u) == u
  }

  /** Whether the action can happen: a full semaphore blocks Acquire and an empty one Release; a wait
      group at zero has nobody to sign off. */
  predicate Enabled(p: Pool, e: Event) {
    Submission(e) ||
    (e.u < |p.units| &&
     var unit := p.units[e.u];
     match e
     case Launch(_) => unit.stage.Keyed?
     case Acquire(_) => unit.stage.Queued? && p.used < p.cap
     case Return(_, _) => unit.stage.Running?
     case Panic(_) => unit.stage.Running?
     case Release(_) => unit.stage.Unwinding? && p.used > 0
     case SignKey(_) => unit.stage.Released? && unit.key.Some? && Counter(p, unit.key.value) > 0
     case Finish(_) => (unit.stage.KeyDone? || (unit.stage.Released? && unit.key.None?)) && p.wg > 0)
  }

  function Counter(p: Pool, key: string): int {
    if key in p.keys then p.keys[key] else 0
  }

  function Move(p: Pool, u: nat, stage: Stage): Pool
    requires u < |p.units|
  {
    p.(units := p.units[u := p.units[u].(stage := stage)])
  }

  function NewUnit(e: Event): Unit
    requires Submission(e)
  {
    if e.Submit? then Unit(None, Queued, []) else Unit(Some(e.key), Keyed, [])
  }

  /** One event; one that cannot happen in the current state changes nothing. */
  function Step(p: Pool, e: Event): Pool {
    if !Enabled(p, e) then p
    else match e
      case Register(k) => p.(keys := p.keys[k := Counter(p, k) + 1], units := p.units + [NewUnit(e)])
      case Submit => p.(wg := p.wg + 1, units := p.units + [NewUnit(e)])
      case Launch(u) => Move(p.(wg := p.wg + 1), u, Queued)
      case Acquire(u) => Move(p.(used := p.used + 1), u, Running)
      case Return(u, comments) =>
        p.(results := p.results + comments, units := p.units[u := Unit(p.units[u].key, Unwinding, comments)])
      case Panic(u) => Move(p, u, Unwinding)
      case Release(u) => Move(p.(used := p.used - 1), u, Released)
      case SignKey(u) =>
        var k := p.units[u].key.value;
        Move(p.(keys := p.keys[k := Counter(p, k) - 1]), u, KeyDone)
      case Finish(u) => Move(p.(wg := p.wg - 1), u, Finished)
  }

  function Run(p: Pool, events: seq<Event>): Pool {
    if events == [] then p else Step(Run(p, events[..|events| - 1]), events[|events| - 1])
  }

  // ---------------------------------------------------------------- counting units

  datatype Tally = Permits | Members | Under(key: string) | Work

  /** What one unit contributes: a permit from acquiring to releasing it, a member of the pool's group from
      start to end, a member of its key's group from registration on, and the steps it has left to make. */
  function Weight(t: Tally, unit: Unit): nat {
    match t
    case Permits => if unit.stage.Running? || unit.stage.Unwinding? then 1 else 0
    case Members => if unit.stage.Keyed? || unit.stage.Finished? then 0 else 1
    case Under(k) =>
      if unit.key == Some(k) && !unit.stage.KeyDone? && !unit.stage.Finished? then 1 else 0
    case Work =>
      match unit.stage
      case Keyed => 6
      case Queued => 5
      case Running => 4
      case Unwinding => 3
      case Released => 2
      case KeyDone => 1
      case Finished => 0
  }

  function Tallied(t: Tally, units: seq<Unit>): nat {
    if units == [] then 0 else Tallied(t, units[..|units| - 1]) + Weight(t, units[|units| - 1])
  }

  function Collected(units: seq<Unit>): multiset<Comment> {
    if units == [] then multiset{}
    else Collected(units[..|units| - 1]) + multiset(units[|units| - 1].comments)
  }

  lemma {:induction false} TalliedUpdate(t: Tally, units: seq<Unit>, u: nat, unit: Unit)
    requires u < |units|
    ensures Tallied(t, units[u := unit]) == Tallied(t, units) - Weight(t, units[u]) + Weight(t, unit)
    decreases |units|
  {
    var n := |units| - 1;
    if u < n {
      TalliedUpdate(t, units[..n], u, unit);
      assert units[u := unit][..n] == units[..n][u := unit];
    } else {
      assert units[u := unit][..n] == units[..n];
    }
  }

  lemma TalliedAdd(t: Tally, units: seq<Unit>, unit: Unit)
    ensures Tallied(t, units + [unit]) == Tallied(t, units) + Weight(t, unit)
  {
    assert (units + [unit])[..|units|] == units;
  }

  lemma {:induction false} TalliedZero(t: Tally, units: seq<Unit>)
    ensures Tallied(t, units) == 0 <==> forall u :: 0 <= u < |units| ==> Weight(t, units[u]) == 0
    decreases |units|
  {
    if units != [] {
      var n := |units| - 1;
      TalliedZero(t, units[..n]);
      assert forall u :: 0 <= u < n ==> units[..n][u] == units[u];
    }
  }

  lemma {:induction false} CollectedUpdate(units: seq<Unit>, u: nat, unit: Unit)
    requires u < |units| && units[u].comments == []
    ensures Collected(units[u := unit]) == Collected(units) + multiset(unit.comments)
    decreases |units|
  {
    var n := |units| - 1;
    if u < n {
      CollectedUpdate(units[..n], u, unit);
      assert units[u := unit][..n] == units[..n][u := unit];
    } else {
      assert units[u := unit][..n] == units[..n];
    }
  }

  lemma {:induction false} CollectedSame(a: seq<Unit>, b: seq<Unit>)
    requires |a| == |b| && forall u :: 0 <= u < |a| ==> a[u].comments == b[u].comments
    ensures Collected(a) == Collected(b)
    decreases |a|
  {
    if a != [] {
      CollectedSame(a[..|a| - 1], b[..|b| - 1]);
    }
  }

  // ---------------------------------------------------------------- what every run keeps

  /** The semaphore and both kinds of counter say exactly which units they stand for. */
  predicate Counted(p: Pool) {
    && p.used == Tallied(Permits, p.units) <= p.cap
    && p.wg == Tallied(Members, p.units)
  }

  predicate KeyCounted(p: Pool, k: string) {
    Counter(p, k) == Tallied(Under(k), p.units)
  }

  /** The results are the comments of all units so far, each once; one that has not returned has none. */
  predicate Gathered(p: Pool) {
    && multiset(p.results) == Collected(p.units)
    && forall u :: 0 <= u < |p.units| ==> (p.units[u].stage in {Keyed, Queued, Running} ==> p.units[u].comments == [])
  }

  lemma StepTallies(p: Pool, e: Event, t: Tally)
    requires Enabled(p, e)
    ensures var before, after := p.units, Step(p, e).units;
            Tallied(t, after) ==
            if Submission(e) then Tallied(t, before) + Weight(t, NewUnit(e))
            else Tallied(t, before) - Weight(t, before[e.u]) + Weight(t, after[e.u])
  {
    if Submission(e) {
      TalliedAdd(t, p.units, NewUnit(e));
    } else {
      TalliedUpdate(t, p.units, e.u, Step(p, e).units[e.u]);
      assert Step(p, e).units == p.units[e.u := Step(p, e).units[e.u]];
    }
  }

  lemma StepKeepsCounts(p: Pool, e: Event)
    requires Counted(p)
    ensures Counted(Step(p, e))
  {
    if Enabled(p, e) {
      hide Tallied;
      StepTallies(p, e, Permits);
      StepTallies(p, e, Members);
    }
  }

  lemma StepKeepsKeys(p: Pool, e: Event, k: string)
    requires KeyCounted(p, k)
    ensures KeyCounted(Step(p, e), k)
  {
    if Enabled(p, e) {
      hide Tallied;
      StepTallies(p, e, Under(k));
    }
  }

  lemma ReturnKeepsResults(p: Pool, u: nat, comments: seq<Comment>)
    requires Gathered(p) && Enabled(p, Return(u, comments))
    ensures Gathered(Step(p, Return(u, comments)))
  {
    var unit := Unit(p.units[u].key, Unwinding, comments);
    hide Collected;
    CollectedUpdate(p.units, u, unit);
    assert Step(p, Return(u, comments)).units == p.units[u := unit];
  }

  lemma SubmissionKeepsResults(p: Pool, e: Event)
    requires Gathered(p) && Enabled(p, e) && Submission(e)
    ensures Gathered(Step(p, e))
  {
    var q := Step(p, e);
    assert q.units == p.units + [NewUnit(e)] && q.results == p.results;
    assert q.units[..|p.units|] == p.units;
    assert Collected(q.units) == Collected(p.units) + multiset(NewUnit(e).comments);
  }

  /** Any other step changes a unit's stage, and not back to one before its return. */
  lemma OtherStepsSpareResults(p: Pool, e: Event)
    requires Enabled(p, e) && !Submission(e) && !e.Return?
    ensures var q := Step(p, e);
            && q.results == p.results && |q.units| == |p.units|
            && forall u :: 0 <= u < |p.units| ==>
                 && q.units[u].comments == p.units[u].comments
                 && (q.units[u].stage in {Keyed, Queued, Running} ==> p.units[u].stage in {Keyed, Queued, Running})
  {
  }

  lemma StepKeepsResults(p: Pool, e: Event)
    requires Gathered(p)
    ensures Gathered(Step(p, e))
  {
    hide Collected, Step, Enabled;
    if !Enabled(p, e) {
      IdleStep(p, e);
    } else if Submission(e) {
      SubmissionKeepsResults(p, e);
    } else if e.Return? {
      ReturnKeepsResults(p, e.u, e.comments);
    } else {
      OtherStepsSpareResults(p, e);
      CollectedSame(p.units, Step(p, e).units);
    }
  }

  lemma IdleStep(p: Pool, e: Event)
    requires !Enabled(p, e)
    ensures Step(p, e) == p
  {
  }

  lemma NewPoolCounts(workerCount: int, k: string)
    ensures var p := NewPool(workerCount);
            Counted(p) && KeyCounted(p, k) && Gathered(p) && p.cap > 0
  {
  }

  lemma StepKeepsCap(p: Pool, e: Event)
    ensures Step(p, e).cap == p.cap
  {
  }

  /** The semaphore's permits, both kinds of wait group and the results are exact in every state of every
      run: nobody ever signs off a group that is at zero, and no comment is lost or collected twice. */
  lemma {:induction false} RunKeepsCounts(workerCount: int, events: seq<Event>, k: string)
    ensures var p := Run(NewPool(workerCount), events);
            Counted(p) && KeyCounted(p, k) && Gathered(p) && p.cap > 0
  {
    hide Counted, KeyCounted, Gathered, Step;
    if events == [] {
      NewPoolCounts(workerCount, k);
    } else {
      var m := |events| - 1;
      RunKeepsCounts(workerCount, events[..m], k);
      var p := Run(NewPool(workerCount), events[..m]);
      StepKeepsCounts(p, events[m]);
      StepKeepsKeys(p, events[m], k);
      StepKeepsResults(p, events[m]);
      StepKeepsCap(p, events[m]);
    }
  }

  /** Units only come, and a step of another unit leaves this one as it is. */
  lemma StepSparesOthers(p: Pool, e: Event, mine: Option<nat>)
    requires !IsStepOf(e, mine)
    ensures |p.units| <= |Step(p, e).units|
    ensures mine.Some? && mine.value < |p.units| ==> Step(p, e).units[mine.value] == p.units[mine.value]
  {
    match e {
      case Register(_) =>
      case Submit =>
      case _ =>
        if Enabled(p, e) {
          assert Step(p, e).units == p.units[e.u := Step(p, e).units[e.u]];
        }
    }
  }

  // ---------------------------------------------------------------- at most `cap` bodies

  lemma {:induction false} DistinctUnitsTally(units: seq<Unit>, ids: set<nat>)
    requires forall u :: u in ids ==> u < |units| && Weight(Permits, units[u]) == 1
    ensures |ids| <= Tallied(Permits, units)
    decreases |units|
  {
    if units == [] {
      assert ids == {};
    } else {
      var n := |units| - 1;
      DistinctUnitsTally(units[..n], ids - {n});
    }
  }

  /** However the goroutines interleave, no more bodies run at once than the pool has workers. */
  lemma BodiesAreBounded(workerCount: int, events: seq<Event>, ids: set<nat>)
    requires var p := Run(NewPool(workerCount), events);
             forall u :: u in ids ==> u < |p.units| && p.units[u].stage.Running?
    ensures |ids| <= if workerCount <= 0 then DEFAULT_WORKERS else workerCount
  {
    var p := Run(NewPool(workerCount), events);
    RunKeepsCounts(workerCount, events, "");
    DistinctUnitsTally(p.units, ids);
    RunKeepsCap(NewPool(workerCount), events);
  }

  lemma {:induction false} RunKeepsCap(p: Pool, events: seq<Event>)
    ensures Run(p, events).cap == p.cap
  {
    if events != [] {
      RunKeepsCap(p, events[..|events| - 1]);
    }
  }

  // ---------------------------------------------------------------- waiting

  /** kwg.Wait() returns when the key's counter is at zero; an unknown key has none. */
  predicate KeyAwaited(p: Pool, key: string) { Counter(p, key) == 0 }

  /** AwaitKey can return exactly when every unit submitted under the key has run its body to its end or
      its panic, has given its permit back and has signed off. */
  lemma AwaitKeyReturnsIff(workerCount: int, events: seq<Event>, key: string)
    ensures var p := Run(NewPool(workerCount), events);
            KeyAwaited(p, key) <==>
            forall u :: 0 <= u < |p.units| && p.units[u].key == Some(key) ==> p.units[u].stage in {KeyDone, Finished}
  {
    var p := Run(NewPool(workerCount), events);
    RunKeepsCounts(workerCount, events, key);
    TalliedZero(Under(key), p.units);
    assert forall u :: 0 <= u < |p.units| ==>
      (Weight(Under(key), p.units[u]) == 0 <==>
       (p.units[u].key == Some(key) ==> p.units[u].stage in {KeyDone, Finished}));
  }

  /** Await can return exactly when every started unit is through; the results then hold every comment
      any unit returned, and all permits are back. */
  lemma AwaitReturnsIff(workerCount: int, events: seq<Event>)
    ensures var p := Run(NewPool(workerCount), events);
            && (p.wg == 0 <==> forall u :: 0 <= u < |p.units| ==> p.units[u].stage in {Keyed, Finished})
            && (p.wg == 0 ==> p.used == 0 && multiset(p.results) == Collected(p.units))
  {
    var p := Run(NewPool(workerCount), events);
    RunKeepsCounts(workerCount, events, "");
    TalliedZero(Members, p.units);
    TalliedZero(Permits, p.units);
    assert forall u :: 0 <= u < |p.units| ==>
      (Weight(Members, p.units[u]) == 0 <==> p.units[u].stage in {Keyed, Finished});
  }

  // ---------------------------------------------------------------- progress

  /** The next action of a unit, when its body simply returns. */
  function Next(u: nat, unit: Unit): Event {
    match unit.stage
    case Keyed => Launch(u)
    case Queued => Acquire(u)
    case Running => Return(u, [])
    case Unwinding => Release(u)
    case Released => if unit.key.Some? then SignKey(u) else Finish(u)
    case KeyDone => Finish(u)
    case Finished => Finish(u)
  }

  lemma {:induction false} TalliedHolds(t: Tally, units: seq<Unit>, u: nat)
    requires u < |units|
    ensures Tallied(t, units) >= Weight(t, units[u])
    decreases |units|
  {
    if u < |units| - 1 {
      TalliedHolds(t, units[..|units| - 1], u);
    }
  }

  lemma CountersAllow(p: Pool, u: nat)
    requires Counted(p) && u < |p.units| && !p.units[u].stage.Finished?
    requires p.units[u].key.Some? ==> KeyCounted(p, p.units[u].key.value)
    requires !p.units[u].stage.Queued?
    ensures Enabled(p, Next(u, p.units[u]))
  {
    hide Tallied;
    TalliedHolds(Permits, p.units, u);
    TalliedHolds(Members, p.units, u);
    if p.units[u].key.Some? {
      TalliedHolds(Under(p.units[u].key.value), p.units, u);
    }
  }

  lemma {:induction false} PermitHolder(units: seq<Unit>) returns (u: nat)
    requires Tallied(Permits, units) > 0
    ensures u < |units| && Weight(Permits, units[u]) == 1
    decreases |units|
  {
    var n := |units| - 1;
    if Weight(Permits, units[n]) == 1 {
      u := n;
    } else {
      u := PermitHolder(units[..n]);
    }
  }

  /** No run of the pool gets stuck: while a unit is not through, some unit can make its next step. */
  lemma SomeUnitCanMove(workerCount: int, events: seq<Event>, u: nat) returns (v: nat)
    requires var p := Run(NewPool(workerCount), events); u < |p.units| && !p.units[u].stage.Finished?
    ensures var p := Run(NewPool(workerCount), events);
            v < |p.units| && Enabled(p, Next(v, p.units[v])) && !p.units[v].stage.Finished?
  {
    var p := Run(NewPool(workerCount), events);
    RunKeepsCounts(workerCount, events, "");
    v := u;
    if p.units[u].stage.Queued? && p.used >= p.cap {
      v := PermitHolder(p.units);
    }
    if !p.units[v].stage.Queued? {
      if p.units[v].key.Some? {
        RunKeepsCounts(workerCount, events, p.units[v].key.value);
      }
      CountersAllow(p, v);
    }
  }

  /** Every step of a unit leaves it one step less, so that after the last submission only so many can follow. */
  lemma StepWorks(p: Pool, e: Event)
    requires Enabled(p, e) && !Submission(e)
    ensures Tallied(Work, Step(p, e).units) < Tallied(Work, p.units)
  {
    StepTallies(p, e, Work);
  }

  /** All of `events` happen one after the other. */
  predicate AllHappen(p: Pool, events: seq<Event>)
    decreases |events|
  {
    events == [] ||
    var n := |events| - 1;
    AllHappen(p, events[..n]) && Enabled(Run(p, events[..n]), events[n])
  }

  /** As many steps as there were, so much less work is left. */
  lemma {:induction false} UnitsFinishInTime(p: Pool, events: seq<Event>)
    requires AllHappen(p, events) && forall i :: 0 <= i < |events| ==> !Submission(events[i])
    ensures |events| + Tallied(Work, Run(p, events).units) <= Tallied(Work, p.units)
    decreases |events|
  {
    if events != [] {
      hide Tallied, Enabled, Step;
      var n := |events| - 1;
      UnitsFinishInTime(p, events[..n]);
      StepWorks(Run(p, events[..n]), events[n]);
    }
  }

  // ---------------------------------------------------------------- what the units returned

  /** The comments of the Return events, in their order: those of one unit, or of all. */
  function Returned(events: seq<Event>, u: Option<nat>): seq<Comment> {
    if events == [] then []
    else
      var n := |events| - 1;
      Returned(events[..n], u) + if events[n].Return? && (u.None? || u == Some(events[n].u)) then events[n].comments else []
  }

  /** The results are what the units returned, one return after the other, and each unit's own comments are
      those of its own return. */
  ghost predicate Collects(p: Pool, events: seq<Event>) {
    && p.results == Returned(events, None)
    && (forall u :: 0 <= u < |p.units| ==> p.units[u].comments == Returned(events, Some(u)))
    && (forall u: nat :: |p.units| <= u ==> Returned(events, Some(u)) == [])
  }

  /** Nothing a unit returned is lost, cut or listed under another unit. */
  lemma {:induction false} ResultsAreReturned(workerCount: int, events: seq<Event>)
    requires AllHappen(NewPool(workerCount), events)
    ensures Collects(Run(NewPool(workerCount), events), events)
    decreases |events|
  {
    if events != [] {
      hide Collects, Enabled, Step, Gathered, Counted, KeyCounted, NewPool;
      var n := |events| - 1;
      ResultsAreReturned(workerCount, events[..n]);
      RunKeepsCounts(workerCount, events[..n], "");
      StepCollects(Run(NewPool(workerCount), events[..n]), events);
    }
  }

  lemma StepCollects(p: Pool, events: seq<Event>)
    requires events != [] && Collects(p, events[..|events| - 1])
    requires Gathered(p) && Enabled(p, events[|events| - 1])
    ensures Collects(Step(p, events[|events| - 1]), events)
  {
    var n := |events| - 1;
    var q := Step(p, events[n]);
    StepReturns(p, events[n]);
    hide Step, Gathered, Enabled, Returned;
    ReturnedAdds(events, None);
    forall u: nat
      ensures if u < |q.units| then q.units[u].comments == Returned(events, Some(u)) else Returned(events, Some(u)) == []
    {
      ReturnedAdds(events, Some(u));
    }
  }

  lemma ReturnedAdds(events: seq<Event>, u: Option<nat>)
    requires events != []
    ensures var n := |events| - 1;
            Returned(events, u) == Returned(events[..n], u)
              + if events[n].Return? && (u.None? || u == Some(events[n].u)) then events[n].comments else []
  {
  }

  /** One step adds what it returns to the results and to its unit, which had none before. */
  lemma StepReturns(p: Pool, e: Event)
    requires Gathered(p) && Enabled(p, e)
    ensures var q := Step(p, e);
            && q.results == p.results + (if e.Return? then e.comments else [])
            && |q.units| == |p.units| + (if Submission(e) then 1 else 0)
            && (!Submission(e) ==> e.u < |p.units|)
            && forall u :: 0 <= u < |q.units| ==>
                 && q.units[u].comments ==
                      (if u < |p.units| then p.units[u].comments else [])
                      + if e.Return? && e.u == u then e.comments else []
  {
    hide Collected;
  }

  /** Events that could not happen change nothing. */
  function Happened(p: Pool, events: seq<Event>): seq<Event> {
    if events == [] then []
    else
      var n := |events| - 1;
      Happened(p, events[..n]) + if Enabled(Run(p, events[..n]), events[n]) then [events[n]] else []
  }

  lemma {:induction false} RunIsWhatHappened(p: Pool, events: seq<Event>)
    ensures var h := Happened(p, events);
            AllHappen(p, h) && Run(p, h) == Run(p, events)
  {
    if events != [] {
      hide Enabled;
      var n := |events| - 1;
      var h := Happened(p, events[..n]);
      RunIsWhatHappened(p, events[..n]);
      if Enabled(Run(p, events[..n]), events[n]) {
        assert (h + [events[n]])[..|h|] == h;
      } else {
        assert h + [] == h;
        IdleStep(Run(p, events[..n]), events[n]);
      }
    }
  }
}

/** The pool in the form the program gives it: fields that several goroutines update, each action under its
    lock. `events` records what happened; every method keeps the pool in a state that run leads to, so that
    the theorems about `Run` hold of this code. A goroutine that is blocked stays so until somebody else
    moves; `patience` bounds how often it is looked at. */
module PoolRunner {
  import opened Options
  import opened WorkerPool

  class CommentWorkerPool {
    const workerCount: int
    const cap: nat
    var used: int
    var wg: int
    var keys: map<string, int>
    var results: seq<Comment>
    var units: seq<Unit>
    ghost var events: seq<Event>

    function View(): Pool
      reads this
    {
      Pool(cap, used, wg, keys, results, units)
    }

    ghost predicate Valid()
      reads this
    {
      && View() == Run(NewPool(workerCount), events)
      && AllHappen(NewPool(workerCount), events)
    }

    constructor (workerCount: int)
      ensures Valid() && this.workerCount == workerCount && events == []
    {
      this.workerCount := workerCount;
      var n := workerCount;
      if n <= 0 {
        n := DEFAULT_WORKERS;
      }
      cap := n;
      used, wg, keys, results, units := 0, 0, map[], [], [];
      events := [];
    }

    /** Notes that the fields have just moved by event `e`. */
    ghost method Record(before: Pool, e: Event)
      requires before == Run(NewPool(workerCount), events) && View() == Step(before, e)
      requires AllHappen(NewPool(workerCount), events) && Enabled(before, e)
      modifies `events
      ensures Valid() && events == old(events) + [e]
    {
      events := events + [e];
      assert events[..|events| - 1] == old(events);
    }

    /** One action of one goroutine. */
    method Act(e: Event)
      requires Valid() && Enabled(View(), e)
      modifies this
      ensures Valid() && View() == Step(old(View()), e) && events == old(events) + [e]
    {
      hide Run;
      ghost var before := View();
      match e {
        case Register(k) =>
          keys := keys[k := (if k in keys then keys[k] else 0) + 1];
          units := units + [Unit(Some(k), Keyed, [])];
        case Submit =>
          wg := wg + 1;
          units := units + [Unit(None, Queued, [])];
        case Launch(u) =>
          wg := wg + 1;
          units := units[u := units[u].(stage := Queued)];
        case Acquire(u) =>
          used := used + 1;
          units := units[u := units[u].(stage := Running)];
        case Return(u, comments) =>
          results := results + comments;
          units := units[u := Unit(units[u].key, Unwinding, comments)];
        case Panic(u) =>
          units := units[u := units[u].(stage := Unwinding)];
        case Release(u) =>
          used := used - 1;
          units := units[u := units[u].(stage := Released)];
        case SignKey(u) =>
          var k := units[u].key.value;
          keys := keys[k := keys[k] - 1];
          units := units[u := units[u].(stage := KeyDone)];
        case Finish(u) =>
          wg := wg - 1;
          units := units[u := units[u].(stage := Finished)];
      }
      Record(before, e);
    }

    /** Anything the other goroutines do meanwhile: every unit but `mine` moves as it can, and new ones come. */
    method Others(mine: Option<nat>)
      requires Valid()
      modifies this
      ensures Valid() && old(events) <= events && |old(units)| <= |units|
      ensures mine.Some? && mine.value < |old(units)| ==> units[mine.value] == old(units)[mine.value]
    {
      hide Run;
      var n: int := *;
      while n > 0
        invariant Valid() && old(events) <= events && |old(units)| <= |units|
        invariant mine.Some? && mine.value < |old(units)| ==> units[mine.value] == old(units)[mine.value]
      {
        var e: Event := *;
        if !IsStepOf(e, mine) && Enabled(View(), e) {
          StepSparesOthers(View(), e, mine);
          Act(e);
        }
        n := n - 1;
      }
    }

    /** Registers a unit under its key and then starts its goroutine. */
    method SubmitFor(key: string) returns (u: nat)
      requires Valid()
      modifies this
      ensures Valid() && old(events) <= events
      ensures |old(units)| == u < |units| && units[u] == Unit(Some(key), Queued, [])
    {
      hide Run;
      u := |units|;
      Act(Register(key));
      Others(Some(u));
      Act(Launch(u));
    }

    method SubmitUnkeyed() returns (u: nat)
      requires Valid()
      modifies this
      ensures Valid() && events == old(events) + [Submit]
      ensures units == old(units) + [Unit(None, Queued, [])] && u == |old(units)|
    {
      hide Run;
      u := |units|;
      Act(Submit);
    }

    /** Waits for a permit. */
    method AcquirePermit(u: nat, patience: nat) returns (acquired: bool)
      requires Valid() && u < |units| && units[u].stage.Queued?
      modifies this
      ensures Valid() && old(events) <= events && u < |units|
      ensures units[u] == old(units)[u].(stage := if acquired then Running else Queued)
    {
      hide Run;
      var left := patience;
      while used >= cap && left > 0
        invariant Valid() && old(events) <= events && u < |units| && units[u] == old(units)[u]
        decreases left
      {
        Others(Some(u));
        left := left - 1;
      }
      acquired := used < cap;
      if acquired {
        Act(Acquire(u));
      }
    }

    /** Runs the submitted work, which returns comments, perhaps with an error, or panics. */
    method RunBody(u: nat)
      requires Valid() && u < |units| && units[u].stage.Running?
      modifies this
      ensures Valid() && old(events) <= events && u < |units|
      ensures units[u].stage.Unwinding? && units[u].key == old(units)[u].key
      ensures units[u].comments == old(units)[u].comments || exists c :: Return(u, c) in events && units[u].comments == c
    {
      hide Run;
      Others(Some(u));
      var outcome: Option<seq<Comment>> := *;
      match outcome {
        case Some(comments) =>
          Act(Return(u, comments));
          assert events[|events| - 1] == Return(u, comments);
        case None =>
          Act(Panic(u));
      }
    }

    /** The deferred calls, last one first: the permit, the key, the pool. */
    method Unwind(u: nat)
      requires Valid() && u < |units| && units[u].stage.Unwinding?
      modifies this
      ensures Valid() && old(events) <= events && u < |units|
      ensures units[u] == old(units)[u].(stage := Finished)
    {
      hide Run;
      CanMove(u);
      Act(Release(u));
      Others(Some(u));
      CanMove(u);
      if units[u].key.Some? {
        Act(SignKey(u));
        Others(Some(u));
        CanMove(u);
      }
      Act(Finish(u));
    }

    lemma CanMove(u: nat)
      requires Valid() && u < |units| && !units[u].stage.Finished? && !units[u].stage.Queued?
      ensures Enabled(View(), Next(u, units[u]))
    {
      hide Run;
      var key := if units[u].key.Some? then units[u].key.value else "";
      RunKeepsCounts(workerCount, events, key);
      CountersAllow(View(), u);
    }

    /** The goroutine of a unit: it ends with the unit through, unless it is still waiting for a permit. */
    method Goroutine(u: nat, patience: nat) returns (finished: bool)
      requires Valid() && u < |units| && units[u].stage.Queued?
      modifies this
      ensures Valid() && old(events) <= events && u < |units| && units[u].key == old(units)[u].key
      ensures units[u].stage == if finished then Finished else Queued
    {
      hide Run;
      finished := AcquirePermit(u, patience);
      if finished {
        RunBody(u);
        Unwind(u);
      }
    }

    /** Returns once every unit submitted under the key is through with its body and its permit. */
    method AwaitKey(key: string, patience: nat) returns (drained: bool)
      requires Valid()
      modifies this
      ensures Valid() && old(events) <= events
      ensures drained <==> forall u :: 0 <= u < |units| && units[u].key == Some(key) ==> units[u].stage in {KeyDone, Finished}
    {
      hide Run;
      var left := patience;
      if key in keys {
        while key in keys && keys[key] != 0 && left > 0
          invariant Valid() && old(events) <= events
          decreases left
        {
          Others(None);
          left := left - 1;
        }
      }
      drained := key !in keys || keys[key] == 0;
      AwaitKeyReturnsIff(workerCount, events, key);
    }

    /** Returns all results once every started unit is through. */
    method Await(patience: nat) returns (drained: bool, collected: seq<Comment>)
      requires Valid()
      modifies this
      ensures Valid() && old(events) <= events
      ensures drained <==> forall u :: 0 <= u < |units| ==> units[u].stage in {Keyed, Finished}
      ensures drained ==> used == 0
      ensures collected == results == Returned(events, None)
      ensures forall u :: 0 <= u < |units| ==> units[u].comments == Returned(events, Some(u))
    {
      hide Run;
      var left := patience;
      while wg != 0 && left > 0
        invariant Valid() && old(events) <= events
        decreases left
      {
        Others(None);
        left := left - 1;
      }
      drained, collected := wg == 0, results;
      AwaitReturnsIff(workerCount, events);
      ResultsAreReturned(workerCount, events);
    }
  }
}
