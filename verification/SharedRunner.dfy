/** One Runner driving several conversations at a time: their compression goroutines sign on to one wait
    group, those of conversations that have long returned included. */
module SharedRunner {
  import opened Conversation
  import opened ReviewLoop
  import opened ReviewLoopJobs

  /** A conversation the Runner was given. */
  datatype Driven = Driven(cfg: Config, prompt: seq<Message>, state: State)

  datatype Runner = Runner(driven: seq<Driven>, bg: int)

  /** A call of RunMainTask, or one step of the i-th conversation or of its goroutines. */
  datatype Move = Begin(cfg: Config, prompt: seq<Message>) | Advance(i: nat, event: Event)

  /** What a step does to the wait group: Add(1) in front of a new goroutine and Done as its last act. */
  function Signed(s: State, e: Event): int {
    match e
    case JobExit(j) => if j < |s.jobs| && s.jobs[j].phase.Published? then -1 else 0
    case Proceed => if s.pc.Spawn? && s.pc.job < |s.jobs| then 1 else 0
    case _ => 0
  }

  function Act(r: Runner, m: Move): Runner {
    match m
    case Begin(cfg, prompt) => r.(driven := r.driven + [Driven(cfg, prompt, Start(cfg, prompt))])
    case Advance(i, e) =>
      if i >= |r.driven| then r
      else
        var d := r.driven[i];
        Runner(r.driven[i := d.(state := Step(d.cfg, d.state, e))], r.bg + Signed(d.state, e))
  }

  function RunAll(moves: seq<Move>): Runner {
    if moves == [] then Runner([], 0) else Act(RunAll(moves[..|moves| - 1]), moves[|moves| - 1])
  }

  /** The events of the i-th conversation. */
  function Own(moves: seq<Move>, i: nat): seq<Event> {
    if moves == [] then []
    else
      var n := |moves| - 1;
      Own(moves[..n], i)
      + match moves[n]
        case Begin(_, _) => []
        case Advance(j, e) => if j == i < |RunAll(moves[..n]).driven| then [e] else []
  }

  /** The goroutines alive in any of the conversations. */
  function AllLive(driven: seq<Driven>): nat {
    if driven == [] then 0 else AllLive(driven[..|driven| - 1]) + Live(driven[|driven| - 1].state.jobs)
  }

  // ---------------------------------------------------------------- conversations do not meet

  lemma {:induction false} NoEventsYet(moves: seq<Move>, i: nat)
    requires i >= |RunAll(moves).driven|
    ensures Own(moves, i) == []
  {
    if moves != [] {
      NoEventsYet(moves[..|moves| - 1], i);
    }
  }

  lemma RunOn(cfg: Config, prompt: seq<Message>, events: seq<Event>, e: Event)
    ensures RunFrom(cfg, prompt, events + [e]) == Step(cfg, RunFrom(cfg, prompt, events), e)
  {
    hide Step;
    assert (events + [e])[..|events|] == events;
  }

  /** Whatever else the Runner drives, each conversation is a run of its own events, so every statement
      about such runs holds of it. */
  lemma {:induction false} ConversationsRunAlone(moves: seq<Move>, i: nat)
    requires i < |RunAll(moves).driven|
    ensures var d := RunAll(moves).driven[i];
            d.state == RunFrom(d.cfg, d.prompt, Own(moves, i))
  {
    hide Step, Signed, RunFrom;
    var n := |moves| - 1;
    var before := RunAll(moves[..n]);
    assert RunAll(moves) == Act(before, moves[n]);
    if i >= |before.driven| {
      NoEventsYet(moves[..n], i);
      assert Own(moves, i) == [] + [];
      RunsFromStart(moves[n].cfg, moves[n].prompt);
    } else {
      ConversationsRunAlone(moves[..n], i);
      if moves[n].Advance? && moves[n].i == i {
        var d := before.driven[i];
        RunOn(d.cfg, d.prompt, Own(moves[..n], i), moves[n].event);
      } else {
        assert Own(moves, i) == Own(moves[..n], i) + [] == Own(moves[..n], i);
        assert RunAll(moves).driven[i] == before.driven[i];
      }
    }
  }

  lemma RunsFromStart(cfg: Config, prompt: seq<Message>)
    ensures RunFrom(cfg, prompt, []) == Start(cfg, prompt)
  {
  }

  // ---------------------------------------------------------------- the shared counter

  lemma {:induction false} AllLiveUpdate(driven: seq<Driven>, i: nat, d: Driven)
    requires i < |driven|
    ensures AllLive(driven[i := d]) == AllLive(driven) - Live(driven[i].state.jobs) + Live(d.state.jobs)
  {
    hide Live;
    var n := |driven| - 1;
    if i == n {
      assert driven[i := d][..n] == driven[..n];
    } else {
      assert driven[i := d][..n] == driven[..n][i := d];
      AllLiveUpdate(driven[..n], i, d);
    }
  }

  lemma StepSigns(cfg: Config, s: State, e: Event)
    ensures Step(cfg, s, e).background == s.background + Signed(s, e)
  {
    hide AtLoopHead, AtReply, AfterTools, AtAddNext, AtCompress, AtGrace, Compressed;
    if !e.JobPublish? && !e.JobExit? && !CriticalPC(s.pc) {
      assert Step(cfg, s, e) == s || PrivateStep(s, Step(cfg, s, e));
    }
  }

  /** The counter is that of all conversations together. */
  lemma {:induction false} RunKeepsCounter(moves: seq<Move>)
    ensures RunAll(moves).bg == AllLive(RunAll(moves).driven)
  {
    hide Step, Signed, RunFrom, Live;
    if moves != [] {
      var n := |moves| - 1;
      var before := RunAll(moves[..n]);
      RunKeepsCounter(moves[..n]);
      match moves[n]
      case Begin(cfg, prompt) =>
        assert (before.driven + [Driven(cfg, prompt, Start(cfg, prompt))])[..|before.driven|] == before.driven;
        NoneLive([]);
      case Advance(i, e) =>
        if i < |before.driven| {
          var d := before.driven[i];
          ConversationsRunAlone(moves[..n], i);
          RunKeepsJobs(d.cfg, d.prompt, Own(moves[..n], i));
          StepKeepsJobs(d.cfg, d.state, e);
          StepSigns(d.cfg, d.state, e);
          AllLiveUpdate(before.driven, i, d.(state := Step(d.cfg, d.state, e)));
        }
    }
  }

  lemma {:induction false} NoneAlive(driven: seq<Driven>)
    ensures AllLive(driven) == 0 <==>
            forall i, j :: 0 <= i < |driven| && 0 <= j < |driven[i].state.jobs| ==> !IsLive(driven[i].state.jobs[j])
  {
    hide Live, IsLive;
    if driven != [] {
      var n := |driven| - 1;
      NoneAlive(driven[..n]);
      NoneLive(driven[n].state.jobs);
      assert forall i :: 0 <= i < n ==> driven[i] == driven[..n][i];
    }
  }

  /** WaitBackground: after any moves of any number of conversations the counter is never negative, and it
      is zero exactly when no goroutine of any of them is alive, whether or not RunMainTask has returned; a
      conversation that has returned has no job pending. */
  lemma SharedCounterCountsGoroutines(moves: seq<Move>)
    ensures var r := RunAll(moves);
            && r.bg >= 0
            && (r.bg == 0 <==>
                forall i, j :: 0 <= i < |r.driven| && 0 <= j < |r.driven[i].state.jobs| ==> !IsLive(r.driven[i].state.jobs[j]))
            && (forall i :: 0 <= i < |r.driven| && r.driven[i].state.pc.Returned? ==> r.driven[i].state.pending.None?)
  {
    hide RunAll, IsLive, RunFrom;
    RunKeepsCounter(moves);
    var driven := RunAll(moves).driven;
    NoneAlive(driven);
    forall i | 0 <= i < |driven| && driven[i].state.pc.Returned? ensures driven[i].state.pending.None? {
      ConversationsRunAlone(moves, i);
      WaitGroupCountsGoroutines(driven[i].cfg, driven[i].prompt, Own(moves, i));
    }
  }
}
