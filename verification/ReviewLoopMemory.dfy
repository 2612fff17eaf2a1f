/** How the live conversation moves: by what is said, by a summarising call's answer, and by a finished
    job's result; and what a failed call leaves alone. */
module ReviewLoopMemory {
  import opened Options
  import opened Conversation
  import opened ReviewLoop
  import opened ReviewLoopHistory
  import opened ReviewLoopLimits

  /** What stands behind the first n messages. */
  function Behind(messages: seq<Message>, n: nat): seq<Message> {
    if n < |messages| then messages[n..] else []
  }

  predicate Finishes(s: State, e: Event) {
    && s.pc.SwapJob? && e.Proceed? && s.pending == Some(s.pc.job)
    && s.pc.job < |s.jobs| && s.jobs[s.pc.job].rebuilt.Some?
  }

  predicate Summarises(s: State, e: Event) {
    (s.pc.PreCompress? || s.pc.PostCompress?) && e.CompressionReply?
  }

  /** Every step of the machine, by what it does to the conversation. */
  lemma MessagesMove(cfg: Config, s: State, e: Event)
    ensures var t := Step(cfg, s, e).messages;
            if Summarises(s, e) then exists failed :: Answered(cfg, s.messages, e.reply, t, failed)
            else if Finishes(s, e) then t == s.jobs[s.pc.job].rebuilt.value + Behind(s.messages, |s.jobs[s.pc.job].snapshot|)
            else if s.pc.AwaitReply? && e.ModelReply? && e.response.calls == [] then t == s.messages + Nudging(e.response)
            else if s.pc.AppendTurn? && e.Proceed? then t == s.messages + TurnMessages(s.pc.turn)
            else t == s.messages
  {
    hide Answered, Compressed, AfterTools, Total, TurnMessages, NudgeMessages, Nudging, FinalRound;
    if Summarises(s, e) {
      CompressedAnswers(cfg, s.messages, e.reply);
    } else if s.pc.AwaitReply? && e.ModelReply? {
      NudgeIsTold(e.response);
    } else if s.pc.RunTools? && Answer(s.pc, e) {
      ToolsSayNothing(s, s.pc.response, e.checkpoints);
    }
  }

  lemma ToolsSayNothing(s: State, r: Response, checkpoints: seq<Checkpoint>)
    requires |checkpoints| == |r.calls|
    ensures AfterTools(s, r, checkpoints).messages == s.messages
  {
    hide Results, AnyUseful;
  }

  /** In front of an append a pending job that is done is swapped in; around it the conversation is measured,
      and over the limit it is summarised, with no job left pending, before anything else is said or judged. */
  lemma RoomIsMade(cfg: Config, s: State, e: Event)
    ensures var t := Step(cfg, s, e);
            match s.pc
            case ReadSlot(turn) =>
              t.pc == if !e.Proceed? then s.pc else if s.pending.Some? then PollJob(turn, s.pending.value) else PreCheck(turn)
            case PollJob(turn, j) =>
              t.pc == if !e.Proceed? then s.pc else if j < |s.jobs| && s.jobs[j].done then SwapJob(turn, j) else PreCheck(turn)
            case SwapJob(turn, j) => t.pc == if e.Proceed? then PreCheck(turn) else s.pc
            case PreCheck(turn) =>
              t.pc == if !e.Proceed? then s.pc else if Total(cfg, s.messages) > cfg.warnLimit then PreCancel(turn) else AppendTurn(turn)
            case PreCancel(turn) => if e.Proceed? then t.pc == PreCompress(turn) && t.pending.None? else t.pc == s.pc
            case PreCompress(turn) => t.pc == if e.CompressionReply? then AppendTurn(turn) else s.pc
            case AppendTurn(turn) => t.pc == if e.Proceed? then PostCheck else s.pc
            case PostCheck =>
              t.pc == if !e.Proceed? then s.pc else if Total(cfg, s.messages) > cfg.warnLimit then PostCancel else MaybeTrigger
            case PostCancel => if e.Proceed? then t.pc == PostCompress && t.pending.None? else t.pc == s.pc
            case PostCompress => t.pc == if e.CompressionReply? then MaybeTrigger else s.pc
            case MaybeTrigger =>
              if !e.Proceed? then t.pc == s.pc
              else if cfg.softLimit < Total(cfg, s.messages) < cfg.warnLimit && s.pending.None? then
                && t.pc == Spawn(|s.jobs|) && t.pending == Some(|s.jobs|)
                && t.jobs == s.jobs + [Job(s.messages, false, None, Created)]
              else t.pc == Verdict && t.pending == s.pending && t.jobs == s.jobs
            case Verdict =>
              t.pc == if !e.Proceed? then s.pc
                      else if Total(cfg, s.messages) < cfg.warnLimit then LoopHead
                      else Exit(Outcome(false, StopCompression, false))
            case _ => true
  {
    hide Compressed, Total, TurnMessages, AtLoopHead, AtReply, AfterTools, AtGrace, Publish, SignOff;
    if e.JobPublish? || e.JobExit? {
      BackgroundSendsNothing(cfg, s, e);
    }
  }

  // ---------------------------------------------------------------- what is sent

  /** The loop asks with the live conversation while the budget lasts, and after it once more, with the final
      notice behind the conversation, when there are tools for it. */
  lemma RequestsAreSent(cfg: Config, s: State, e: Event)
    ensures var t := Step(cfg, s, e);
            if s.pc.LoopHead? && s.toolReqCount > 0 && e.Proceed? then
              t.pc == AwaitReply && t.sent == s.sent + [Request(s.messages, false, LastEnd(s))] && t.toolReqCount == s.toolReqCount - 1
            else if s.pc.LoopHead? && s.toolReqCount <= 0 && e.Proceed? then
              t.pc == Grace && t.sent == s.sent && t.toolReqCount == s.toolReqCount
            else if s.pc.Grace? && cfg.hasGraceTools && e.Proceed? then
              && t.pc == AwaitGrace && t.sent == s.sent + [Request(s.messages + [Notice()], true, LastEnd(s))]
              && t.toolReqCount == s.toolReqCount
            else t.sent == s.sent && t.toolReqCount == s.toolReqCount
  {
    hide Total, LastEnd, Notice, AtLoopHead, AtGrace, AfterTools, AtCritical, AtAddNext, AtCompress, AtReply, Publish, SignOff;
    if e.JobPublish? || e.JobExit? {
      BackgroundSendsNothing(cfg, s, e);
    } else if CriticalPC(s.pc) {
      CriticalSendsNothing(cfg, s);
    } else if s.pc.RunTools? {
      if Answer(s.pc, e) {
        ToolsSendNothing(s, s.pc.response, e.checkpoints);
      }
    } else if s.pc.LoopHead? {
      HeadSends(s, e);
    } else if s.pc.Grace? {
      GraceSends(cfg, s, e);
    } else {
      OthersSendNothing(cfg, s, e);
    }
  }

  lemma HeadSends(s: State, e: Event)
    requires s.pc.LoopHead?
    ensures var t := AtLoopHead(s, e);
            if s.toolReqCount > 0 && e.Proceed? then
              t.pc == AwaitReply && t.sent == s.sent + [Request(s.messages, false, LastEnd(s))] && t.toolReqCount == s.toolReqCount - 1
            else
              t.sent == s.sent && t.toolReqCount == s.toolReqCount && (e.Proceed? ==> t.pc == Grace)
  {
  }

  lemma GraceSends(cfg: Config, s: State, e: Event)
    requires s.pc.Grace?
    ensures var t := AtGrace(cfg, s, e);
            && t.toolReqCount == s.toolReqCount
            && if cfg.hasGraceTools && e.Proceed? then
                 t.pc == AwaitGrace && t.sent == s.sent + [Request(s.messages + [Notice()], true, LastEnd(s))]
               else t.sent == s.sent
  {
  }

  lemma OthersSendNothing(cfg: Config, s: State, e: Event)
    requires !CriticalPC(s.pc) && !s.pc.RunTools? && !s.pc.LoopHead? && !s.pc.Grace?
    ensures var t := Foreground(cfg, s, e); t.sent == s.sent && t.toolReqCount == s.toolReqCount
  {
    hide Compressed, Total, TurnMessages, NudgeMessages;
  }

  lemma BackgroundSendsNothing(cfg: Config, s: State, e: Event)
    requires e.JobPublish? || e.JobExit?
    ensures var t := Step(cfg, s, e); t.sent == s.sent && t.toolReqCount == s.toolReqCount && t.pc == s.pc
  {
    hide Compressed, Foreground;
  }

  lemma CriticalSendsNothing(cfg: Config, s: State)
    requires CriticalPC(s.pc)
    ensures var t := AtCritical(cfg, s); t.sent == s.sent && t.toolReqCount == s.toolReqCount
  {
    hide Total;
  }

  lemma ToolsSendNothing(s: State, r: Response, checkpoints: seq<Checkpoint>)
    requires |checkpoints| == |r.calls|
    ensures var t := AfterTools(s, r, checkpoints); t.sent == s.sent && t.toolReqCount == s.toolReqCount
  {
    hide Results, AnyUseful;
  }

  function Notice(): Message {
    Message(User, "Your tool-call budget is exhausted. This is your FINAL round.", "", [], "", "")
  }

  /** A run that returns for the spent budget has ended as many rounds as the budget allows. */
  lemma BudgetIsSpent(cfg: Config, prompt: seq<Message>, events: seq<Event>)
    requires RunFrom(cfg, prompt, events).pc.Returned?
    requires RunFrom(cfg, prompt, events).pc.outcome.stop == StopMaxRounds
    ensures |EndsOf(cfg, prompt, events)| == if cfg.maxToolRequests < 0 then 0 else cfg.maxToolRequests
  {
    hide *;
    RunKeepsLimits(cfg, prompt, events);
    EndsAreHistory(cfg, prompt, events);
    ReturnsWhenSpent(cfg, RunFrom(cfg, prompt, events));
  }

  lemma ReturnsWhenSpent(cfg: Config, s: State)
    requires LimitsOk(cfg, s) && s.pc.Returned? && s.pc.outcome.stop == StopMaxRounds
    ensures |s.ends| == if cfg.maxToolRequests < 0 then 0 else cfg.maxToolRequests
  {
    hide Total, SentUnderLimit, TrailingEmpty, GraceOk;
  }

  // ---------------------------------------------------------------- results of jobs

  ghost predicate IsResult(cfg: Config, job: Job) {
    job.rebuilt.Some? ==> exists reply :: Answered(cfg, job.snapshot, reply, job.rebuilt.value, false)
  }

  /** A job that comes back while it is pending keeps the answer to its call as its result, or leaves the slot
      when the call failed; a job that has left the slot changes nothing but its own phase. */
  lemma PublishesAnswer(cfg: Config, s: State, j: nat, reply: Reply)
    requires j < |s.jobs| && s.jobs[j].phase.Spawned?
    ensures var t := Step(cfg, s, JobPublish(j, reply));
            && |t.jobs| == |s.jobs| && t.jobs[j].phase.Published? && t.jobs[j].snapshot == s.jobs[j].snapshot
            && (forall k :: 0 <= k < |s.jobs| && k != j ==> t.jobs[k] == s.jobs[k])
            && if s.pending != Some(j) then
                 t.jobs[j] == s.jobs[j].(phase := Published) && t.pending == s.pending && t.fates == s.fates
               else
                 exists m, failed :: Answered(cfg, s.jobs[j].snapshot, reply, m, failed) && t.jobs[j].done
                   && if failed then
                        t.pending.None? && t.fates == s.fates + [(j, Broken)] && t.jobs[j].rebuilt == s.jobs[j].rebuilt
                      else t.pending == s.pending && t.fates == s.fates && t.jobs[j].rebuilt == Some(m)
  {
    hide Answered, Compressed;
    CompressedAnswers(cfg, s.jobs[j].snapshot, reply);
    var c := Compressed(cfg, s.jobs[j].snapshot, reply);
    assert Answered(cfg, s.jobs[j].snapshot, reply, c.messages, c.failed);
  }

  ghost predicate AreResults(cfg: Config, jobs: seq<Job>) {
    forall j :: 0 <= j < |jobs| ==> IsResult(cfg, jobs[j])
  }

  lemma PublishKeepsResults(cfg: Config, s: State, j: nat, reply: Reply)
    requires AreResults(cfg, s.jobs)
    ensures AreResults(cfg, Publish(cfg, s, j, reply).jobs)
  {
    hide Answered, Compressed;
    if j < |s.jobs| {
      CompressedAnswers(cfg, s.jobs[j].snapshot, reply);
      assert IsResult(cfg, s.jobs[j]);
    }
  }

  lemma StepKeepsResults(cfg: Config, s: State, e: Event)
    requires AreResults(cfg, s.jobs)
    ensures AreResults(cfg, Step(cfg, s, e).jobs)
  {
    hide Answered, Publish, AtLoopHead, AtReply, AfterTools, AtAddNext, AtCompress, AtGrace, Total;
    match e
    case JobPublish(j, reply) => PublishKeepsResults(cfg, s, j, reply);
    case JobExit(j) => if j < |s.jobs| { assert IsResult(cfg, s.jobs[j]); }
    case _ =>
      if CriticalPC(s.pc) {
        if s.pc.Spawn? && s.pc.job < |s.jobs| {
          assert IsResult(cfg, s.jobs[s.pc.job]);
        }
      } else {
        assert Step(cfg, s, e) == s || PrivateStep(s, Step(cfg, s, e));
      }
  }

  /** In every run a job's result is what the answer to its own call makes of its snapshot. */
  lemma {:induction false} RunKeepsResults(cfg: Config, prompt: seq<Message>, events: seq<Event>)
    ensures AreResults(cfg, RunFrom(cfg, prompt, events).jobs)
  {
    hide Step, IsResult;
    if events != [] {
      var m := |events| - 1;
      RunKeepsResults(cfg, prompt, events[..m]);
      StepKeepsResults(cfg, RunFrom(cfg, prompt, events[..m]), events[m]);
    }
  }

  // ---------------------------------------------------------------- failed calls

  predicate IsNothing(reply: Reply) {
    reply.CallFailed? || reply.text == ""
  }

  /** The event is a summarising call that failed or came back empty, or no such call at all. */
  predicate BringsNothing(e: Event) {
    (e.CompressionReply? || e.JobPublish?) ==> IsNothing(e.reply)
  }

  ghost predicate IsCopy(s: State, job: Job) {
    job.snapshot <= s.transcript && (job.rebuilt.Some? ==> job.rebuilt.value == job.snapshot)
  }

  ghost predicate IsWhole(s: State) {
    s.messages == s.transcript && forall j :: 0 <= j < |s.jobs| ==> IsCopy(s, s.jobs[j])
  }

  lemma NothingAnswers(cfg: Config, before: seq<Message>, reply: Reply)
    requires cfg.hasTemplate && IsNothing(reply)
    ensures Compressed(cfg, before, reply).messages == before
  {
    CompressedAnswers(cfg, before, reply);
  }

  lemma SwapKeepsWhole(s: State, j: nat)
    requires IsWhole(s)
    ensures IsWhole(SwapIn(s, j))
  {
    if s.pending == Some(j) && j < |s.jobs| && s.jobs[j].rebuilt.Some? {
      assert IsCopy(s, s.jobs[j]);
      assert s.messages == s.messages[..|s.jobs[j].snapshot|] + s.messages[|s.jobs[j].snapshot|..];
    }
    forall k | 0 <= k < |s.jobs| ensures IsCopy(SwapIn(s, j), s.jobs[k]) {
      assert IsCopy(s, s.jobs[k]);
    }
  }

  lemma CriticalKeepsWhole(cfg: Config, s: State)
    requires IsWhole(s) && CriticalPC(s.pc)
    ensures IsWhole(AtCritical(cfg, s))
  {
    hide Total, SwapIn;
    var t := AtCritical(cfg, s);
    if s.pc.SwapJob? {
      SwapKeepsWhole(s, s.pc.job);
      SwapLeavesJobs(s, s.pc.job);
    }
    forall k | 0 <= k < |t.jobs| ensures IsCopy(t, t.jobs[k]) {
      if k < |s.jobs| {
        assert IsCopy(s, s.jobs[k]);
      }
    }
  }

  lemma SwapLeavesJobs(s: State, j: nat)
    ensures SwapIn(s, j).jobs == s.jobs && SwapIn(s, j).transcript == s.transcript
  {
  }

  lemma BackgroundKeepsWhole(cfg: Config, s: State, e: Event)
    requires cfg.hasTemplate && IsWhole(s) && BringsNothing(e) && (e.JobPublish? || e.JobExit?)
    ensures IsWhole(Step(cfg, s, e))
  {
    hide Compressed, Foreground;
    var t := Step(cfg, s, e);
    if e.job < |s.jobs| {
      if e.JobPublish? {
        NothingAnswers(cfg, s.jobs[e.job].snapshot, e.reply);
      }
      assert IsCopy(s, s.jobs[e.job]);
    }
    forall k | 0 <= k < |t.jobs| ensures IsCopy(t, t.jobs[k]) {
      assert IsCopy(s, s.jobs[k]);
    }
  }

  lemma StepKeepsWhole(cfg: Config, s: State, e: Event)
    requires cfg.hasTemplate && IsWhole(s) && BringsNothing(e)
    ensures IsWhole(Step(cfg, s, e))
  {
    hide Compressed, AfterTools, Total, TurnMessages, NudgeMessages, FinalRound, AtCritical, Publish, SignOff;
    if e.JobPublish? || e.JobExit? {
      BackgroundKeepsWhole(cfg, s, e);
    } else if CriticalPC(s.pc) {
      CriticalKeepsWhole(cfg, s);
    } else {
      var t := Step(cfg, s, e);
      if Summarises(s, e) {
        NothingAnswers(cfg, s.messages, e.reply);
      }
      if s.pc.RunTools? && Answer(s.pc, e) {
        ToolsSayNothing(s, s.pc.response, e.checkpoints);
        ToolsTellNothing(s, s.pc.response, e.checkpoints);
      }
      assert t == s || PrivateStep(s, t);
      WholeGrows(s, t);
    }
  }

  lemma ToolsTellNothing(s: State, r: Response, checkpoints: seq<Checkpoint>)
    requires |checkpoints| == |r.calls|
    ensures AfterTools(s, r, checkpoints).transcript == s.transcript
  {
    hide Results, AnyUseful;
  }

  lemma WholeGrows(s: State, t: State)
    requires IsWhole(s) && t.messages == t.transcript && s.transcript <= t.transcript && t.jobs == s.jobs
    ensures IsWhole(t)
  {
    forall k | 0 <= k < |t.jobs| ensures IsCopy(t, t.jobs[k]) {
      assert IsCopy(s, s.jobs[k]);
    }
  }

  /** While summarising calls fail or come back empty, in the foreground and in the background, nothing of
      the conversation is ever lost. */
  lemma {:induction false} FailedCallsLoseNothing(cfg: Config, prompt: seq<Message>, events: seq<Event>)
    requires cfg.hasTemplate && forall i :: 0 <= i < |events| ==> BringsNothing(events[i])
    ensures IsWhole(RunFrom(cfg, prompt, events))
  {
    hide Step, IsWhole, BringsNothing;
    if events == [] {
      StartIsWhole(cfg, prompt);
    } else {
      var m := |events| - 1;
      FailedCallsLoseNothing(cfg, prompt, events[..m]);
      StepKeepsWhole(cfg, RunFrom(cfg, prompt, events[..m]), events[m]);
    }
  }

  lemma StartIsWhole(cfg: Config, prompt: seq<Message>)
    ensures IsWhole(RunFrom(cfg, prompt, []))
  {
  }
}
