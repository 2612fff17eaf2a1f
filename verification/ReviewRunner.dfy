/** RunMainTask, addNextMessage and the compression state in the form the program gives them: fields
    updated step by step, a loop, and other goroutines running between any two steps.

    `events` records what happened, `pc` where the foreground stands. Every method keeps `Valid`: the
    transition system, run over the events, leads to the fields as they are. So whatever the theorems
    about `Run` say holds of every run of this code. */
module ReviewRunner {
  import opened Options
  import opened Conversation
  import opened ReviewLoop
  import opened ReviewLoopHistory
  import opened ReviewLoopLimits
  import opened ReviewLoopMemory

  class Task {
    const cfg: Config
    ghost const prompt: seq<Message>

    var messages: seq<Message>
    var toolReqCount: int
    var emptyRounds: nat
    var pending: Option<nat>
    var jobs: seq<Job>
    var background: int

    ghost var pc: PC
    ghost var transcript: seq<Message>
    ghost var sent: seq<Request>
    ghost var ends: seq<RoundEnd>
    ghost var fates: seq<(nat, Fate)>
    ghost var events: seq<Event>

    ghost function View(): State
      reads this
    {
      State(pc, messages, transcript, toolReqCount, emptyRounds, pending, jobs, background, sent, ends, fates)
    }

    ghost predicate Valid()
      reads this
    {
      View() == RunFrom(cfg, prompt, events)
    }

    constructor (cfg: Config, prompt: seq<Message>)
      ensures Valid() && this.cfg == cfg && this.prompt == prompt && pc == LoopHead
      ensures messages == transcript == prompt
    {
      this.cfg := cfg;
      this.prompt := prompt;
      messages := prompt;
      toolReqCount := cfg.maxToolRequests;
      emptyRounds := 0;
      pending := None;
      jobs := [];
      background := 0;
      pc := LoopHead;
      transcript := prompt;
      sent, ends, fates, events := [], [], [], [];
    }

    /** Notes that the fields have just moved by event `e`. */
    ghost method Record(before: State, e: Event)
      requires before == RunFrom(cfg, prompt, events) && View() == Step(cfg, before, e)
      modifies `events
      ensures Valid() && events == old(events) + [e]
    {
      events := events + [e];
      assert events[..|events| - 1] == old(events);
    }

    // -------------------------------------------------------------- the background

    /** The critical section of a job's goroutine, after its own summarising call. */
    method PublishJob(j: nat, reply: Reply)
      requires Valid() && j < |jobs| && jobs[j].phase.Spawned?
      modifies `jobs, `pending, `fates, `events
      ensures Valid() && View() == Publish(cfg, old(View()), j, reply)
      ensures events == old(events) + [JobPublish(j, reply)]
      ensures messages == old(messages)
      ensures jobs[j].rebuilt != old(jobs)[j].rebuilt ==>
                jobs[j].rebuilt.Some? && Answered(cfg, jobs[j].snapshot, reply, jobs[j].rebuilt.value, false)
      ensures old(pending) == Some(j) && reply.CallFailed? && cfg.hasTemplate && |jobs[j].snapshot| > 2 ==>
                pending.None? && jobs[j].rebuilt == old(jobs)[j].rebuilt
      ensures old(pending) == Some(j) && !(reply.CallFailed? && cfg.hasTemplate && |jobs[j].snapshot| > 2) ==>
                pending == Some(j) && jobs[j].done && jobs[j].rebuilt.Some?
    {
      hide RunFrom, AtLoopHead, AtReply, AfterTools, AtAddNext, AtCompress, AtCritical, AtGrace, SignOff, Answered;
      ghost var before := View();
      CompressedAnswers(cfg, jobs[j].snapshot, reply);
      var c := RunCompression(cfg, jobs[j].snapshot, reply);
      jobs := jobs[j := jobs[j].(phase := Published)];
      if pending == Some(j) {
        if c.failed {
          jobs := jobs[j := jobs[j].(done := true)];
          pending := None;
          fates := fates + [(j, Broken)];
        } else {
          jobs := jobs[j := jobs[j].(done := true, rebuilt := Some(c.messages))];
        }
      }
      Record(before, JobPublish(j, reply));
    }

    method JobDone(j: nat)
      requires Valid() && j < |jobs| && jobs[j].phase.Published?
      modifies `jobs, `background, `events
      ensures Valid() && View() == SignOff(old(View()), j)
      ensures events == old(events) + [JobExit(j)]
    {
      hide RunFrom, AtLoopHead, AtReply, AfterTools, AtAddNext, AtCompress, AtCritical, AtGrace, Publish;
      ghost var before := View();
      jobs := jobs[j := jobs[j].(phase := Exited)];
      background := background - 1;
      Record(before, JobExit(j));
    }

    /** Anything the job goroutines do while the foreground is between two steps. */
    method Others()
      requires Valid()
      modifies `jobs, `pending, `fates, `background, `events
      ensures Valid() && old(events) <= events
      ensures |jobs| == |old(jobs)|
      ensures pending == old(pending) || pending == None
      ensures forall k :: 0 <= k < |jobs| ==> jobs[k].snapshot == old(jobs)[k].snapshot
    {
      hide RunFrom;
      var n: int := *;
      while n > 0
        invariant Valid() && old(events) <= events && |jobs| == |old(jobs)|
        invariant pending == old(pending) || pending == None
        invariant forall k :: 0 <= k < |jobs| ==> jobs[k].snapshot == old(jobs)[k].snapshot
      {
        var j: int := *;
        var reply: Reply := *;
        if 0 <= j < |jobs| && jobs[j].phase.Spawned? {
          PublishJob(j, reply);
        } else if 0 <= j < |jobs| && jobs[j].phase.Published? {
          JobDone(j);
        }
        n := n - 1;
      }
    }

    // -------------------------------------------------------------- compression state

    method CancelPendingCompression()
      requires Valid() && (pc.PreCancel? || pc.PostCancel? || pc.Exit?)
      modifies `pending, `fates, `pc, `events
      ensures Valid() && View() == AtCritical(cfg, old(View())) && pending.None?
      ensures events == old(events) + [Proceed]
    {
      hide RunFrom, AtLoopHead, AtReply, AfterTools, AtAddNext, AtCompress, AtGrace, Publish, SignOff;
      ghost var before := View();
      if pending.Some? {
        fates := fates + [(pending.value, Cancelled)];
        pending := None;
      }
      pc := AtCritical(cfg, before).pc;
      Record(before, Proceed);
    }

    /** Starts a job on a copy of the conversation unless one is pending, and registers its goroutine
        with the wait group before it can run. */
    method TriggerAsyncCompression()
      requires Valid() && pc.MaybeTrigger? && cfg.softLimit < Total(cfg, messages) < cfg.warnLimit
      modifies `pending, `jobs, `background, `fates, `pc, `events
      ensures Valid() && old(events) <= events && pc.Verdict?
      ensures old(pending).Some? ==> |jobs| == |old(jobs)|
      ensures old(pending).None? ==> |jobs| == |old(jobs)| + 1 && jobs[|old(jobs)|].snapshot == messages
    {
      hide RunFrom;
      var started := TakeSlot();
      if started {
        var j := |jobs| - 1;
        Others();
        SpawnJob(j);
      }
    }

    method TakeSlot() returns (started: bool)
      requires Valid() && pc.MaybeTrigger? && cfg.softLimit < Total(cfg, messages) < cfg.warnLimit
      modifies `pending, `jobs, `pc, `events
      ensures Valid() && View() == AtCritical(cfg, old(View())) && events == old(events) + [Proceed]
      ensures started == old(pending).None?
    {
      hide RunFrom, AtLoopHead, AtReply, AfterTools, AtAddNext, AtCompress, AtGrace, Publish, SignOff;
      ghost var before := View();
      started := pending.None?;
      if started {
        pending := Some(|jobs|);
        jobs := jobs + [Job(messages, false, None, Created)];
      }
      pc := AtCritical(cfg, before).pc;
      Record(before, Proceed);
    }

    method SpawnJob(j: nat)
      requires Valid() && pc == Spawn(j) && j < |jobs|
      modifies `jobs, `background, `pc, `events
      ensures Valid() && View() == AtCritical(cfg, old(View())) && events == old(events) + [Proceed]
    {
      hide RunFrom, AtLoopHead, AtReply, AfterTools, AtAddNext, AtCompress, AtGrace, Publish, SignOff;
      ghost var before := View();
      jobs := jobs[j := jobs[j].(phase := Spawned)];
      background := background + 1;
      pc := Verdict;
      Record(before, Proceed);
    }

    /** Looks for a finished job and swaps its conversation in; the job can fail between the look and
        the swap, so the slot is read again under the lock. */
    method TryApplyPendingCompression(ghost turn: Turn) returns (applied: bool)
      requires Valid() && pc == ReadSlot(turn)
      modifies `messages, `pending, `jobs, `background, `fates, `pc, `events
      ensures Valid() && old(events) <= events && pc == PreCheck(turn)
      ensures applied ==> fates != [] && fates[|fates| - 1].1.Applied? && pending.None?
      ensures applied ==> exists j :: 0 <= j < |jobs| && TookOver(old(messages), jobs[j], messages)
      ensures !applied ==> messages == old(messages)
    {
      hide RunFrom;
      var slot := LoadSlot(turn);
      applied := false;
      if slot.Some? {
        applied := ApplyIfDone(turn, slot.value);
      }
    }

    method ApplyIfDone(ghost turn: Turn, j: nat) returns (applied: bool)
      requires Valid() && pc == PollJob(turn, j)
      modifies `messages, `pending, `jobs, `background, `fates, `pc, `events
      ensures Valid() && old(events) <= events && pc == PreCheck(turn)
      ensures applied ==> fates != [] && fates[|fates| - 1].1.Applied? && pending.None?
      ensures applied ==> j < |jobs| && TookOver(old(messages), jobs[j], messages)
      ensures !applied ==> messages == old(messages)
    {
      hide RunFrom;
      Others();
      var done := IsDone(turn, j);
      applied := false;
      if done {
        Others();
        applied := SwapDoneJob(turn, j);
      }
    }

    method LoadSlot(ghost turn: Turn) returns (slot: Option<nat>)
      requires Valid() && pc == ReadSlot(turn)
      modifies `pc, `events
      ensures Valid() && slot == pending && events == old(events) + [Proceed]
      ensures pc == if slot.Some? then PollJob(turn, slot.value) else PreCheck(turn)
    {
      hide RunFrom, AtLoopHead, AtReply, AfterTools, AtCompress, AtCritical, AtGrace, Publish, SignOff;
      ghost var before := View();
      slot := pending;
      pc := if slot.Some? then PollJob(turn, slot.value) else PreCheck(turn);
      Record(before, Proceed);
    }

    method IsDone(ghost turn: Turn, j: nat) returns (done: bool)
      requires Valid() && pc == PollJob(turn, j)
      modifies `pc, `events
      ensures Valid() && events == old(events) + [Proceed]
      ensures done == (j < |jobs| && jobs[j].done)
      ensures pc == if done then SwapJob(turn, j) else PreCheck(turn)
    {
      hide RunFrom, AtLoopHead, AtReply, AfterTools, AtCompress, AtCritical, AtGrace, Publish, SignOff;
      ghost var before := View();
      done := j < |jobs| && jobs[j].done;
      pc := if done then SwapJob(turn, j) else PreCheck(turn);
      Record(before, Proceed);
    }

    method SwapDoneJob(ghost turn: Turn, j: nat) returns (applied: bool)
      requires Valid() && pc == SwapJob(turn, j) && j < |jobs|
      modifies `messages, `pending, `fates, `pc, `events
      ensures Valid() && old(events) <= events && pc == PreCheck(turn)
      ensures applied == (old(pending) == Some(j) && old(jobs)[j].rebuilt.Some?)
      ensures applied ==> fates != [] && fates[|fates| - 1].1.Applied? && pending.None?
      ensures applied ==> TookOver(old(messages), jobs[j], messages)
      ensures !applied ==> messages == old(messages)
    {
      hide RunFrom, AtLoopHead, AtReply, AfterTools, AtAddNext, AtCompress, AtGrace, Publish, SignOff;
      ghost var before := View();
      applied := false;
      if pending == Some(j) && jobs[j].rebuilt.Some? {
        var rebuilt := jobs[j].rebuilt.value;
        if |jobs[j].snapshot| < |messages| {
          rebuilt := rebuilt + messages[|jobs[j].snapshot|..];
        }
        messages := rebuilt;
        applied := true;
      }
      if pending == Some(j) {
        pending := None;
        fates := fates + [(j, if applied then Applied else Broken)];
      }
      pc := PreCheck(turn);
      Record(before, Proceed);
    }

    /** The synchronous compression, waiting for the model while the other goroutines go on. */
    method CompressNow() returns (ghost answer: Reply, ghost failed: bool)
      requires Valid() && (pc.PreCompress? || pc.PostCompress?)
      modifies `messages, `pending, `jobs, `background, `fates, `pc, `events
      ensures Valid() && old(events) <= events
      ensures Answered(cfg, old(messages), answer, messages, failed)
      ensures pc == if old(pc).PreCompress? then AppendTurn(old(pc).turn) else MaybeTrigger
    {
      hide RunFrom, AtLoopHead, AtReply, AfterTools, AtAddNext, AtCritical, AtGrace, Publish, SignOff, Answered;
      Others();
      var reply: Reply := *;
      ghost var before := View();
      CompressedAnswers(cfg, messages, reply);
      var c := RunCompression(cfg, messages, reply);
      answer, failed := reply, c.failed;
      messages := c.messages;
      pc := AtCompress(cfg, before, reply).pc;
      Record(before, CompressionReply(reply));
    }

    // -------------------------------------------------------------- addNextMessage

    method AppendResults(results: seq<ToolCallResult>)
      modifies `messages
      ensures messages == old(messages) + ResultMessages(results)
    {
      for k := 0 to |results|
        invariant messages + ResultMessages(results[k..]) == old(messages) + ResultMessages(results)
      {
        var rs := results[k];
        assert results[k..][1..] == results[k + 1..];
        messages := messages + [ToolResultMessage(rs.id, rs.result)];
      }
    }

    method AppendMessages(turn: Turn)
      requires Valid() && pc == AppendTurn(turn)
      modifies `messages, `transcript, `pc, `events
      ensures Valid() && events == old(events) + [Proceed] && pc.PostCheck?
      ensures messages == old(messages) + TurnMessages(turn)
    {
      hide RunFrom, AtLoopHead, AtReply, AfterTools, AtCompress, AtCritical, AtGrace, Publish, SignOff, Total;
      ghost var before := View();
      var r := turn.response;
      if |r.calls| > 0 {
        messages := messages + [ToolCallMessage(r.content, r.calls, r.native, r.reasoning)];
      } else if r.content != "" || r.native != "" {
        messages := messages + [ToolCallMessage(r.content, [], r.native, r.reasoning)];
      }
      AppendResults(turn.results);
      assert messages == before.messages + TurnMessages(turn);
      transcript := transcript + TurnMessages(turn);
      pc := PostCheck;
      Record(before, Proceed);
    }

    method AddNextMessage(turn: Turn) returns (succeed: bool)
      requires Valid() && pc == ReadSlot(turn)
      modifies `messages, `transcript, `pending, `jobs, `background, `fates, `pc, `events
      ensures Valid() && old(events) <= events
      ensures succeed == (Total(cfg, messages) < cfg.warnLimit)
      ensures pc == if succeed then LoopHead else Exit(Outcome(false, StopCompression, false))
      ensures exists start :: Swapped(old(messages), start) && Extended(cfg, start, turn, messages)
    {
      hide RunFrom, Extended, TookOver;
      Others();
      var _ := TryApplyPendingCompression(turn);
      assert Swapped(old(messages), messages);
      ExtendWith(turn);
      succeed := FinishUpdate();
    }

    method ExtendWith(turn: Turn)
      requires Valid() && pc == PreCheck(turn)
      modifies `messages, `transcript, `pending, `jobs, `background, `fates, `pc, `events
      ensures Valid() && old(events) <= events && pc.MaybeTrigger?
      ensures Extended(cfg, old(messages), turn, messages)
    {
      hide RunFrom, HasRoom, TurnMessages;
      MakeRoom();
      ghost var room := messages;
      AppendMessages(turn);
      MakeRoom();
    }

    /** Starts a background job in the soft zone, only now that everything is appended, and reports
        whether the conversation is small enough to go on with. */
    method FinishUpdate() returns (succeed: bool)
      requires Valid() && pc.MaybeTrigger?
      modifies `pending, `jobs, `background, `fates, `pc, `events
      ensures Valid() && old(events) <= events
      ensures succeed == (Total(cfg, messages) < cfg.warnLimit)
      ensures pc == if succeed then LoopHead else Exit(Outcome(false, StopCompression, false))
    {
      hide RunFrom;
      var finalCount := CountMessagesTokens(cfg, messages);
      Others();
      if cfg.softLimit < finalCount < cfg.warnLimit {
        TriggerAsyncCompression();
      } else {
        SkipTrigger();
      }
      succeed := JudgeSize(finalCount);
    }

    /** Compresses a conversation that is over the limit, dropping any pending job first. The code
        does this before it appends the round and again afterwards. */
    method MakeRoom()
      requires Valid() && (pc.PreCheck? || pc.PostCheck?)
      modifies `messages, `pending, `jobs, `background, `fates, `pc, `events
      ensures Valid() && old(events) <= events
      ensures pc == if old(pc).PreCheck? then AppendTurn(old(pc).turn) else MaybeTrigger
      ensures HasRoom(cfg, old(messages), messages)
    {
      hide RunFrom, Answered;
      Others();
      var over := IsOverLimit();
      if over {
        Replace();
      }
    }

    method Replace()
      requires Valid() && (pc.PreCancel? || pc.PostCancel?)
      modifies `messages, `pending, `jobs, `background, `fates, `pc, `events
      ensures Valid() && old(events) <= events
      ensures pc == if old(pc).PreCancel? then AppendTurn(old(pc).turn) else MaybeTrigger
      ensures exists reply, failed :: Answered(cfg, old(messages), reply, messages, failed)
    {
      hide RunFrom, Answered;
      Others();
      CancelPendingCompression();
      var _, _ := CompressNow();
    }

    method IsOverLimit() returns (over: bool)
      requires Valid() && (pc.PreCheck? || pc.PostCheck?)
      modifies `pc, `events
      ensures Valid() && events == old(events) + [Proceed]
      ensures over == (Total(cfg, messages) > cfg.warnLimit)
      ensures old(pc).PreCheck? ==> pc == if over then PreCancel(old(pc).turn) else AppendTurn(old(pc).turn)
      ensures old(pc).PostCheck? ==> pc == if over then PostCancel else MaybeTrigger
    {
      hide RunFrom, AtLoopHead, AtReply, AfterTools, AtCompress, AtCritical, AtGrace, Publish, SignOff;
      ghost var before := View();
      var count := CountMessagesTokens(cfg, messages);
      over := count > cfg.warnLimit;
      pc := AtAddNext(cfg, before).pc;
      Record(before, Proceed);
    }

    ghost method SkipTrigger()
      requires Valid() && pc.MaybeTrigger? && !(cfg.softLimit < Total(cfg, messages) < cfg.warnLimit)
      modifies `pc, `events
      ensures Valid() && events == old(events) + [Proceed] && pc.Verdict?
    {
      hide RunFrom, AtLoopHead, AtReply, AfterTools, AtAddNext, AtCompress, AtGrace, Publish, SignOff;
      var before := View();
      pc := Verdict;
      Record(before, Proceed);
    }

    method JudgeSize(finalCount: nat) returns (succeed: bool)
      requires Valid() && pc.Verdict? && finalCount == Total(cfg, messages)
      modifies `pc, `events
      ensures Valid() && events == old(events) + [Proceed]
      ensures succeed == (Total(cfg, messages) < cfg.warnLimit)
      ensures pc == if succeed then LoopHead else Exit(Outcome(false, StopCompression, false))
    {
      hide RunFrom, AtLoopHead, AtReply, AfterTools, AtCompress, AtCritical, AtGrace, Publish, SignOff;
      ghost var before := View();
      succeed := finalCount < cfg.warnLimit;
      pc := AtAddNext(cfg, before).pc;
      Record(before, Proceed);
    }

    // -------------------------------------------------------------- RunMainTask

    /** The check of the context at the top of the loop; `true` means go on. */
    method EnterRound() returns (go: bool)
      requires Valid() && pc.LoopHead? && toolReqCount > 0
      modifies `toolReqCount, `sent, `pc, `events
      ensures Valid() && events == old(events) + [if go then Proceed else ContextDone]
      ensures pc == if go then AwaitReply else Exit(Outcome(false, StopNone, true))
      ensures toolReqCount == old(toolReqCount) - if go then 1 else 0
    {
      hide RunFrom, AtReply, AfterTools, AtAddNext, AtCompress, AtCritical, AtGrace, Publish, SignOff;
      ghost var before := View();
      go := *;
      if go {
        toolReqCount := toolReqCount - 1;
        sent := sent + [Request(messages, false, LastEnd(before))];
        pc := AwaitReply;
        Record(before, Proceed);
      } else {
        pc := Exit(Outcome(false, StopNone, true));
        Record(before, ContextDone);
      }
    }

    /** The model's answer to a main request, or an error. A reply without tool calls is taken into the
        conversation in front of a nudge. */
    method TakeReply() returns (reply: Option<Response>)
      requires Valid() && pc.AwaitReply?
      modifies `messages, `transcript, `ends, `pc, `events
      ensures Valid() && |events| == |old(events)| + 1 && old(events) <= events
      ensures reply.None? ==> pc == Exit(Outcome(false, StopNone, true))
      ensures reply.Some? && reply.value.calls != [] ==> pc == RunTools(reply.value)
      ensures reply.Some? && reply.value.calls == [] ==>
                pc.LoopHead? && messages == old(messages) + Nudging(reply.value)
    {
      hide RunFrom, AtLoopHead, AfterTools, AtAddNext, AtCompress, AtCritical, AtGrace, Publish, SignOff, Nudge, NudgeMessages, Nudging;
      reply := *;
      match reply
      case None => AbortRound();
      case Some(r) =>
        if |r.calls| == 0 {
          NudgeModel(r);
        } else {
          Pass(RunTools(r), ModelReply(r));
        }
    }

    method AbortRound()
      requires Valid() && pc.AwaitReply?
      modifies `ends, `pc, `events
      ensures Valid() && events == old(events) + [ModelError]
      ensures pc == Exit(Outcome(false, StopNone, true))
    {
      hide RunFrom, AtLoopHead, AfterTools, AtAddNext, AtCompress, AtCritical, AtGrace, Publish, SignOff;
      ghost var before := View();
      ends := ends + [Aborted];
      pc := Exit(Outcome(false, StopNone, true));
      Record(before, ModelError);
    }

    method NudgeModel(r: Response)
      requires Valid() && pc.AwaitReply? && r.calls == []
      modifies `messages, `transcript, `ends, `pc, `events
      ensures Valid() && events == old(events) + [ModelReply(r)] && pc.LoopHead?
      ensures messages == old(messages) + Nudging(r) && transcript == old(transcript) + Nudging(r)
      ensures Nudging(r) == NudgeMessages(r)
    {
      hide RunFrom, AtLoopHead, AfterTools, AtAddNext, AtCompress, AtCritical, AtGrace, Publish, SignOff, Total, Nudge, Nudging;
      ghost var before := View();
      NudgeIsTold(r);
      messages := messages + [Nudge()];
      if r.content != "" || r.native != "" || r.reasoning != "" {
        var n := |messages| - 1;
        messages := messages[..n] + [ToolCallMessage(r.content, [], r.native, r.reasoning), messages[n]];
      }
      assert messages == before.messages + NudgeMessages(r);
      transcript := transcript + NudgeMessages(r);
      ends := ends + [Nudged];
      pc := LoopHead;
      Record(before, ModelReply(r));
    }

    /** Runs the calls one after the other; `checkpoints` is what each tool would answer. The loop stops at
        the first failed one. */
    method ExecuteCalls(r: Response, checkpoints: seq<Checkpoint>)
      returns (results: seq<ToolCallResult>, failed: bool, completed: bool, valid: bool)
      requires |checkpoints| == |r.calls|
      ensures failed == (Failed in checkpoints)
      ensures !failed ==> completed == (Completed in checkpoints)
      ensures !failed ==> valid == AnyUseful(checkpoints)
      ensures !failed ==> results == Results(r.calls, checkpoints)
    {
      hide AnyUseful, Results;
      results, failed, completed, valid := [], false, false, false;
      NoResults();
      for k := 0 to |r.calls|
        invariant !failed && Failed !in checkpoints[..k]
        invariant completed == (Completed in checkpoints[..k])
        invariant valid == AnyUseful(checkpoints[..k])
        invariant results == Results(r.calls[..k], checkpoints[..k])
      {
        var cp := checkpoints[k];
        if cp.Failed? {
          failed := true;
          return;
        }
        assert checkpoints[..k + 1] == checkpoints[..k] + [cp];
        ResultsAppend(r.calls, checkpoints[..k], cp);
        UsefulAppend(checkpoints[..k], cp);
        match cp {
          case Completed =>
            results := results + [ToolCallResult(r.calls[k].id, "Task completed successfully.")];
            completed := true;
          case Data(text) =>
            if text != "" {
              results := results + [ToolCallResult(r.calls[k].id, text)];
              valid := true;
            } else {
              results := results + [ToolCallResult(r.calls[k].id, "Error: Tool execution returned no result.")];
            }
        }
      }
      assert r.calls[..|r.calls|] == r.calls && checkpoints[..|r.calls|] == checkpoints;
    }

    /** One tool round, with what the tools answer. `next` is false when the loop is over, with the outcome
        in `pc`. */
    method JudgeRound(r: Response, checkpoints: seq<Checkpoint>) returns (next: bool, turn: Turn, outcome: Outcome)
      requires Valid() && pc == RunTools(r) && |checkpoints| == |r.calls|
      modifies `emptyRounds, `ends, `pc, `events
      ensures Valid() && View() == AfterTools(old(View()), r, checkpoints)
      ensures events == old(events) + [ToolsRan(checkpoints)]
      ensures pc == if next then ReadSlot(turn) else Exit(outcome)
      ensures next ==> turn.response == r && emptyRounds < MAX_CONSECUTIVE_EMPTY_ROUNDS
      ensures Failed in checkpoints ==> !next && outcome.failed && emptyRounds == old(emptyRounds)
      ensures Completed in checkpoints && Failed !in checkpoints ==>
                !next && outcome == Outcome(true, StopNone, false) && emptyRounds == old(emptyRounds)
      ensures Completed !in checkpoints && Failed !in checkpoints && AnyText(checkpoints) ==> next && emptyRounds == 0
      ensures Completed !in checkpoints && Failed !in checkpoints && !AnyText(checkpoints) ==>
                && emptyRounds == old(emptyRounds) + 1
                && (next <==> emptyRounds < 3)
                && (!next ==> outcome == Outcome(false, StopEmptyRounds, false))
    {
      hide RunFrom, AtLoopHead, AtReply, AtAddNext, AtCompress, AtCritical, AtGrace, Publish, SignOff, AnyUseful, AnyText, Results;
      ghost var before := View();
      UsefulIsText(checkpoints);
      var results, failed, completed, valid := ExecuteCalls(r, checkpoints);
      next, turn, outcome := false, Turn(r, results), Outcome(false, StopNone, true);
      if failed {
        ends := ends + [Aborted];
      } else if completed {
        ends := ends + [Finished];
        outcome := Outcome(true, StopNone, false);
      } else if valid {
        ends := ends + [Useful];
        emptyRounds := 0;
        next := true;
      } else {
        ends := ends + [Empty];
        emptyRounds := emptyRounds + 1;
        if emptyRounds >= MAX_CONSECUTIVE_EMPTY_ROUNDS {
          outcome := Outcome(false, StopEmptyRounds, false);
        } else {
          next := true;
        }
      }
      pc := if next then ReadSlot(turn) else Exit(outcome);
      Record(before, ToolsRan(checkpoints));
    }

    /** The last request, offered only the two closing tools; its answer changes nothing here. */
    method RunGraceRound()
      requires Valid() && pc.LoopHead? && toolReqCount <= 0
      modifies `sent, `pc, `events
      ensures Valid() && old(events) <= events
      ensures pc == Exit(Outcome(false, StopMaxRounds, false))
    {
      hide RunFrom;
      EnterGrace();
      var contextDone: bool := *;
      if cfg.hasGraceTools && !contextDone {
        SendGrace();
        EndGrace();
      } else {
        SkipGrace(contextDone);
      }
    }

    ghost method EnterGrace()
      requires Valid() && pc.LoopHead? && toolReqCount <= 0
      modifies `pc, `events
      ensures Valid() && events == old(events) + [Proceed] && pc.Grace?
    {
      hide RunFrom, AtReply, AfterTools, AtAddNext, AtCompress, AtCritical, AtGrace, Publish, SignOff;
      Pass(Grace, Proceed);
    }

    ghost method SkipGrace(contextDone: bool)
      requires Valid() && pc.Grace? && (contextDone || !cfg.hasGraceTools)
      modifies `pc, `events
      ensures Valid() && events == old(events) + [if contextDone then ContextDone else Proceed]
      ensures pc == Exit(Outcome(false, StopMaxRounds, false))
    {
      hide RunFrom, AtLoopHead, AtReply, AfterTools, AtAddNext, AtCompress, AtCritical, Publish, SignOff;
      Pass(Exit(Outcome(false, StopMaxRounds, false)), if contextDone then ContextDone else Proceed);
    }

    /** Whatever the model answers, or an error. */
    ghost method EndGrace()
      requires Valid() && pc.AwaitGrace?
      modifies `pc, `events
      ensures Valid() && old(events) <= events && pc == Exit(Outcome(false, StopMaxRounds, false))
    {
      hide RunFrom, AtLoopHead, AtReply, AfterTools, AtAddNext, AtCompress, AtCritical, Publish, SignOff;
      Pass(Exit(Outcome(false, StopMaxRounds, false)), ModelError);
    }

    /** A step that only moves the foreground. */
    ghost method Pass(next: PC, e: Event)
      requires Valid() && View().(pc := next) == Step(cfg, View(), e)
      modifies `pc, `events
      ensures Valid() && events == old(events) + [e] && pc == next
    {
      hide RunFrom;
      var before := View();
      pc := next;
      Record(before, e);
    }

    method SendGrace()
      requires Valid() && pc.Grace? && cfg.hasGraceTools
      modifies `sent, `pc, `events
      ensures Valid() && events == old(events) + [Proceed] && pc.AwaitGrace?
      ensures |sent| == |old(sent)| + 1 && sent[|old(sent)|].messages == messages + [FinalRound()]
    {
      hide RunFrom, AtLoopHead, AtReply, AfterTools, AtAddNext, AtCompress, AtCritical, Publish, SignOff;
      ghost var before := View();
      sent := sent + [Request(messages + [FinalRound()], true, LastEnd(before))];
      pc := AwaitGrace;
      Record(before, Proceed);
    }

    /** A tool round from the reply to the end of addNextMessage. */
    method RunToolRound(r: Response) returns (next: bool, outcome: Outcome)
      requires Valid() && pc == RunTools(r)
      modifies this
      ensures Valid() && old(events) <= events && toolReqCount == old(toolReqCount)
      ensures pc == if next then LoopHead else Exit(outcome)
    {
      hide RunFrom;
      var checkpoints := ToolAnswers(|r.calls|);
      var turn;
      next, turn, outcome := JudgeRound(r, checkpoints);
      if next {
        next := AddNextMessage(turn);
        outcome := Outcome(false, StopCompression, false);
      }
    }

    /** Drives the conversation to its end. Every run of this loop is a run of the transition system that
        has returned, with the outcome its history calls for and nothing left pending. */
    method RunMainTask() returns (outcome: Outcome)
      requires Valid() && pc.LoopHead?
      modifies this
      ensures Valid() && old(events) <= events
      ensures View() == RunFrom(cfg, prompt, events)
      ensures pc == Returned(outcome) && outcome == Cause(cfg, View()) && pending.None?
      ensures outcome.completed <==> exists i: nat :: TaskDone(cfg, prompt, events, i)
      ensures outcome.failed <==> exists i: nat :: FailsAt(cfg, prompt, events, i)
    {
      hide RunFrom, TaskDone, FailsAt;
      var running := true;
      outcome := Outcome(false, StopMaxRounds, false);
      while running && toolReqCount > 0
        invariant Valid() && old(events) <= events
        invariant pc == if running then LoopHead else Exit(outcome)
        decreases running, toolReqCount
      {
        running, outcome := RunRound();
      }
      if running {
        RunGraceRound();
        outcome := Outcome(false, StopMaxRounds, false);
      }
      LeaveTask(outcome);
      TaskDoneEndsTheLoop(cfg, prompt, events);
      ErrorsEndTheLoop(cfg, prompt, events);
    }

    /** The deferred cancel on every way out. */
    method LeaveTask(outcome: Outcome)
      requires Valid() && pc == Exit(outcome)
      modifies `jobs, `pending, `fates, `background, `pc, `events
      ensures Valid() && old(events) <= events && View() == RunFrom(cfg, prompt, events)
      ensures pc == Returned(outcome) && outcome == Cause(cfg, View()) && pending.None?
    {
      hide RunFrom;
      Others();
      CancelPendingCompression();
      RunKeepsLimits(cfg, prompt, events);
    }

    method RunRound() returns (next: bool, outcome: Outcome)
      requires Valid() && pc.LoopHead? && toolReqCount > 0
      modifies this
      ensures Valid() && old(events) <= events
      ensures pc == if next then LoopHead else Exit(outcome)
      ensures next ==> toolReqCount == old(toolReqCount) - 1
    {
      hide RunFrom;
      Others();
      outcome := Outcome(false, StopNone, true);
      next := EnterRound();
      if next {
        next, outcome := AwaitRound();
      }
    }

    method AwaitRound() returns (next: bool, outcome: Outcome)
      requires Valid() && pc.AwaitReply?
      modifies this
      ensures Valid() && old(events) <= events && toolReqCount == old(toolReqCount)
      ensures pc == if next then LoopHead else Exit(outcome)
    {
      hide RunFrom, Nudging;
      Others();
      var reply := TakeReply();
      next, outcome := reply.Some?, Outcome(false, StopNone, true);
      if reply.Some? && |reply.value.calls| > 0 {
        Others();
        next, outcome := RunToolRound(reply.value);
      }
    }
  }

  /** Each tool answers as it likes. */
  method ToolAnswers(n: nat) returns (checkpoints: seq<Checkpoint>)
    ensures |checkpoints| == n
  {
    checkpoints := [];
    for k := 0 to n
      invariant |checkpoints| == k
    {
      var cp: Checkpoint := *;
      checkpoints := checkpoints + [cp];
    }
  }

  /** A finished job's result has taken the place of its snapshot; what was said since stands behind it. */
  predicate TookOver(before: seq<Message>, job: Job, after: seq<Message>) {
    job.rebuilt.Some? && after == job.rebuilt.value + Behind(before, |job.snapshot|)
  }

  /** The conversation as it is when it is small enough, and otherwise some answer of a summarising call. */
  ghost predicate HasRoom(cfg: Config, before: seq<Message>, after: seq<Message>) {
    if Total(cfg, before) <= cfg.warnLimit then after == before
    else exists reply, failed :: Answered(cfg, before, reply, after, failed)
  }

  ghost predicate Swapped(before: seq<Message>, after: seq<Message>) {
    after == before || exists job :: TookOver(before, job, after)
  }

  /** The turn's messages are behind the others, room made before and after. */
  ghost predicate Extended(cfg: Config, before: seq<Message>, turn: Turn, after: seq<Message>) {
    exists room :: HasRoom(cfg, before, room) && HasRoom(cfg, room + TurnMessages(turn), after)
  }

  /** Some tool has answered with a text. */
  predicate AnyText(checkpoints: seq<Checkpoint>) {
    exists k :: 0 <= k < |checkpoints| && checkpoints[k].Data? && checkpoints[k].text != ""
  }

  lemma UsefulIsText(checkpoints: seq<Checkpoint>)
    ensures AnyUseful(checkpoints) == AnyText(checkpoints)
  {
  }

  lemma NoResults()
    ensures Results([], []) == [] && !AnyUseful([])
  {
  }

  lemma {:induction false} ResultsAppend(calls: seq<ToolCall>, checkpoints: seq<Checkpoint>, cp: Checkpoint)
    requires |checkpoints| < |calls|
    ensures var k := |checkpoints|;
            Results(calls[..k + 1], checkpoints + [cp])
            == Results(calls[..k], checkpoints) + [ToolCallResult(calls[k].id, ResultText(cp))]
    decreases |checkpoints|
  {
    var k := |checkpoints|;
    if k > 0 {
      ResultsAppend(calls[1..], checkpoints[1..], cp);
      assert calls[..k + 1][1..] == calls[1..][..k];
      assert calls[..k][1..] == calls[1..][..k - 1];
      assert (checkpoints + [cp])[1..] == checkpoints[1..] + [cp];
    }
  }

  lemma UsefulAppend(checkpoints: seq<Checkpoint>, cp: Checkpoint)
    ensures AnyUseful(checkpoints + [cp]) == (AnyUseful(checkpoints) || (cp.Data? && cp.text != ""))
  {
    var more := checkpoints + [cp];
    assert forall k :: 0 <= k < |checkpoints| ==> more[k] == checkpoints[k];
    assert more[|checkpoints|] == cp;
  }
}
