/** What every interleaving keeps about the conversation: it abbreviates the full transcript, a pending
    job's snapshot is its prefix, and every request pairs tool calls with their results. */
module ReviewLoopShape {
  import opened Options
  import opened Conversation
  import opened ReviewLoop
  import opened ReviewLoopJobs

  // ---------------------------------------------------------------- what a round appends

  predicate TurnOk(t: Turn) {
    && t.response.calls != []
    && |t.results| == |t.response.calls|
    && forall k :: 0 <= k < |t.results| ==> t.results[k].id == t.response.calls[k].id
  }

  predicate PcOk(pc: PC) {
    match pc
    case RunTools(r) => r.calls != []
    case ReadSlot(t) => TurnOk(t)
    case PollJob(t, _) => TurnOk(t)
    case SwapJob(t, _) => TurnOk(t)
    case PreCheck(t) => TurnOk(t)
    case PreCancel(t) => TurnOk(t)
    case PreCompress(t) => TurnOk(t)
    case AppendTurn(t) => TurnOk(t)
    case _ => true
  }

  lemma {:induction false} ResultsAnswerCalls(calls: seq<ToolCall>, checkpoints: seq<Checkpoint>, k: nat)
    requires |calls| == |checkpoints| && k < |calls|
    ensures Results(calls, checkpoints)[k] == ToolCallResult(calls[k].id, ResultText(checkpoints[k]))
    decreases |calls|
  {
    if k > 0 {
      ResultsAnswerCalls(calls[1..], checkpoints[1..], k - 1);
    }
  }

  lemma {:induction false} ResultMessageAt(results: seq<ToolCallResult>, k: nat)
    requires k < |results|
    ensures ResultMessages(results)[k] == ToolResultMessage(results[k].id, results[k].result)
    decreases |results|
  {
    if k > 0 {
      ResultMessageAt(results[1..], k - 1);
    }
  }

  lemma TurnIsPaired(t: Turn)
    requires TurnOk(t)
    ensures Paired(TurnMessages(t)) && RoundBoundary(TurnMessages(t), 0)
  {
    var calls, m := t.response.calls, TurnMessages(t);
    forall j | 0 <= j < |calls| ensures Answers(calls[j], m[1 + j]) {
      ResultMessageAt(t.results, j);
    }
    assert m[1 + |calls|..] == [];
  }

  lemma NudgeIsPaired(r: Response)
    ensures Paired(NudgeMessages(r)) && RoundBoundary(NudgeMessages(r), 0)
  {
    assert Paired([Nudge()]);
    PairedConcat(NudgeMessages(r)[..|NudgeMessages(r)| - 1], [Nudge()]);
    assert NudgeMessages(r)[..|NudgeMessages(r)| - 1] + [Nudge()] == NudgeMessages(r);
  }

  // ---------------------------------------------------------------- the invariant

  /** The transcript had length `base` when the job took its snapshot: the snapshot is a prefix of the
      live conversation, and what follows it is what follows `base` in the transcript. */
  ghost predicate SnapshotAt(s: State, job: Job, base: nat) {
    && |job.snapshot| <= |s.messages| && s.messages[..|job.snapshot|] == job.snapshot
    && RoundBoundary(s.transcript, base)
    && s.messages[|job.snapshot|..] == s.transcript[base..]
    && Shape(s.transcript[..base], job.snapshot)
    && (job.rebuilt.Some? ==> Shape(s.transcript[..base], job.rebuilt.value))
  }

  ghost predicate PendingOk(s: State) {
    s.pending.Some? && s.pending.value < |s.jobs| ==>
      exists base: nat :: SnapshotAt(s, s.jobs[s.pending.value], base)
  }

  ghost predicate TranscriptOk(prompt: seq<Message>, s: State) {
    Prompt(s.transcript) && prompt <= s.transcript && Shape(s.transcript, s.messages)
  }

  ghost predicate ConversationOk(prompt: seq<Message>, s: State) {
    TranscriptOk(prompt, s) && PendingOk(s) && PcOk(s.pc)
  }

  lemma AppendKeepsConversation(prompt: seq<Message>, s: State, t: State, more: seq<Message>)
    requires TranscriptOk(prompt, s) && PendingOk(s) && PcOk(t.pc)
    requires Paired(more) && RoundBoundary(more, 0)
    requires t.messages == s.messages + more && t.transcript == s.transcript + more && SameJobs(s, t)
    ensures ConversationOk(prompt, t)
  {
    AppendKeepsShape(s.transcript, s.messages, more);
    PairedConcat(s.transcript, more);
    if s.pending.Some? && s.pending.value < |s.jobs| {
      var job := s.jobs[s.pending.value];
      var base: nat :| SnapshotAt(s, job, base);
      AppendKeepsSnapshot(s, t, job, base, more);
    }
  }

  lemma AppendKeepsSnapshot(s: State, t: State, job: Job, base: nat, more: seq<Message>)
    requires SnapshotAt(s, job, base) && RoundBoundary(more, 0)
    requires t.messages == s.messages + more && t.transcript == s.transcript + more
    ensures SnapshotAt(t, job, base)
  {
    assert t.messages[..|job.snapshot|] == s.messages[..|job.snapshot|];
    assert t.messages[|job.snapshot|..] == s.messages[|job.snapshot|..] + more;
    assert t.transcript[base..] == s.transcript[base..] + more;
    assert t.transcript[..base] == s.transcript[..base];
  }

  /** Applying a finished job: its summary replaces the snapshot, everything appended since stays. */
  lemma SwapKeepsConversation(prompt: seq<Message>, s: State, j: nat)
    requires TranscriptOk(prompt, s) && PendingOk(s) && s.pending == Some(j) && j < |s.jobs|
    requires s.jobs[j].rebuilt.Some?
    ensures TranscriptOk(prompt, SwapIn(s, j))
  {
    hide Prompt;
    var base: nat :| SnapshotAt(s, s.jobs[j], base);
    var rest := s.transcript[base..];
    assert s.transcript[..base] + rest == s.transcript;
    assert Shape(s.transcript, s.jobs[j].rebuilt.value + rest) by {
      AppendKeepsShape(s.transcript[..base], s.jobs[j].rebuilt.value, rest);
    }
    assert SwapIn(s, j).messages == s.jobs[j].rebuilt.value + rest;
  }

  lemma TriggerKeepsConversation(prompt: seq<Message>, s: State, t: State)
    requires TranscriptOk(prompt, s) && s.pending.None?
    requires t == TriggerJob(s).(pc := t.pc) && PcOk(t.pc)
    ensures ConversationOk(prompt, t)
  {
    var base := |s.transcript|;
    var job := Job(s.messages, false, None, Created);
    assert s.transcript[..base] == s.transcript;
    assert t.messages[..|job.snapshot|] == job.snapshot;
    assert t.messages[|job.snapshot|..] == [] == t.transcript[base..];
    assert SnapshotAt(t, t.jobs[t.pending.value], base);
  }

  lemma PublishKeepsConversation(cfg: Config, prompt: seq<Message>, s: State, j: nat, reply: Reply)
    requires ConversationOk(prompt, s) && JobsOk(s)
    ensures ConversationOk(prompt, Publish(cfg, s, j, reply))
  {
    hide Compressed, Prompt, Shape;
    var t := Publish(cfg, s, j, reply);
    if s.pending.Some? && t.pending.Some? {
      var job := s.jobs[s.pending.value];
      var base: nat :| SnapshotAt(s, job, base);
      CompressionKeepsShape(cfg, s.transcript[..base], job.snapshot, reply);
      assert SnapshotAt(t, t.jobs[s.pending.value], base);
    }
  }

  lemma SignOffKeepsConversation(prompt: seq<Message>, s: State, j: nat)
    requires ConversationOk(prompt, s)
    ensures ConversationOk(prompt, SignOff(s, j))
  {
    var t := SignOff(s, j);
    if s.pending.Some? && s.pending.value < |s.jobs| {
      var base: nat :| SnapshotAt(s, s.jobs[s.pending.value], base);
      assert SnapshotAt(t, t.jobs[s.pending.value], base);
    }
  }

  lemma CriticalKeepsConversation(cfg: Config, prompt: seq<Message>, s: State)
    requires ConversationOk(prompt, s) && JobsOk(s) && CriticalPC(s.pc)
    ensures ConversationOk(prompt, AtCritical(cfg, s))
  {
    var t := AtCritical(cfg, s);
    if s.pc.SwapJob? {
      if s.pending == Some(s.pc.job) {
        SwapKeepsConversation(prompt, s, s.pc.job);
      } else if s.pending.Some? {
        var base: nat :| SnapshotAt(s, s.jobs[s.pending.value], base);
        assert SnapshotAt(t, t.jobs[s.pending.value], base);
      }
    } else if s.pc.MaybeTrigger? && t.pc.Spawn? {
      TriggerKeepsConversation(prompt, s, t);
    } else if t.pending.Some? {
      var base: nat :| SnapshotAt(s, s.jobs[s.pending.value], base);
      assert SnapshotAt(t, t.jobs[s.pending.value], base);
    }
  }

  lemma UnchangedKeepsConversation(prompt: seq<Message>, s: State, t: State)
    requires ConversationOk(prompt, s) && PcOk(t.pc)
    requires t.messages == s.messages && t.transcript == s.transcript && SameJobs(s, t)
    ensures ConversationOk(prompt, t)
  {
    if s.pending.Some? && s.pending.value < |s.jobs| {
      var base: nat :| SnapshotAt(s, s.jobs[s.pending.value], base);
      assert SnapshotAt(t, t.jobs[s.pending.value], base);
    }
  }

  lemma AfterToolsTurnOk(s: State, r: Response, checkpoints: seq<Checkpoint>)
    requires |checkpoints| == |r.calls| && r.calls != []
    ensures PcOk(AfterTools(s, r, checkpoints).pc)
  {
    forall k | 0 <= k < |r.calls| ensures Results(r.calls, checkpoints)[k].id == r.calls[k].id {
      ResultsAnswerCalls(r.calls, checkpoints, k);
    }
  }

  lemma AddNextKeepsConversation(cfg: Config, prompt: seq<Message>, s: State)
    requires ConversationOk(prompt, s)
    ensures ConversationOk(prompt, AtAddNext(cfg, s))
  {
    var t := AtAddNext(cfg, s);
    if s.pc.AppendTurn? {
      TurnIsPaired(s.pc.turn);
      AppendKeepsConversation(prompt, s, t, TurnMessages(s.pc.turn));
    } else {
      UnchangedKeepsConversation(prompt, s, t);
    }
  }

  lemma CompressKeepsConversation(cfg: Config, prompt: seq<Message>, s: State, reply: Reply)
    requires ConversationOk(prompt, s) && JobsOk(s)
    ensures ConversationOk(prompt, AtCompress(cfg, s, reply))
  {
    CompressionKeepsShape(cfg, s.transcript, s.messages, reply);
  }

  lemma ReplyKeepsConversation(prompt: seq<Message>, s: State, e: Event)
    requires ConversationOk(prompt, s)
    ensures ConversationOk(prompt, AtReply(s, e))
  {
    hide TranscriptOk, PendingOk, NudgeMessages, Paired, RoundBoundary;
    var t := AtReply(s, e);
    if e.ModelReply? && e.response.calls == [] {
      NudgeIsPaired(e.response);
      AppendKeepsConversation(prompt, s, t, NudgeMessages(e.response));
    } else {
      UnchangedKeepsConversation(prompt, s, t);
    }
  }

  lemma ToolsKeepConversation(prompt: seq<Message>, s: State, r: Response, checkpoints: seq<Checkpoint>)
    requires ConversationOk(prompt, s) && r.calls != [] && |checkpoints| == |r.calls|
    ensures ConversationOk(prompt, AfterTools(s, r, checkpoints))
  {
    AfterToolsTurnOk(s, r, checkpoints);
    UnchangedKeepsConversation(prompt, s, AfterTools(s, r, checkpoints));
  }

  lemma TalkKeepsConversation(cfg: Config, prompt: seq<Message>, s: State, e: Event)
    requires ConversationOk(prompt, s)
    requires s.pc.LoopHead? || s.pc.AwaitReply? || s.pc.Grace? || s.pc.AwaitGrace?
    ensures ConversationOk(prompt, Foreground(cfg, s, e))
  {
    if s.pc.AwaitReply? {
      ReplyKeepsConversation(prompt, s, e);
    } else {
      UnchangedKeepsConversation(prompt, s, Foreground(cfg, s, e));
    }
  }

  lemma WorkKeepsConversation(cfg: Config, prompt: seq<Message>, s: State, e: Event)
    requires ConversationOk(prompt, s) && JobsOk(s)
    requires !(s.pc.LoopHead? || s.pc.AwaitReply? || s.pc.Grace? || s.pc.AwaitGrace?)
    requires !CriticalPC(s.pc)
    ensures ConversationOk(prompt, Foreground(cfg, s, e))
  {
    hide JobsOk, Compressed;
    if s.pc.RunTools? {
      if e.ToolsRan? && |e.checkpoints| == |s.pc.response.calls| {
        ToolsKeepConversation(prompt, s, s.pc.response, e.checkpoints);
      }
    } else if e.Proceed? {
      AddNextKeepsConversation(cfg, prompt, s);
    } else if e.CompressionReply? {
      CompressKeepsConversation(cfg, prompt, s, e.reply);
    }
  }

  lemma StepKeepsConversation(cfg: Config, prompt: seq<Message>, s: State, e: Event)
    requires ConversationOk(prompt, s) && JobsOk(s)
    ensures ConversationOk(prompt, Step(cfg, s, e))
  {
    hide ConversationOk, JobsOk, Publish, SignOff, AtCritical, AtAddNext, AtCompress, AtLoopHead, AtReply, AtGrace, AfterTools;
    match e
    case JobPublish(j, reply) => PublishKeepsConversation(cfg, prompt, s, j, reply);
    case JobExit(j) => SignOffKeepsConversation(prompt, s, j);
    case _ =>
      if CriticalPC(s.pc) {
        CriticalKeepsConversation(cfg, prompt, s);
      } else if s.pc.LoopHead? || s.pc.AwaitReply? || s.pc.Grace? || s.pc.AwaitGrace? {
        TalkKeepsConversation(cfg, prompt, s, e);
      } else {
        WorkKeepsConversation(cfg, prompt, s, e);
      }
  }

  lemma {:induction false} RunKeepsConversation(cfg: Config, prompt: seq<Message>, events: seq<Event>)
    requires Prompt(prompt)
    ensures ConversationOk(prompt, RunFrom(cfg, prompt, events))
  {
    hide Step;
    if events == [] {
      PromptBoundary(prompt);
      UncompressedShape(prompt);
    } else {
      var m := |events| - 1;
      RunKeepsConversation(cfg, prompt, events[..m]);
      RunKeepsJobs(cfg, prompt, events[..m]);
      StepKeepsConversation(cfg, prompt, RunFrom(cfg, prompt, events[..m]), events[m]);
    }
  }

  // ---------------------------------------------------------------- the theorems

  /** In every reachable state the conversation is message 0, message 1 with summary blocks appended,
      and a suffix of the full transcript from a round boundary on. */
  lemma ConversationAbbreviatesTranscript(cfg: Config, prompt: seq<Message>, events: seq<Event>)
    requires Prompt(prompt)
    ensures var s := RunFrom(cfg, prompt, events);
            prompt <= s.transcript && Shape(s.transcript, s.messages) && Paired(s.messages)
  {
    hide RunFrom;
    RunKeepsConversation(cfg, prompt, events);
    var s := RunFrom(cfg, prompt, events);
    ShapeIsPaired(s.transcript, s.messages);
  }

  /** While a job is pending, the live conversation still starts with its snapshot, and everything after
      the snapshot is the end of the transcript. */
  lemma PendingSnapshotIsAPrefix(cfg: Config, prompt: seq<Message>, events: seq<Event>)
    requires Prompt(prompt) && RunFrom(cfg, prompt, events).pending.Some?
    ensures var s := RunFrom(cfg, prompt, events);
            && s.pending.value < |s.jobs|
            && var snapshot := s.jobs[s.pending.value].snapshot;
            && snapshot <= s.messages
            && |s.messages| - |snapshot| <= |s.transcript|
            && s.messages[|snapshot|..] == s.transcript[|s.transcript| - (|s.messages| - |snapshot|)..]
  {
    hide RunFrom;
    RunKeepsConversation(cfg, prompt, events);
    RunKeepsJobs(cfg, prompt, events);
    var s := RunFrom(cfg, prompt, events);
    var base: nat :| SnapshotAt(s, s.jobs[s.pending.value], base);
    assert |s.messages[|s.jobs[s.pending.value].snapshot|..]| == |s.transcript[base..]|;
  }

  /** The part of a request that comes from the conversation; the grace request adds its own last word. */
  function Body(r: Request): seq<Message> {
    if r.grace && r.messages != [] then r.messages[..|r.messages| - 1] else r.messages
  }

  ghost predicate RequestOk(transcript: seq<Message>, r: Request, n: nat) {
    && n <= |transcript| && Prompt(transcript[..n]) && Shape(transcript[..n], Body(r))
    && (r.grace ==> r.messages == Body(r) + [FinalRound()])
  }

  /** The request was made when the transcript had some length it has since outgrown. */
  ghost predicate RequestThen(transcript: seq<Message>, r: Request) {
    exists n: nat :: RequestOk(transcript, r, n)
  }

  ghost predicate RequestsOk(s: State) {
    forall k :: 0 <= k < |s.sent| ==> RequestThen(s.transcript, s.sent[k])
  }

  /** Nothing is sent, or one request made of the live conversation; the transcript only grows. */
  predicate Sends(s: State, t: State) {
    && s.transcript <= t.transcript
    && (t.sent == s.sent
        || (t.transcript == s.transcript && |t.sent| == |s.sent| + 1 && t.sent[..|s.sent|] == s.sent
            && var r := t.sent[|s.sent|];
               && Body(r) == s.messages
               && (r.grace ==> r.messages == s.messages + [FinalRound()])))
  }

  lemma SendingSends(cfg: Config, s: State, e: Event)
    requires s.pc.LoopHead? || s.pc.Grace?
    ensures Sends(s, Foreground(cfg, s, e))
  {
    hide AtReply, AfterTools, AtAddNext, AtCompress, AtCritical, FinalRound, Total;
    var t := Foreground(cfg, s, e);
    if t.sent != s.sent {
      assert t.sent[..|s.sent|] == s.sent;
      assert (s.messages + [FinalRound()])[..|s.messages|] == s.messages;
    }
  }

  lemma StepSends(cfg: Config, s: State, e: Event)
    ensures Sends(s, Step(cfg, s, e))
  {
    hide AtLoopHead, AtReply, AfterTools, AtAddNext, AtCompress, AtGrace, Compressed, Total, FinalRound;
    var t := Step(cfg, s, e);
    if !e.JobPublish? && !e.JobExit? && !CriticalPC(s.pc) && t != s {
      assert PrivateStep(s, t);
      if t.sent != s.sent {
        SendingSends(cfg, s, e);
      }
    }
  }

  lemma SendKeepsRequests(prompt: seq<Message>, s: State, t: State)
    requires TranscriptOk(prompt, s) && RequestsOk(s) && Sends(s, t)
    ensures RequestsOk(t)
  {
    forall k | 0 <= k < |t.sent| ensures RequestThen(t.transcript, t.sent[k]) {
      if k < |s.sent| {
        assert t.sent[k] == s.sent[k];
        var n: nat :| RequestOk(s.transcript, s.sent[k], n);
        assert t.transcript[..n] == s.transcript[..n];
        assert RequestOk(t.transcript, t.sent[k], n);
      } else {
        assert s.transcript[..|s.transcript|] == s.transcript;
        assert RequestOk(t.transcript, t.sent[k], |s.transcript|);
      }
    }
  }

  lemma {:induction false} RunKeepsRequests(cfg: Config, prompt: seq<Message>, events: seq<Event>)
    requires Prompt(prompt)
    ensures RequestsOk(RunFrom(cfg, prompt, events))
  {
    hide Step;
    if events != [] {
      var m := |events| - 1;
      RunKeepsRequests(cfg, prompt, events[..m]);
      RunKeepsConversation(cfg, prompt, events[..m]);
      StepSends(cfg, RunFrom(cfg, prompt, events[..m]), events[m]);
      SendKeepsRequests(prompt, RunFrom(cfg, prompt, events[..m]), RunFrom(cfg, prompt, events));
    }
  }

  /** Every request ever sent, the grace request and those after a compression included, follows each
      tool-calling message at once by exactly its results in order, has no orphan result, and
      abbreviates the transcript of its time. */
  lemma EveryRequestIsPaired(cfg: Config, prompt: seq<Message>, events: seq<Event>, k: nat)
    requires Prompt(prompt) && k < |RunFrom(cfg, prompt, events).sent|
    ensures var s := RunFrom(cfg, prompt, events);
            && Paired(s.sent[k].messages)
            && RequestThen(s.transcript, s.sent[k])
  {
    hide RunFrom, Shape;
    RunKeepsRequests(cfg, prompt, events);
    var s := RunFrom(cfg, prompt, events);
    var r := s.sent[k];
    var n: nat :| RequestOk(s.transcript, r, n);
    ShapeIsPaired(s.transcript[..n], Body(r));
    if r.grace {
      assert Paired([FinalRound()]);
      PairedConcat(Body(r), [FinalRound()]);
    }
  }
}
