/** What a run of the loop owes to its events: how each round ended, what was said, and what RunMainTask
    returns are read off the replies and the tools' answers alone. */
module ReviewLoopHistory {
  import opened Options
  import opened Conversation
  import opened ReviewLoop
  import opened ReviewLoopLimits

  /** RunMainTask is on its way out or has returned. */
  predicate IsOut(pc: PC) {
    pc.Exit? || pc.Returned?
  }

  /** How a round with these answers of its tools ends: a failed one is an error, then task_done counts,
      then any text. */
  function Judged(checkpoints: seq<Checkpoint>): RoundEnd {
    if exists k :: 0 <= k < |checkpoints| && checkpoints[k] == Failed then Aborted
    else if exists k :: 0 <= k < |checkpoints| && checkpoints[k] == Completed then Finished
    else if exists k :: 0 <= k < |checkpoints| && checkpoints[k].Data? && checkpoints[k].text != "" then Useful
    else Empty
  }

  /** The tools of the reply `r` answer. */
  predicate Answer(pc: PC, e: Event) {
    pc.RunTools? && e.ToolsRan? && |e.checkpoints| == |pc.response.calls|
  }

  /** The round an event ends, if it ends one. */
  function Ending(pc: PC, e: Event): seq<RoundEnd> {
    if pc.AwaitReply? && e.ModelError? then [Aborted]
    else if pc.AwaitReply? && e.ModelReply? && e.response.calls == [] then [Nudged]
    else if Answer(pc, e) then [Judged(e.checkpoints)]
    else []
  }

  /** Where the foreground stands in front of the i-th event. */
  function Place(cfg: Config, prompt: seq<Message>, events: seq<Event>, i: nat): PC
    requires i <= |events|
  {
    RunFrom(cfg, prompt, events[..i]).pc
  }

  function EndsOf(cfg: Config, prompt: seq<Message>, events: seq<Event>): seq<RoundEnd> {
    if events == [] then []
    else
      var m := |events| - 1;
      EndsOf(cfg, prompt, events[..m]) + Ending(Place(cfg, prompt, events, m), events[m])
  }

  lemma ToolsEndAsJudged(s: State, r: Response, checkpoints: seq<Checkpoint>)
    requires |checkpoints| == |r.calls|
    ensures AfterTools(s, r, checkpoints).ends == s.ends + [Judged(checkpoints)]
  {
    assert (exists k :: 0 <= k < |checkpoints| && checkpoints[k] == Failed) <==> Failed in checkpoints;
    assert (exists k :: 0 <= k < |checkpoints| && checkpoints[k] == Completed) <==> Completed in checkpoints;
  }

  lemma StepEnds(cfg: Config, s: State, e: Event)
    ensures Step(cfg, s, e).ends == s.ends + Ending(s.pc, e)
  {
    hide Judged, AfterTools, AnyUseful, Compressed, Total, TurnMessages, NudgeMessages;
    assert s.ends + [] == s.ends;
    if Answer(s.pc, e) {
      ToolsEndAsJudged(s, s.pc.response, e.checkpoints);
    }
  }

  /** In every run the rounds have ended as the replies and the tools' answers say. */
  lemma {:induction false} EndsAreHistory(cfg: Config, prompt: seq<Message>, events: seq<Event>)
    ensures RunFrom(cfg, prompt, events).ends == EndsOf(cfg, prompt, events)
  {
    hide Step, Ending;
    if events != [] {
      var m := |events| - 1;
      EndsAreHistory(cfg, prompt, events[..m]);
      StepEnds(cfg, RunFrom(cfg, prompt, events[..m]), events[m]);
    }
  }

  // ---------------------------------------------------------------- task_done

  /** The i-th event is a tool round in which task_done was answered and no tool failed. */
  predicate TaskDone(cfg: Config, prompt: seq<Message>, events: seq<Event>, i: nat) {
    && i < |events| && Answer(Place(cfg, prompt, events, i), events[i])
    && (exists k :: 0 <= k < |events[i].checkpoints| && events[i].checkpoints[k] == Completed)
    && forall k :: 0 <= k < |events[i].checkpoints| ==> events[i].checkpoints[k] != Failed
  }

  /** The round that ends it is the last. */
  ghost predicate DoneIsLast(ends: seq<RoundEnd>) {
    forall k :: 0 <= k < |ends| - 1 ==> ends[k] != Finished && ends[k] != Aborted
  }

  lemma {:induction false} RunEndsWithDone(cfg: Config, prompt: seq<Message>, events: seq<Event>)
    ensures DoneIsLast(RunFrom(cfg, prompt, events).ends)
  {
    hide Step, LimitsOk, Judged;
    if events != [] {
      var m := |events| - 1;
      var s := RunFrom(cfg, prompt, events[..m]);
      RunEndsWithDone(cfg, prompt, events[..m]);
      StepEnds(cfg, s, events[m]);
      RunKeepsLimits(cfg, prompt, events[..m]);
      OpenRoundsRun(cfg, s);
    }
  }

  lemma OpenRoundsRun(cfg: Config, s: State)
    requires LimitsOk(cfg, s)
    ensures s.pc.AwaitReply? || s.pc.RunTools? ==> LastEnd(s) != Some(Finished) && LastEnd(s) != Some(Aborted)
    ensures !(s.pc.Exit? || s.pc.Returned?) ==> LastEnd(s) != Some(Finished) && LastEnd(s) != Some(Aborted)
    ensures s.pc.Exit? || s.pc.Returned? ==> (s.pc.outcome.completed <==> LastEnd(s) == Some(Finished))
  {
  }

  lemma EndsGrow(cfg: Config, prompt: seq<Message>, events: seq<Event>, i: nat)
    requires i < |events|
    ensures EndsOf(cfg, prompt, events[..i]) + Ending(Place(cfg, prompt, events, i), events[i]) <= EndsOf(cfg, prompt, events)
    decreases |events|
  {
    hide Ending, RunFrom;
    var m := |events| - 1;
    if i < m {
      EndsGrow(cfg, prompt, events[..m], i);
      assert events[..m][..i] == events[..i];
    }
  }

  lemma {:induction false} FinishedWasDone(cfg: Config, prompt: seq<Message>, events: seq<Event>) returns (i: nat)
    requires Finished in EndsOf(cfg, prompt, events)
    ensures TaskDone(cfg, prompt, events, i)
  {
    hide RunFrom;
    var m := |events| - 1;
    if Finished in EndsOf(cfg, prompt, events[..m]) {
      i := FinishedWasDone(cfg, prompt, events[..m]);
      assert events[..m][..i] == events[..i];
    } else {
      i := m;
    }
  }

  lemma DoneIsFinished(cfg: Config, prompt: seq<Message>, events: seq<Event>, i: nat)
    requires TaskDone(cfg, prompt, events, i)
    ensures Finished in EndsOf(cfg, prompt, events)
  {
    hide RunFrom;
    EndsGrow(cfg, prompt, events, i);
    var here := Ending(Place(cfg, prompt, events, i), events[i]);
    assert here == [Finished];
    var before := EndsOf(cfg, prompt, events[..i]);
    assert (before + here)[|before|] == Finished;
  }

  /** task_done ends the loop: once a tool round has answered it and no tool failed, the foreground is on its
      way out with a completed outcome and no further round ever ends; and nothing else completes a run. */
  lemma TaskDoneEndsTheLoop(cfg: Config, prompt: seq<Message>, events: seq<Event>)
    ensures var pc := RunFrom(cfg, prompt, events).pc;
            var done := exists i: nat :: TaskDone(cfg, prompt, events, i);
            && (done ==> IsOut(pc) && pc.outcome == Outcome(true, StopNone, false))
            && (IsOut(pc) ==> (pc.outcome.completed <==> done))
  {
    hide RunFrom, TaskDone, Ending;
    var s := RunFrom(cfg, prompt, events);
    EndsAreHistory(cfg, prompt, events);
    RunEndsWithDone(cfg, prompt, events);
    RunKeepsLimits(cfg, prompt, events);
    OpenRoundsRun(cfg, s);
    if exists i: nat :: TaskDone(cfg, prompt, events, i) {
      var i: nat :| TaskDone(cfg, prompt, events, i);
      DoneIsFinished(cfg, prompt, events, i);
      assert s.ends[|s.ends| - 1] == Finished;
    } else if s.pc.Exit? || s.pc.Returned? {
      if LastEnd(s) == Some(Finished) {
        var i := FinishedWasDone(cfg, prompt, events);
      }
    }
  }

  // ---------------------------------------------------------------- errors and other causes

  /** The event is an error: the context is done in front of a request, the model fails, or a tool does. */
  predicate Fails(s: State, e: Event) {
    (s.pc.LoopHead? && s.toolReqCount > 0 && e.ContextDone?) || Ending(s.pc, e) == [Aborted]
  }

  predicate FailsAt(cfg: Config, prompt: seq<Message>, events: seq<Event>, i: nat) {
    i < |events| && Fails(RunFrom(cfg, prompt, events[..i]), events[i])
  }

  lemma StepFails(cfg: Config, s: State, e: Event)
    ensures var t := Step(cfg, s, e);
            if IsOut(s.pc) then IsOut(t.pc) && t.pc.outcome == s.pc.outcome && !Fails(s, e)
            else IsOut(t.pc) && t.pc.outcome.failed <==> Fails(s, e)
  {
    hide AnyUseful, Compressed, Total, TurnMessages, NudgeMessages, FinalRound, Results;
    if Answer(s.pc, e) {
      ToolsEndAsJudged(s, s.pc.response, e.checkpoints);
    }
  }

  /** A run returns an error exactly when one has happened. */
  lemma {:induction false} ErrorsEndTheLoop(cfg: Config, prompt: seq<Message>, events: seq<Event>)
    ensures var s := RunFrom(cfg, prompt, events);
            IsOut(s.pc) && s.pc.outcome.failed <==> exists i: nat :: FailsAt(cfg, prompt, events, i)
  {
    hide Step, Fails;
    if events != [] {
      var m := |events| - 1;
      ErrorsEndTheLoop(cfg, prompt, events[..m]);
      StepFails(cfg, RunFrom(cfg, prompt, events[..m]), events[m]);
      if exists i: nat :: FailsAt(cfg, prompt, events[..m], i) {
        var i: nat :| FailsAt(cfg, prompt, events[..m], i);
        assert events[..m][..i] == events[..i];
        assert FailsAt(cfg, prompt, events, i);
      }
      if exists i: nat :: FailsAt(cfg, prompt, events, i) {
        var i: nat :| FailsAt(cfg, prompt, events, i);
        assert i < m ==> events[..m][..i] == events[..i] && FailsAt(cfg, prompt, events[..m], i);
      }
      assert Fails(RunFrom(cfg, prompt, events[..m]), events[m]) ==> FailsAt(cfg, prompt, events, m);
    }
  }

  /** Without an error or task_done a run stops for three tool rounds without a usable answer since the last
      useful one, for a conversation that is over the limit behind a tool round, or for the spent budget. */
  lemma ReturnsForItsHistory(cfg: Config, prompt: seq<Message>, events: seq<Event>)
    requires RunFrom(cfg, prompt, events).pc.Returned? && !RunFrom(cfg, prompt, events).pc.outcome.failed
    ensures var s, ends := RunFrom(cfg, prompt, events), EndsOf(cfg, prompt, events);
            s.pc.outcome ==
            if exists i: nat :: TaskDone(cfg, prompt, events, i) then Outcome(true, StopNone, false)
            else if TrailingEmpty(ends) >= 3 then Outcome(false, StopEmptyRounds, false)
            else if ends != [] && ends[|ends| - 1] in {Useful, Empty} && Total(cfg, s.messages) >= cfg.warnLimit
            then Outcome(false, StopCompression, false)
            else Outcome(false, StopMaxRounds, false)
  {
    hide RunFrom, TaskDone, Total, TrailingEmpty;
    EndsAreHistory(cfg, prompt, events);
    StopsForItsCause(cfg, prompt, events);
    TaskDoneEndsTheLoop(cfg, prompt, events);
  }

  // ---------------------------------------------------------------- what is said

  /** The text of a tool's answer. */
  function Words(c: Checkpoint): string {
    match c
    case Completed => "Task completed successfully."
    case Failed => ""
    case Data(text) => if text == "" then "Error: Tool execution returned no result." else text
  }

  /** What a reply without tool calls adds to the conversation, and a reply with the answers of its tools. */
  function Nudging(r: Response): seq<Message> {
    (if r.content == "" && r.native == "" && r.reasoning == "" then []
     else [Message(Assistant, r.content, "", [], r.native, r.reasoning)])
    + [Message(User, "You did not successfully call any tools. Please try again or use task_done if finished.", "", [], "", "")]
  }

  function Telling(r: Response, checkpoints: seq<Checkpoint>): seq<Message>
    requires |checkpoints| == |r.calls|
  {
    [Message(Assistant, r.content, "", r.calls, r.native, r.reasoning)]
    + seq(|checkpoints|, k requires 0 <= k < |checkpoints| =>
        Message(Tool, Words(checkpoints[k]), r.calls[k].id, [], "", ""))
  }

  datatype Past = Past(said: seq<Message>, reply: Response, answers: seq<Checkpoint>)

  /** `reply` and `answers` are those of the last tool round; they are said when the turn is appended. */
  function PastBehind(past: Past, pc: PC, e: Event): (after: Past)
    requires |past.answers| == |past.reply.calls|
    ensures |after.answers| == |after.reply.calls|
  {
    if pc.AwaitReply? && e.ModelReply? && e.response.calls == [] then past.(said := past.said + Nudging(e.response))
    else if Answer(pc, e) then past.(reply := pc.response, answers := e.checkpoints)
    else if pc.AppendTurn? && e.Proceed? then past.(said := past.said + Telling(past.reply, past.answers))
    else past
  }

  function PastOf(cfg: Config, prompt: seq<Message>, events: seq<Event>): (past: Past)
    ensures |past.answers| == |past.reply.calls|
  {
    if events == [] then Past(prompt, Response("", [], "", ""), [])
    else
      var m := |events| - 1;
      var past, pc, e := PastOf(cfg, prompt, events[..m]), Place(cfg, prompt, events, m), events[m];
      PastBehind(past, pc, e)
  }

  function TurnOf(pc: PC): Option<Turn> {
    match pc
    case ReadSlot(t) => Some(t)
    case PollJob(t, _) => Some(t)
    case SwapJob(t, _) => Some(t)
    case PreCheck(t) => Some(t)
    case PreCancel(t) => Some(t)
    case PreCompress(t) => Some(t)
    case AppendTurn(t) => Some(t)
    case _ => None
  }

  predicate IsTurn(past: Past, t: Turn)
    requires |past.answers| == |past.reply.calls|
  {
    && t.response == past.reply && past.reply.calls != []
    && |t.results| == |past.answers|
    && forall k :: 0 <= k < |t.results| ==> t.results[k] == ToolCallResult(past.reply.calls[k].id, Words(past.answers[k]))
  }

  predicate Remembers(s: State, past: Past)
    requires |past.answers| == |past.reply.calls|
  {
    && s.transcript == past.said
    && (s.pc.RunTools? ==> s.pc.response.calls != [])
    && (TurnOf(s.pc).Some? ==> IsTurn(past, TurnOf(s.pc).value))
  }

  lemma {:induction false} ResultsAreWords(calls: seq<ToolCall>, checkpoints: seq<Checkpoint>, k: nat)
    requires |calls| == |checkpoints| && k < |calls|
    ensures Results(calls, checkpoints)[k] == ToolCallResult(calls[k].id, Words(checkpoints[k]))
    decreases |calls|
  {
    if k > 0 {
      ResultsAreWords(calls[1..], checkpoints[1..], k - 1);
    }
  }

  lemma {:induction false} ResultMessagesAre(results: seq<ToolCallResult>, k: nat)
    requires k < |results|
    ensures ResultMessages(results)[k] == Message(Tool, results[k].result, results[k].id, [], "", "")
    decreases |results|
  {
    if k > 0 {
      ResultMessagesAre(results[1..], k - 1);
    }
  }

  lemma TurnIsTold(past: Past, t: Turn)
    requires |past.answers| == |past.reply.calls| && IsTurn(past, t)
    ensures TurnMessages(t) == Telling(past.reply, past.answers)
  {
    forall k | 0 <= k < |t.results|
      ensures ResultMessages(t.results)[k] == Message(Tool, Words(past.answers[k]), past.reply.calls[k].id, [], "", "")
    {
      ResultMessagesAre(t.results, k);
    }
  }

  lemma NudgeIsTold(r: Response)
    ensures NudgeMessages(r) == Nudging(r)
  {
  }

  lemma ToolsAreRemembered(s: State, r: Response, checkpoints: seq<Checkpoint>, past: Past)
    requires |checkpoints| == |r.calls| && r.calls != [] && s.transcript == past.said
    ensures Remembers(AfterTools(s, r, checkpoints), past.(reply := r, answers := checkpoints))
  {
    forall k | 0 <= k < |r.calls|
      ensures Results(r.calls, checkpoints)[k] == ToolCallResult(r.calls[k].id, Words(checkpoints[k]))
    {
      ResultsAreWords(r.calls, checkpoints, k);
    }
  }

  lemma CriticalRemembers(cfg: Config, s: State, past: Past)
    requires |past.answers| == |past.reply.calls| && Remembers(s, past) && CriticalPC(s.pc)
    ensures Remembers(AtCritical(cfg, s), past)
  {
    hide Total, IsTurn;
  }

  lemma BackgroundRemembers(cfg: Config, s: State, e: Event, past: Past)
    requires |past.answers| == |past.reply.calls| && Remembers(s, past) && (e.JobPublish? || e.JobExit?)
    ensures Remembers(Step(cfg, s, e), past) && Step(cfg, s, e).pc == s.pc
  {
    hide IsTurn, Compressed;
  }

  lemma QuietRemembers(cfg: Config, s: State, e: Event, past: Past)
    requires |past.answers| == |past.reply.calls| && Remembers(s, past) && !CriticalPC(s.pc)
    requires !s.pc.AwaitReply? && !s.pc.RunTools? && !(s.pc.AppendTurn? && e.Proceed?)
    ensures Remembers(Foreground(cfg, s, e), past)
  {
    hide IsTurn, Compressed, Total, FinalRound, LastEnd, AtReply, AfterTools, AtCritical;
  }

  /** In every run the transcript is the prompt and what the replies and the tools' answers say, in order. */
  lemma {:induction false} RunRemembers(cfg: Config, prompt: seq<Message>, events: seq<Event>)
    ensures Remembers(RunFrom(cfg, prompt, events), PastOf(cfg, prompt, events))
  {
    hide Step, Foreground, IsTurn, Nudging, Telling, NudgeMessages, TurnMessages, Remembers, PastBehind;
    if events == [] {
      StartRemembers(cfg, prompt);
    } else {
      var m := |events| - 1;
      RunRemembers(cfg, prompt, events[..m]);
      StepRemembers(cfg, RunFrom(cfg, prompt, events[..m]), events[m], PastOf(cfg, prompt, events[..m]));
    }
  }

  lemma StartRemembers(cfg: Config, prompt: seq<Message>)
    ensures Remembers(RunFrom(cfg, prompt, []), PastOf(cfg, prompt, []))
  {
  }

  lemma StepRemembers(cfg: Config, s: State, e: Event, past: Past)
    requires |past.answers| == |past.reply.calls| && Remembers(s, past)
    ensures Remembers(Step(cfg, s, e), PastBehind(past, s.pc, e))
  {
    hide IsTurn, Nudging, Telling, NudgeMessages, TurnMessages, AtCritical, AtLoopHead, AtGrace, AtCompress, Publish, SignOff, AfterTools;
    if e.JobPublish? || e.JobExit? {
      BackgroundRemembers(cfg, s, e, past);
    } else if CriticalPC(s.pc) {
      CriticalRemembers(cfg, s, past);
    } else if s.pc.AwaitReply? {
      if e.ModelReply? {
        NudgeIsTold(e.response);
      }
    } else if s.pc.RunTools? {
      if Answer(s.pc, e) {
        ToolsAreRemembered(s, s.pc.response, e.checkpoints, past);
      }
    } else if s.pc.AppendTurn? && e.Proceed? {
      TurnIsTold(past, s.pc.turn);
    } else {
      QuietRemembers(cfg, s, e, past);
    }
  }
}
