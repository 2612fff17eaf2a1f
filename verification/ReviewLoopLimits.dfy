/** What every interleaving keeps about the limits of the loop: how many requests are sent, how large
    they may be, and which cause each return value stands for. */
module ReviewLoopLimits {
  import opened Options
  import opened Conversation
  import opened ReviewLoop
  import opened ReviewLoopShape

  function MainRequests(sent: seq<Request>): nat {
    if sent == [] then 0
    else MainRequests(sent[..|sent| - 1]) + if sent[|sent| - 1].grace then 0 else 1
  }

  function GraceRequests(sent: seq<Request>): nat {
    if sent == [] then 0
    else GraceRequests(sent[..|sent| - 1]) + if sent[|sent| - 1].grace then 1 else 0
  }

  /** Tool rounds without a usable result since the last useful one; a nudge neither counts nor resets. */
  function TrailingEmpty(ends: seq<RoundEnd>): nat {
    if ends == [] then 0
    else
      var before := TrailingEmpty(ends[..|ends| - 1]);
      match ends[|ends| - 1]
      case Empty => before + 1
      case Useful => 0
      case _ => before
  }

  predicate ToolRound(end: Option<RoundEnd>) {
    end == Some(Useful) || end == Some(Empty)
  }

  /** Why the loop stopped, read off its history alone: the last word is an error, a task_done, the third
      empty round, a conversation still over the limit, the request budget, or else the context. */
  function Cause(cfg: Config, s: State): Outcome {
    if LastEnd(s) == Some(Aborted) then Outcome(false, StopNone, true)
    else if LastEnd(s) == Some(Finished) then Outcome(true, StopNone, false)
    else if TrailingEmpty(s.ends) >= MAX_CONSECUTIVE_EMPTY_ROUNDS then Outcome(false, StopEmptyRounds, false)
    else if ToolRound(LastEnd(s)) && Total(cfg, s.messages) >= cfg.warnLimit then Outcome(false, StopCompression, false)
    else if MainRequests(s.sent) >= cfg.maxToolRequests then Outcome(false, StopMaxRounds, false)
    else Outcome(false, StopNone, true)
  }

  // ---------------------------------------------------------------- the invariant

  predicate Running(s: State) {
    && LastEnd(s) != Some(Aborted) && LastEnd(s) != Some(Finished)
    && TrailingEmpty(s.ends) < MAX_CONSECUTIVE_EMPTY_ROUNDS
  }

  /** Between two rounds the conversation is under the limit, unless the last round was only a nudge. */
  predicate BetweenRounds(cfg: Config, s: State) {
    Running(s) && (ToolRound(LastEnd(s)) ==> Total(cfg, s.messages) < cfg.warnLimit)
  }

  predicate PcLimits(cfg: Config, s: State) {
    match s.pc
    case LoopHead => BetweenRounds(cfg, s)
    case Grace => BetweenRounds(cfg, s) && s.toolReqCount <= 0
    case AwaitGrace => BetweenRounds(cfg, s) && s.toolReqCount <= 0
    case AwaitReply => Running(s)
    case RunTools(_) => Running(s)
    case Exit(o) => o == Cause(cfg, s)
    case Returned(o) => o == Cause(cfg, s)
    case _ => Running(s) && ToolRound(LastEnd(s))
  }

  predicate Counted(cfg: Config, s: State) {
    && MainRequests(s.sent) == cfg.maxToolRequests - s.toolReqCount
    && (s.toolReqCount < 0 ==> s.toolReqCount == cfg.maxToolRequests)
    && |s.ends| + (if s.pc.AwaitReply? || s.pc.RunTools? then 1 else 0) == MainRequests(s.sent)
    && s.emptyRounds == TrailingEmpty(s.ends)
  }

  predicate GraceOk(s: State) {
    && GraceRequests(s.sent) <= 1
    && (GraceRequests(s.sent) == 1 ==>
          s.pc.AwaitGrace? || ((s.pc.Exit? || s.pc.Returned?) && s.pc.outcome.stop.StopMaxRounds?))
  }

  predicate SentUnderLimit(cfg: Config, sent: seq<Request>) {
    forall k :: 0 <= k < |sent| && ToolRound(sent[k].after) ==> Total(cfg, Body(sent[k])) < cfg.warnLimit
  }

  predicate LimitsOk(cfg: Config, s: State) {
    PcLimits(cfg, s) && Counted(cfg, s) && GraceOk(s) && SentUnderLimit(cfg, s.sent)
  }

  lemma EndAppend(ends: seq<RoundEnd>, end: RoundEnd)
    ensures TrailingEmpty(ends + [end]) ==
            if end.Empty? then TrailingEmpty(ends) + 1 else if end.Useful? then 0 else TrailingEmpty(ends)
  {
    assert (ends + [end])[..|ends|] == ends;
  }

  lemma SentAppend(sent: seq<Request>, r: Request)
    ensures MainRequests(sent + [r]) == MainRequests(sent) + if r.grace then 0 else 1
    ensures GraceRequests(sent + [r]) == GraceRequests(sent) + if r.grace then 1 else 0
  {
    assert (sent + [r])[..|sent|] == sent;
  }

  lemma SentKeepsLimits(cfg: Config, s: State, t: State, r: Request)
    requires LimitsOk(cfg, s) && BetweenRounds(cfg, s)
    requires t.sent == s.sent + [r] && Body(r) == s.messages && r.after == LastEnd(s)
    ensures SentUnderLimit(cfg, t.sent)
    ensures MainRequests(t.sent) == MainRequests(s.sent) + if r.grace then 0 else 1
    ensures GraceRequests(t.sent) == GraceRequests(s.sent) + if r.grace then 1 else 0
  {
    SentAppend(s.sent, r);
  }

  lemma HeadKeepsLimits(cfg: Config, s: State, e: Event)
    requires LimitsOk(cfg, s) && s.pc.LoopHead?
    ensures LimitsOk(cfg, AtLoopHead(s, e))
  {
    var t := AtLoopHead(s, e);
    assert LastEnd(t) == LastEnd(s);
    if t.sent != s.sent {
      SentKeepsLimits(cfg, s, t, Request(s.messages, false, LastEnd(s)));
    }
  }

  lemma GraceKeepsLimits(cfg: Config, s: State, e: Event)
    requires LimitsOk(cfg, s) && s.pc.Grace?
    ensures LimitsOk(cfg, AtGrace(cfg, s, e))
  {
    hide PrivateStep, SentUnderLimit, TrailingEmpty, Total, MainRequests, GraceRequests;
    var t := AtGrace(cfg, s, e);
    assert LastEnd(t) == LastEnd(s);
    if t.sent != s.sent {
      var r := Request(s.messages + [FinalRound()], true, LastEnd(s));
      assert Body(r) == s.messages;
      SentKeepsLimits(cfg, s, t, r);
    }
  }

  lemma ReplyKeepsLimits(cfg: Config, s: State, e: Event)
    requires LimitsOk(cfg, s) && s.pc.AwaitReply?
    ensures LimitsOk(cfg, AtReply(s, e))
  {
    EndAppend(s.ends, Aborted);
    EndAppend(s.ends, Nudged);
  }

  lemma ToolsKeepLimits(cfg: Config, s: State, checkpoints: seq<Checkpoint>)
    requires LimitsOk(cfg, s) && s.pc.RunTools? && |checkpoints| == |s.pc.response.calls|
    ensures LimitsOk(cfg, AfterTools(s, s.pc.response, checkpoints))
  {
    var t := AfterTools(s, s.pc.response, checkpoints);
    EndAppend(s.ends, t.ends[|s.ends|]);
  }

  predicate SameHistory(s: State, t: State) {
    t.sent == s.sent && t.ends == s.ends && t.toolReqCount == s.toolReqCount && t.emptyRounds == s.emptyRounds
  }

  lemma QuietKeepsLimits(cfg: Config, s: State, t: State)
    requires LimitsOk(cfg, s) && PcLimits(cfg, t) && !t.pc.AwaitReply? && !t.pc.RunTools?
    requires !s.pc.AwaitReply? && !s.pc.RunTools?
    requires GraceRequests(s.sent) == 1 ==> GraceOk(t)
    requires SameHistory(s, t)
    ensures LimitsOk(cfg, t)
  {
  }

  lemma CriticalLeavesHistory(cfg: Config, s: State)
    requires CriticalPC(s.pc)
    ensures SameHistory(s, AtCritical(cfg, s))
    ensures s.pc.Exit? ==> AtCritical(cfg, s).messages == s.messages
    ensures var pc := AtCritical(cfg, s).pc;
            if s.pc.Exit? then pc == Returned(s.pc.outcome)
            else pc.PreCheck? || pc.PreCompress? || pc.PostCompress? || pc.Spawn? || pc.Verdict?
  {
  }

  lemma CriticalKeepsLimits(cfg: Config, s: State)
    requires LimitsOk(cfg, s) && CriticalPC(s.pc)
    ensures LimitsOk(cfg, AtCritical(cfg, s))
  {
    CriticalLeavesHistory(cfg, s);
    QuietKeepsLimits(cfg, s, AtCritical(cfg, s));
  }

  lemma AddNextKeepsLimits(cfg: Config, s: State)
    requires LimitsOk(cfg, s) && ToolRound(LastEnd(s)) && Running(s)
    requires !s.pc.AwaitReply? && !s.pc.RunTools?
    ensures LimitsOk(cfg, AtAddNext(cfg, s))
  {
    var t := AtAddNext(cfg, s);
    assert LastEnd(t) == LastEnd(s);
    if t != s {
      QuietKeepsLimits(cfg, s, t);
    }
  }

  lemma CompressKeepsLimits(cfg: Config, s: State, reply: Reply)
    requires LimitsOk(cfg, s) && !s.pc.AwaitReply? && !s.pc.RunTools?
    ensures LimitsOk(cfg, AtCompress(cfg, s, reply))
  {
    var t := AtCompress(cfg, s, reply);
    assert LastEnd(t) == LastEnd(s);
    if t != s {
      QuietKeepsLimits(cfg, s, t);
    }
  }

  lemma WorkKeepsLimits(cfg: Config, s: State, e: Event)
    requires LimitsOk(cfg, s)
    requires !(s.pc.LoopHead? || s.pc.AwaitReply? || s.pc.Grace? || s.pc.RunTools?) && !CriticalPC(s.pc)
    ensures LimitsOk(cfg, Foreground(cfg, s, e))
  {
    if s.pc.AwaitGrace? || s.pc.Returned? {
    } else if e.Proceed? {
      AddNextKeepsLimits(cfg, s);
    } else if e.CompressionReply? {
      CompressKeepsLimits(cfg, s, e.reply);
    }
  }

  lemma BackgroundKeepsLimits(cfg: Config, s: State, e: Event)
    requires LimitsOk(cfg, s) && (e.JobPublish? || e.JobExit?)
    ensures LimitsOk(cfg, Step(cfg, s, e))
  {
    hide Compressed, TrailingEmpty, MainRequests, GraceRequests, Total, SentUnderLimit, AtLoopHead, AtReply, AfterTools, AtAddNext, AtCompress, AtCritical, AtGrace;
    var t := Step(cfg, s, e);
    assert t.pc == s.pc && t.messages == s.messages && SameHistory(s, t);
  }

  lemma StepKeepsLimits(cfg: Config, s: State, e: Event)
    requires LimitsOk(cfg, s)
    ensures LimitsOk(cfg, Step(cfg, s, e))
  {
    hide LimitsOk, AtLoopHead, AtReply, AfterTools, AtAddNext, AtCompress, AtCritical, AtGrace, Publish, SignOff;
    if e.JobPublish? || e.JobExit? {
      BackgroundKeepsLimits(cfg, s, e);
    } else if CriticalPC(s.pc) {
      CriticalKeepsLimits(cfg, s);
    } else if s.pc.LoopHead? {
      HeadKeepsLimits(cfg, s, e);
    } else if s.pc.Grace? {
      GraceKeepsLimits(cfg, s, e);
    } else if s.pc.AwaitReply? {
      ReplyKeepsLimits(cfg, s, e);
    } else if s.pc.RunTools? {
      if e.ToolsRan? && |e.checkpoints| == |s.pc.response.calls| {
        ToolsKeepLimits(cfg, s, e.checkpoints);
      }
    } else {
      WorkKeepsLimits(cfg, s, e);
    }
  }

  lemma {:induction false} RunKeepsLimits(cfg: Config, prompt: seq<Message>, events: seq<Event>)
    ensures LimitsOk(cfg, RunFrom(cfg, prompt, events))
  {
    hide Step;
    if events != [] {
      var m := |events| - 1;
      RunKeepsLimits(cfg, prompt, events[..m]);
      StepKeepsLimits(cfg, RunFrom(cfg, prompt, events[..m]), events[m]);
    }
  }

  // ---------------------------------------------------------------- the theorems

  /** At most `maxToolRequests` main requests and one grace request, which only the spent budget causes. */
  lemma RequestBudget(cfg: Config, prompt: seq<Message>, events: seq<Event>)
    ensures var s := RunFrom(cfg, prompt, events);
            && MainRequests(s.sent) <= (if cfg.maxToolRequests < 0 then 0 else cfg.maxToolRequests)
            && GraceRequests(s.sent) <= 1
            && (GraceRequests(s.sent) == 1 && s.pc.Returned? ==> s.pc.outcome == Outcome(false, StopMaxRounds, false))
            && (GraceRequests(s.sent) == 1 ==> MainRequests(s.sent) >= cfg.maxToolRequests)
  {
    hide RunFrom;
    RunKeepsLimits(cfg, prompt, events);
  }

  /** Each return value is given exactly for its cause. */
  lemma StopsForItsCause(cfg: Config, prompt: seq<Message>, events: seq<Event>)
    requires RunFrom(cfg, prompt, events).pc.Returned?
    ensures RunFrom(cfg, prompt, events).pc.outcome == Cause(cfg, RunFrom(cfg, prompt, events))
  {
    hide RunFrom;
    RunKeepsLimits(cfg, prompt, events);
  }

  /** A request that follows a tool round is under the warning limit; the grace round's own message is
      not counted. */
  lemma RequestsAfterToolsAreUnderLimit(cfg: Config, prompt: seq<Message>, events: seq<Event>, k: nat)
    requires k < |RunFrom(cfg, prompt, events).sent|
    requires ToolRound(RunFrom(cfg, prompt, events).sent[k].after)
    ensures Total(cfg, Body(RunFrom(cfg, prompt, events).sent[k])) < cfg.warnLimit
  {
    hide RunFrom;
    RunKeepsLimits(cfg, prompt, events);
  }
}
