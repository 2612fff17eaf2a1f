/** The loop that drives one conversation, interleaved with its background compression jobs
    (RunMainTask, addNextMessage and the async half of compression.go), as a transition system.

    A step is one atomic action: a critical section under the compression mutex, a request or its
    reply, or a stretch of foreground code that touches nothing shared. `Run` folds any sequence of
    events, so a statement about `Run` covers every interleaving and every model and tool behaviour. */
module ReviewLoop {
  import opened Options
  import opened Conversation

  // ---------------------------------------------------------------- state

  datatype Stop = StopNone | StopMaxRounds | StopEmptyRounds | StopCompression

  /** What RunMainTask returns; `failed` is a non-nil error. */
  datatype Outcome = Outcome(completed: bool, stop: Stop, failed: bool)

  /** A goroutine exists from Spawned on; Published means it has left its critical section but not
      yet signed off from the wait group. */
  datatype Phase = Created | Spawned | Published | Exited

  /** A compression job. Its index in `State.jobs` stands for its address. */
  datatype Job = Job(snapshot: seq<Message>, done: bool, rebuilt: Option<seq<Message>>, phase: Phase)

  datatype Response = Response(content: string, calls: seq<ToolCall>, native: string, reasoning: string)

  datatype Checkpoint = Completed | Failed | Data(text: string)

  datatype ToolCallResult = ToolCallResult(id: string, result: string)

  datatype Turn = Turn(response: Response, results: seq<ToolCallResult>)

  /** How one main request ended. */
  datatype RoundEnd = Aborted | Nudged | Finished | Useful | Empty

  /** `after` is how the round before this request ended. */
  datatype Request = Request(messages: seq<Message>, grace: bool, after: Option<RoundEnd>)

  datatype Fate = Applied | Cancelled | Broken

  datatype PC =
    | LoopHead
    | AwaitReply
    | RunTools(response: Response)
    | ReadSlot(turn: Turn)
    | PollJob(turn: Turn, job: nat)
    | SwapJob(turn: Turn, job: nat)
    | PreCheck(turn: Turn)
    | PreCancel(turn: Turn)
    | PreCompress(turn: Turn)
    | AppendTurn(turn: Turn)
    | PostCheck
    | PostCancel
    | PostCompress
    | MaybeTrigger
    | Spawn(job: nat)
    | Verdict
    | Grace
    | AwaitGrace
    | Exit(outcome: Outcome)
    | Returned(outcome: Outcome)

  /** `transcript` is the conversation as it would be without any compression; `ends` lists how the
      rounds so far ended and `fates` what became of the jobs that left the pending slot. */
  datatype State = State(
    pc: PC,
    messages: seq<Message>,
    transcript: seq<Message>,
    toolReqCount: int,
    emptyRounds: nat,
    pending: Option<nat>,
    jobs: seq<Job>,
    background: int,
    sent: seq<Request>,
    ends: seq<RoundEnd>,
    fates: seq<(nat, Fate)>)

  datatype Event =
    | Proceed
    | ContextDone
    | ModelReply(response: Response)
    | ModelError
    | ToolsRan(checkpoints: seq<Checkpoint>)
    | CompressionReply(reply: Reply)
    | JobPublish(job: nat, reply: Reply)
    | JobExit(job: nat)

  const MAX_CONSECUTIVE_EMPTY_ROUNDS := 3

  function Start(cfg: Config, prompt: seq<Message>): State {
    State(LoopHead, prompt, prompt, cfg.maxToolRequests, 0, None, [], 0, [], [], [])
  }

  // ---------------------------------------------------------------- pieces of a round

  function Nudge(): Message {
    TextMessage(User, "You did not successfully call any tools. Please try again or use task_done if finished.")
  }

  /** The notice of the grace round; what it goes on to say about the tools is left out. */
  function FinalRound(): Message {
    TextMessage(User, "Your tool-call budget is exhausted. This is your FINAL round.")
  }

  /** What a reply without tool calls adds: the assistant's words, if any, and then the nudge. */
  function NudgeMessages(r: Response): seq<Message> {
    (if r.content != "" || r.native != "" || r.reasoning != ""
     then [ToolCallMessage(r.content, [], r.native, r.reasoning)] else [])
    + [Nudge()]
  }

  function ResultMessages(results: seq<ToolCallResult>): (r: seq<Message>)
    ensures |r| == |results|
  {
    if results == [] then []
    else [ToolResultMessage(results[0].id, results[0].result)] + ResultMessages(results[1..])
  }

  function TurnMessages(t: Turn): seq<Message> {
    var r := t.response;
    (if r.calls != [] then [ToolCallMessage(r.content, r.calls, r.native, r.reasoning)]
     else if r.content != "" || r.native != "" then [ToolCallMessage(r.content, [], r.native, r.reasoning)]
     else [])
    + ResultMessages(t.results)
  }

  function ResultText(c: Checkpoint): string {
    match c
    case Completed => "Task completed successfully."
    case Failed => ""
    case Data(text) => if text != "" then text else "Error: Tool execution returned no result."
  }

  function Results(calls: seq<ToolCall>, checkpoints: seq<Checkpoint>): (r: seq<ToolCallResult>)
    requires |calls| == |checkpoints|
    ensures |r| == |calls|
  {
    if calls == [] then []
    else [ToolCallResult(calls[0].id, ResultText(checkpoints[0]))] + Results(calls[1..], checkpoints[1..])
  }

  predicate AnyUseful(checkpoints: seq<Checkpoint>) {
    exists k :: 0 <= k < |checkpoints| && checkpoints[k].Data? && checkpoints[k].text != ""
  }

  function LastEnd(s: State): Option<RoundEnd> {
    if s.ends == [] then None else Some(s.ends[|s.ends| - 1])
  }

  // ---------------------------------------------------------------- the critical sections

  /** cancelPendingCompression */
  function CancelPending(s: State): State {
    match s.pending
    case None => s
    case Some(j) => s.(pending := None, fates := s.fates + [(j, Cancelled)])
  }

  /** The check-and-set of triggerAsyncCompression; the snapshot is the live conversation. */
  function TriggerJob(s: State): State {
    if s.pending.Some? then s
    else s.(pending := Some(|s.jobs|), jobs := s.jobs + [Job(s.messages, false, None, Created)])
  }

  /** The last critical section of tryApplyPendingCompression, for a job seen done. */
  function SwapIn(s: State, j: nat): State {
    if s.pending != Some(j) || j >= |s.jobs| then s
    else
      var job := s.jobs[j];
      if job.rebuilt.None? then s.(pending := None, fates := s.fates + [(j, Broken)])
      else
        var tail := if |job.snapshot| < |s.messages| then s.messages[|job.snapshot|..] else [];
        s.(messages := job.rebuilt.value + tail, pending := None, fates := s.fates + [(j, Applied)])
  }

  /** The job goroutine's critical section, once its own compression call has returned. */
  function Publish(cfg: Config, s: State, j: nat, reply: Reply): State {
    if j >= |s.jobs| || !s.jobs[j].phase.Spawned? then s
    else
      var job := s.jobs[j].(phase := Published);
      var c := Compressed(cfg, job.snapshot, reply);
      if s.pending != Some(j) then s.(jobs := s.jobs[j := job])
      else if c.failed then
        s.(jobs := s.jobs[j := job.(done := true)], pending := None, fates := s.fates + [(j, Broken)])
      else s.(jobs := s.jobs[j := job.(done := true, rebuilt := Some(c.messages))])
  }

  // ---------------------------------------------------------------- steps

  predicate SameJobs(s: State, t: State) {
    t.pending == s.pending && t.jobs == s.jobs && t.background == s.background && t.fates == s.fates
  }

  /** A step outside the critical sections: it leaves the jobs alone, sends only from the loop head or
      the grace round, and enters none of the places that only a critical section leads to. */
  predicate PrivateStep(s: State, t: State) {
    && SameJobs(s, t)
    && s.transcript <= t.transcript
    && (t.sent != s.sent ==> s.pc.LoopHead? || s.pc.Grace?)
    && !t.pc.Spawn? && !t.pc.PreCompress? && !t.pc.PostCompress? && !t.pc.Returned?
    && (t.pc.SwapJob? ==> t.pc.job < |s.jobs| && s.jobs[t.pc.job].done)
  }

  function SendRequest(s: State, pc: PC, messages: seq<Message>, grace: bool): State {
    s.(pc := pc, sent := s.sent + [Request(messages, grace, LastEnd(s))])
  }

  function AtLoopHead(s: State, e: Event): (t: State)
    requires s.pc.LoopHead?
    ensures t == s || PrivateStep(s, t)
  {
    if s.toolReqCount <= 0 then (if e.Proceed? then s.(pc := Grace) else s)
    else if e.ContextDone? then s.(pc := Exit(Outcome(false, StopNone, true)))
    else if e.Proceed? then SendRequest(s.(toolReqCount := s.toolReqCount - 1), AwaitReply, s.messages, false)
    else s
  }

  function AtReply(s: State, e: Event): (t: State)
    ensures t == s || PrivateStep(s, t)
  {
    hide NudgeMessages;
    match e
    case ModelError => s.(pc := Exit(Outcome(false, StopNone, true)), ends := s.ends + [Aborted])
    case ModelReply(r) =>
      if r.calls != [] then s.(pc := RunTools(r))
      else s.(pc := LoopHead, ends := s.ends + [Nudged],
              messages := s.messages + NudgeMessages(r), transcript := s.transcript + NudgeMessages(r))
    case _ => s
  }

  function AfterTools(s: State, r: Response, checkpoints: seq<Checkpoint>): (t: State)
    requires |checkpoints| == |r.calls|
    ensures PrivateStep(s, t)
  {
    var turn := Turn(r, Results(r.calls, checkpoints));
    if Failed in checkpoints then s.(pc := Exit(Outcome(false, StopNone, true)), ends := s.ends + [Aborted])
    else if Completed in checkpoints then s.(pc := Exit(Outcome(true, StopNone, false)), ends := s.ends + [Finished])
    else if AnyUseful(checkpoints) then s.(pc := ReadSlot(turn), ends := s.ends + [Useful], emptyRounds := 0)
    else if s.emptyRounds + 1 >= MAX_CONSECUTIVE_EMPTY_ROUNDS then
      s.(pc := Exit(Outcome(false, StopEmptyRounds, false)), ends := s.ends + [Empty], emptyRounds := s.emptyRounds + 1)
    else s.(pc := ReadSlot(turn), ends := s.ends + [Empty], emptyRounds := s.emptyRounds + 1)
  }

  /** addNextMessage outside its critical sections. */
  function AtAddNext(cfg: Config, s: State): (t: State)
    ensures t == s || PrivateStep(s, t)
  {
    match s.pc
    case ReadSlot(turn) => s.(pc := if s.pending.Some? then PollJob(turn, s.pending.value) else PreCheck(turn))
    case PollJob(turn, j) =>
      s.(pc := if j < |s.jobs| && s.jobs[j].done then SwapJob(turn, j) else PreCheck(turn))
    case PreCheck(turn) =>
      s.(pc := if Total(cfg, s.messages) > cfg.warnLimit then PreCancel(turn) else AppendTurn(turn))
    case AppendTurn(turn) =>
      s.(pc := PostCheck, messages := s.messages + TurnMessages(turn), transcript := s.transcript + TurnMessages(turn))
    case PostCheck => s.(pc := if Total(cfg, s.messages) > cfg.warnLimit then PostCancel else MaybeTrigger)
    case Verdict =>
      s.(pc := if Total(cfg, s.messages) < cfg.warnLimit then LoopHead else Exit(Outcome(false, StopCompression, false)))
    case _ => s
  }

  /** The synchronous compression: the foreground waits for its own summarising call. */
  function AtCompress(cfg: Config, s: State, reply: Reply): (t: State)
    ensures t == s || PrivateStep(s, t)
  {
    match s.pc
    case PreCompress(turn) => s.(pc := AppendTurn(turn), messages := Compressed(cfg, s.messages, reply).messages)
    case PostCompress => s.(pc := MaybeTrigger, messages := Compressed(cfg, s.messages, reply).messages)
    case _ => s
  }

  predicate CriticalPC(pc: PC) {
    pc.SwapJob? || pc.PreCancel? || pc.PostCancel? || pc.MaybeTrigger? || pc.Spawn? || pc.Exit?
  }

  /** The foreground's critical sections, and the registration of a new job with the wait group. */
  function AtCritical(cfg: Config, s: State): State
    requires CriticalPC(s.pc)
  {
    match s.pc
    case SwapJob(turn, j) => SwapIn(s, j).(pc := PreCheck(turn))
    case PreCancel(turn) => CancelPending(s).(pc := PreCompress(turn))
    case PostCancel => CancelPending(s).(pc := PostCompress)
    case MaybeTrigger =>
      if cfg.softLimit < Total(cfg, s.messages) < cfg.warnLimit && s.pending.None? then
        TriggerJob(s).(pc := Spawn(|s.jobs|))
      else s.(pc := Verdict)
    case Spawn(j) =>
      if j >= |s.jobs| then s
      else s.(pc := Verdict, background := s.background + 1, jobs := s.jobs[j := s.jobs[j].(phase := Spawned)])
    case Exit(o) => CancelPending(s).(pc := Returned(o))
  }

  function AtGrace(cfg: Config, s: State, e: Event): (t: State)
    ensures t == s || PrivateStep(s, t)
  {
    hide FinalRound;
    var over := s.(pc := Exit(Outcome(false, StopMaxRounds, false)));
    if s.pc.Grace? then
      if e.Proceed? && cfg.hasGraceTools then SendRequest(s, AwaitGrace, s.messages + [FinalRound()], true)
      else if e.Proceed? || e.ContextDone? then over
      else s
    else if e.ModelReply? || e.ModelError? then over
    else s
  }

  function Foreground(cfg: Config, s: State, e: Event): State {
    if CriticalPC(s.pc) then (if e.Proceed? then AtCritical(cfg, s) else s)
    else match s.pc
      case LoopHead => AtLoopHead(s, e)
      case AwaitReply => AtReply(s, e)
      case RunTools(r) =>
        if e.ToolsRan? && |e.checkpoints| == |r.calls| then AfterTools(s, r, e.checkpoints) else s
      case Grace => AtGrace(cfg, s, e)
      case AwaitGrace => AtGrace(cfg, s, e)
      case Returned(_) => s
      case _ =>
        if e.Proceed? then AtAddNext(cfg, s)
        else if e.CompressionReply? then AtCompress(cfg, s, e.reply)
        else s
  }

  function SignOff(s: State, j: nat): State {
    if j < |s.jobs| && s.jobs[j].phase.Published? then
      s.(jobs := s.jobs[j := s.jobs[j].(phase := Exited)], background := s.background - 1)
    else s
  }

  /** One event. An event that cannot happen in the current state changes nothing. */
  function Step(cfg: Config, s: State, e: Event): State {
    match e
    case JobPublish(j, reply) => Publish(cfg, s, j, reply)
    case JobExit(j) => SignOff(s, j)
    case _ => Foreground(cfg, s, e)
  }

  function Run(cfg: Config, s: State, events: seq<Event>): State {
    if events == [] then s
    else Step(cfg, Run(cfg, s, events[..|events| - 1]), events[|events| - 1])
  }

  function RunFrom(cfg: Config, prompt: seq<Message>, events: seq<Event>): State {
    Run(cfg, Start(cfg, prompt), events)
  }
}
