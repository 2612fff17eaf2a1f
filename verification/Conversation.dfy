/** One conversation with the model: its messages, how they group into rounds, and the three-zone
    compression that replaces a middle stretch by a summary (internal/llmloop/compression.go).

    The token count of a message, the summary text and the success of the summarising call are
    arbitrary: `Config.tokens` is any function, and a `Reply` is whatever the model answered. */
module Conversation {

  datatype Role = System | User | Assistant | Tool

  datatype ToolCall = ToolCall(id: string, name: string, arguments: string)

  /** `native` stands for the provider's opaque replay payload; "" is the absent payload. */
  datatype Message = Message(
    role: Role, content: string, toolCallId: string, toolCalls: seq<ToolCall>, native: string, reasoning: string)

  function TextMessage(role: Role, content: string): Message {
    Message(role, content, "", [], "", "")
  }

  function ToolCallMessage(content: string, calls: seq<ToolCall>, native: string, reasoning: string): Message {
    Message(Assistant, content, "", calls, native, reasoning)
  }

  function ToolResultMessage(id: string, result: string): Message {
    Message(Tool, result, id, [], "", "")
  }

  /** `softLimit` and `warnLimit` are the 60% and 80% marks after truncation; nothing below needs
      them to be related. `hasTemplate` is false when the compression prompt is empty. */
  datatype Config = Config(
    tokens: Message -> nat, softLimit: int, warnLimit: int, hasTemplate: bool,
    maxToolRequests: int, hasGraceTools: bool)

  function Total(cfg: Config, messages: seq<Message>): nat {
    if messages == [] then 0 else Total(cfg, messages[..|messages| - 1]) + cfg.tokens(messages[|messages| - 1])
  }

  lemma TotalNext(cfg: Config, messages: seq<Message>, lo: nat, hi: nat)
    requires lo <= hi < |messages|
    ensures Total(cfg, messages[lo..hi + 1]) == Total(cfg, messages[lo..hi]) + cfg.tokens(messages[hi])
  {
    assert messages[lo..hi + 1][..hi - lo] == messages[lo..hi];
  }

  method CountMessagesTokens(cfg: Config, messages: seq<Message>) returns (total: nat)
    ensures total == Total(cfg, messages)
  {
    total := 0;
    for i := 0 to |messages|
      invariant total == Total(cfg, messages[..i])
    {
      assert messages[..i + 1][..i] == messages[..i];
      total := total + cfg.tokens(messages[i]);
    }
    assert messages[..|messages|] == messages;
  }

  // ---------------------------------------------------------------- rounds

  datatype Round = Round(assistantIdx: nat, toolIdxs: seq<nat>) {
    function End(): nat {
      if toolIdxs == [] then assistantIdx + 1 else toolIdxs[|toolIdxs| - 1] + 1
    }
  }

  function Range(lo: nat, hi: nat): (r: seq<nat>)
    ensures lo < hi ==> |r| == hi - lo && r[|r| - 1] == hi - 1
    ensures lo >= hi ==> r == []
  {
    if lo >= hi then [] else Range(lo, hi - 1) + [hi - 1]
  }

  /** The index just after the run of tool messages that starts at `i`. */
  function ToolRunEnd(messages: seq<Message>, i: nat): (end: nat)
    requires i <= |messages|
    ensures i <= end <= |messages|
    ensures end < |messages| ==> !messages[end].role.Tool?
    decreases |messages| - i
  {
    if i < |messages| && messages[i].role.Tool? then ToolRunEnd(messages, i + 1) else i
  }

  lemma {:induction false} ToolRunIsTools(messages: seq<Message>, i: nat, k: nat)
    requires i <= k < |messages| && k < ToolRunEnd(messages, i)
    ensures messages[k].role.Tool?
    decreases k - i
  {
    if i < k {
      ToolRunIsTools(messages, i + 1, k);
    }
  }

  function Rounds(messages: seq<Message>, start: nat): seq<Round>
    decreases |messages| - start
  {
    if start >= |messages| then []
    else if messages[start].role.Assistant? then
      var end := ToolRunEnd(messages, start + 1);
      [Round(start, Range(start + 1, end))] + Rounds(messages, end)
    else Rounds(messages, start + 1)
  }

  /** A round is an assistant message and the whole run of tool messages behind it. */
  predicate IsRound(messages: seq<Message>, r: Round) {
    && r.assistantIdx < |messages| && messages[r.assistantIdx].role.Assistant?
    && r.toolIdxs == Range(r.assistantIdx + 1, ToolRunEnd(messages, r.assistantIdx + 1))
  }

  lemma RoundEnd(messages: seq<Message>, r: Round)
    requires IsRound(messages, r)
    ensures r.End() == ToolRunEnd(messages, r.assistantIdx + 1)
    ensures r.assistantIdx < r.End() && RoundBoundary(messages, r.End())
  {
  }

  /** Each listed round is a round of the conversation from `start` on. */
  lemma {:induction false} RoundsAreRounds(messages: seq<Message>, start: nat, k: nat)
    requires k < |Rounds(messages, start)|
    ensures IsRound(messages, Rounds(messages, start)[k]) && start <= Rounds(messages, start)[k].assistantIdx
    decreases |messages| - start
  {
    if messages[start].role.Assistant? {
      if k > 0 {
        RoundsAreRounds(messages, ToolRunEnd(messages, start + 1), k - 1);
      }
    } else {
      RoundsAreRounds(messages, start + 1, k);
    }
  }

  /** They are listed in order, none overlapping the next. */
  lemma {:induction false} RoundsAreOrdered(messages: seq<Message>, start: nat, j: nat, k: nat)
    requires j < k < |Rounds(messages, start)|
    ensures Rounds(messages, start)[j].End() <= Rounds(messages, start)[k].assistantIdx
    decreases |messages| - start
  {
    if messages[start].role.Assistant? {
      var end := ToolRunEnd(messages, start + 1);
      if j > 0 {
        RoundsAreOrdered(messages, end, j - 1, k - 1);
      } else {
        RoundsAreRounds(messages, end, k - 1);
      }
    } else {
      RoundsAreOrdered(messages, start + 1, j, k);
    }
  }

  /** Every assistant message from `start` on opens one of them. */
  lemma {:induction false} RoundsCoverAssistants(messages: seq<Message>, start: nat, i: nat) returns (k: nat)
    requires start <= i < |messages| && messages[i].role.Assistant?
    ensures k < |Rounds(messages, start)| && Rounds(messages, start)[k].assistantIdx == i
    decreases |messages| - start
  {
    if messages[start].role.Assistant? {
      if i == start {
        k := 0;
      } else {
        var end := ToolRunEnd(messages, start + 1);
        if i < end {
          ToolRunIsTools(messages, start + 1, i);
        }
        k := RoundsCoverAssistants(messages, end, i);
        k := k + 1;
      }
    } else {
      k := RoundsCoverAssistants(messages, start + 1, i);
    }
  }

  method GroupIntoRounds(messages: seq<Message>, start: nat) returns (rounds: seq<Round>)
    ensures rounds == Rounds(messages, start)
  {
    rounds := [];
    var i := start;
    while i < |messages|
      invariant rounds + Rounds(messages, i) == Rounds(messages, start)
      decreases |messages| - i
    {
      if messages[i].role.Assistant? {
        ghost var first, rest := i, Rounds(messages, i);
        var assistantIdx := i;
        var toolIdxs: seq<nat> := [];
        i := i + 1;
        while i < |messages| && messages[i].role.Tool?
          invariant first + 1 <= i <= |messages|
          invariant toolIdxs == Range(first + 1, i)
          invariant ToolRunEnd(messages, i) == ToolRunEnd(messages, first + 1)
        {
          toolIdxs := toolIdxs + [i];
          i := i + 1;
        }
        assert rest == [Round(assistantIdx, toolIdxs)] + Rounds(messages, i);
        rounds := rounds + [Round(assistantIdx, toolIdxs)];
      } else {
        i := i + 1;
      }
    }
  }

  // ---------------------------------------------------------------- the active zone

  function RoundTokens(cfg: Config, messages: seq<Message>, r: Round): nat {
    if r.assistantIdx < r.End() <= |messages| then Total(cfg, messages[r.assistantIdx..r.End()]) else 0
  }

  /** Tokens of the last `count` rounds. */
  function KeptTokens(cfg: Config, messages: seq<Message>, rounds: seq<Round>, count: nat): nat
    requires count <= |rounds|
  {
    if count == 0 then 0
    else KeptTokens(cfg, messages, rounds, count - 1) + RoundTokens(cfg, messages, rounds[|rounds| - count])
  }

  /** `count` is the number of trailing rounds that fit `budget`: they fit, and one more would not. */
  ghost predicate IsActiveCount(cfg: Config, messages: seq<Message>, rounds: seq<Round>, budget: int, count: nat) {
    && count <= |rounds|
    && (budget <= 0 ==> count == 0)
    && (budget > 0 ==>
          && KeptTokens(cfg, messages, rounds, count) <= budget
          && (count < |rounds| ==> KeptTokens(cfg, messages, rounds, count + 1) > budget))
  }

  /** One more kept round is the newest of those not kept yet, with its assistant message and its results. */
  lemma NextKeptRound(cfg: Config, messages: seq<Message>, start: nat, count: nat)
    requires count < |Rounds(messages, start)|
    ensures var rounds := Rounds(messages, start);
            var r := rounds[|rounds| - 1 - count];
            && KeptTokens(cfg, messages, rounds, 0) == 0
            && IsRound(messages, r)
            && KeptTokens(cfg, messages, rounds, count + 1)
               == KeptTokens(cfg, messages, rounds, count)
                  + Total(cfg, messages[r.assistantIdx..ToolRunEnd(messages, r.assistantIdx + 1)])
  {
    hide Total;
    var rounds := Rounds(messages, start);
    RoundsAreRounds(messages, start, |rounds| - 1 - count);
    RoundEnd(messages, rounds[|rounds| - 1 - count]);
  }

  lemma {:induction false} KeptTokensMonotonic(cfg: Config, messages: seq<Message>, rounds: seq<Round>, a: nat, b: nat)
    requires a <= b <= |rounds|
    ensures KeptTokens(cfg, messages, rounds, a) <= KeptTokens(cfg, messages, rounds, b)
  {
    if a < b {
      KeptTokensMonotonic(cfg, messages, rounds, a, b - 1);
    }
  }

  lemma ActiveCountUnique(cfg: Config, messages: seq<Message>, rounds: seq<Round>, budget: int, a: nat, b: nat)
    requires IsActiveCount(cfg, messages, rounds, budget, a) && IsActiveCount(cfg, messages, rounds, budget, b)
    ensures a == b
  {
    if budget > 0 && a < b {
      KeptTokensMonotonic(cfg, messages, rounds, a + 1, b);
    } else if budget > 0 && b < a {
      KeptTokensMonotonic(cfg, messages, rounds, b + 1, a);
    }
  }

  function ActiveCount(cfg: Config, messages: seq<Message>, rounds: seq<Round>, budget: int, from: nat): (count: nat)
    requires from <= |rounds|
    requires if budget <= 0 then from == 0 else KeptTokens(cfg, messages, rounds, from) <= budget
    ensures IsActiveCount(cfg, messages, rounds, budget, count)
    decreases |rounds| - from
  {
    if budget <= 0 || from == |rounds| || KeptTokens(cfg, messages, rounds, from + 1) > budget then from
    else ActiveCount(cfg, messages, rounds, budget, from + 1)
  }

  lemma TotalNothing(cfg: Config)
    ensures Total(cfg, []) == 0
  {
  }

  method CountRoundTokens(cfg: Config, messages: seq<Message>, r: Round) returns (roundTokens: nat)
    requires IsRound(messages, r)
    ensures roundTokens == RoundTokens(cfg, messages, r)
    ensures roundTokens == Total(cfg, messages[r.assistantIdx..ToolRunEnd(messages, r.assistantIdx + 1)])
  {
    hide Total;
    var first := r.assistantIdx + 1;
    RoundEnd(messages, r);
    roundTokens := cfg.tokens(messages[r.assistantIdx]);
    TotalNothing(cfg);
    assert messages[r.assistantIdx..r.assistantIdx] == [];
    TotalNext(cfg, messages, r.assistantIdx, r.assistantIdx);
    for t := 0 to |r.toolIdxs|
      invariant roundTokens == Total(cfg, messages[r.assistantIdx..first + t])
    {
      RangeAt(first, ToolRunEnd(messages, first), t);
      TotalNext(cfg, messages, r.assistantIdx, first + t);
      roundTokens := roundTokens + cfg.tokens(messages[r.toolIdxs[t]]);
    }
  }

  lemma {:induction false} RangeAt(lo: nat, hi: nat, t: nat)
    requires t < |Range(lo, hi)|
    ensures Range(lo, hi)[t] == lo + t < hi
    decreases hi
  {
    if t < hi - 1 - lo {
      RangeAt(lo, hi - 1, t);
    }
  }

  method ComputeActiveZoneSize(
    cfg: Config, messages: seq<Message>, rounds: seq<Round>, reserved: int, ghost start: nat)
    returns (count: nat)
    requires rounds == Rounds(messages, start)
    ensures IsActiveCount(cfg, messages, rounds, cfg.warnLimit - reserved, count)
  {
    var budget := cfg.warnLimit - reserved;
    if budget <= 0 {
      return 0;
    }
    count := 0;
    var tokensUsed := 0;
    var i := |rounds| - 1;
    while i >= 0
      invariant -1 <= i < |rounds| && count == |rounds| - 1 - i
      invariant tokensUsed == KeptTokens(cfg, messages, rounds, count) <= budget
    {
      RoundsAreRounds(messages, start, i);
      var roundTokens := CountRoundTokens(cfg, messages, rounds[i]);
      if tokensUsed + roundTokens > budget {
        break;
      }
      tokensUsed := tokensUsed + roundTokens;
      count := count + 1;
      i := i - 1;
    }
  }

  // ---------------------------------------------------------------- the three zones

  datatype Partition = Partition(frozenEnd: nat, compressEnd: nat, rounds: seq<Round>, activeCount: nat)

  function Partitioned(cfg: Config, messages: seq<Message>, reserved: int): Partition {
    if |messages| <= 2 then Partition(2, |messages|, [], 0)
    else
      var rounds := Rounds(messages, 2);
      if rounds == [] then Partition(2, |messages|, [], 0)
      else
        var active := ActiveCount(cfg, messages, rounds, cfg.warnLimit - reserved, 0);
        if active >= |rounds| then Partition(2, |messages|, rounds, 0)
        else Partition(2, rounds[|rounds| - active - 1].End(), rounds, active)
  }

  /** A cut at `k` never separates an assistant message from its tool results. */
  predicate RoundBoundary(messages: seq<Message>, k: nat) {
    k <= |messages| && (k < |messages| ==> !messages[k].role.Tool?)
  }

  /** The zones lie one behind the other, and the compressed one is not empty and ends on a round boundary. */
  lemma ZonesCover(cfg: Config, messages: seq<Message>, reserved: int)
    requires |messages| > 2
    ensures var p := Partitioned(cfg, messages, reserved);
            p.frozenEnd == 2 < p.compressEnd && RoundBoundary(messages, p.compressEnd)
  {
    var rounds := Rounds(messages, 2);
    if rounds != [] {
      var active := ActiveCount(cfg, messages, rounds, cfg.warnLimit - reserved, 0);
      if active < |rounds| {
        RoundsAreRounds(messages, 2, |rounds| - active - 1);
        RoundEnd(messages, rounds[|rounds| - active - 1]);
      }
    }
  }

  lemma RoundInside(messages: seq<Message>, start: nat, k: nat)
    requires k < |Rounds(messages, start)|
    ensures var r := Rounds(messages, start)[k]; r.assistantIdx < r.End() <= |messages|
  {
    RoundsAreRounds(messages, start, k);
    RoundEnd(messages, Rounds(messages, start)[k]);
  }

  /** The last `activeCount` rounds lie in the live tail and all earlier ones in the compressed zone. */
  lemma ZonesHoldWholeRounds(cfg: Config, messages: seq<Message>, reserved: int, k: nat)
    requires |messages| > 2 && k < |Rounds(messages, 2)|
    ensures var p, r := Partitioned(cfg, messages, reserved), Rounds(messages, 2)[k];
            if k < |Rounds(messages, 2)| - p.activeCount then r.End() <= p.compressEnd
            else p.compressEnd <= r.assistantIdx
  {
    var rounds := Rounds(messages, 2);
    var p := Partitioned(cfg, messages, reserved);
    RoundInside(messages, 2, k);
    if ActiveCount(cfg, messages, rounds, cfg.warnLimit - reserved, 0) < |rounds| {
      var last := |rounds| - p.activeCount - 1;
      if k < last {
        RoundsAreOrdered(messages, 2, k, last);
        RoundInside(messages, 2, last);
      } else if last < k {
        RoundsAreOrdered(messages, 2, last, k);
      }
    }
  }

  /** There is no round, or all of them fit the budget. */
  predicate AllFit(cfg: Config, messages: seq<Message>, rounds: seq<Round>, budget: int) {
    rounds == [] || (budget > 0 && KeptTokens(cfg, messages, rounds, |rounds|) <= budget)
  }

  /** Not even the newest round fits. */
  predicate NoneFits(cfg: Config, messages: seq<Message>, rounds: seq<Round>, budget: int)
    requires rounds != []
  {
    budget <= 0 || KeptTokens(cfg, messages, rounds, 1) > budget
  }

  /** The kept rounds fit the budget and one more would not, unless every round would fit: then the
      code keeps none and compresses the whole conversation. */
  lemma ZonesUseTheBudget(cfg: Config, messages: seq<Message>, reserved: int)
    requires |messages| > 2
    ensures var p := Partitioned(cfg, messages, reserved);
            var rounds := Rounds(messages, 2);
            var budget := cfg.warnLimit - reserved;
            if AllFit(cfg, messages, rounds, budget) then p.compressEnd == |messages| && p.activeCount == 0
            else IsActiveCount(cfg, messages, rounds, budget, p.activeCount) && p.activeCount < |rounds|
  {
    var rounds := Rounds(messages, 2);
    var budget := cfg.warnLimit - reserved;
    if rounds != [] {
      var active := ActiveCount(cfg, messages, rounds, budget, 0);
      if budget > 0 && KeptTokens(cfg, messages, rounds, |rounds|) <= budget && active < |rounds| {
        KeptTokensMonotonic(cfg, messages, rounds, active + 1, |rounds|);
      }
    }
  }

  /** The whole conversation is compressed exactly when all rounds fit, or when none does and the newest one
      ends it. */
  lemma WholeIsCompressedIff(cfg: Config, messages: seq<Message>, reserved: int)
    requires |messages| > 2
    ensures var rounds := Rounds(messages, 2);
            var budget := cfg.warnLimit - reserved;
            Partitioned(cfg, messages, reserved).compressEnd == |messages| <==>
            AllFit(cfg, messages, rounds, budget)
            || (NoneFits(cfg, messages, rounds, budget) && rounds[|rounds| - 1].End() == |messages|)
  {
    hide Total, Rounds;
    var rounds := Rounds(messages, 2);
    var budget := cfg.warnLimit - reserved;
    ZonesUseTheBudget(cfg, messages, reserved);
    if !AllFit(cfg, messages, rounds, budget) {
      var active := Partitioned(cfg, messages, reserved).activeCount;
      RoundInside(messages, 2, |rounds| - 1);
      if active > 0 {
        ZonesHoldWholeRounds(cfg, messages, reserved, |rounds| - 1);
        KeptTokensMonotonic(cfg, messages, rounds, 1, active);
      }
    }
  }

  /** Where a conversation is cut: at its end when every round fits, and otherwise right behind the newest
      round that is not kept. */
  ghost predicate IsCut(cfg: Config, messages: seq<Message>, budget: int, k: nat) {
    var rounds := Rounds(messages, 2);
    if AllFit(cfg, messages, rounds, budget) then k == |messages|
    else exists kept: nat ::
        IsActiveCount(cfg, messages, rounds, budget, kept) && kept < |rounds| && IsEnd(messages, rounds[|rounds| - 1 - kept], k)
  }

  /** `k` is the index just behind the round. */
  predicate IsEnd(messages: seq<Message>, r: Round, k: nat) {
    IsRound(messages, r) && k == ToolRunEnd(messages, r.assistantIdx + 1)
  }

  lemma PartitionCuts(cfg: Config, messages: seq<Message>, reserved: int)
    requires |messages| > 2
    ensures IsCut(cfg, messages, cfg.warnLimit - reserved, Partitioned(cfg, messages, reserved).compressEnd)
  {
    ZonesUseTheBudget(cfg, messages, reserved);
    var rounds, p := Rounds(messages, 2), Partitioned(cfg, messages, reserved);
    if !AllFit(cfg, messages, rounds, cfg.warnLimit - reserved) {
      RoundsAreRounds(messages, 2, |rounds| - 1 - p.activeCount);
      RoundEnd(messages, rounds[|rounds| - 1 - p.activeCount]);
      assert IsEnd(messages, rounds[|rounds| - 1 - p.activeCount], p.compressEnd);
    }
  }

  /** There is one such place. */
  lemma CutIsUnique(cfg: Config, messages: seq<Message>, budget: int, k: nat, l: nat)
    requires IsCut(cfg, messages, budget, k) && IsCut(cfg, messages, budget, l)
    ensures k == l
  {
    hide IsActiveCount, IsRound, AllFit;
    var rounds := Rounds(messages, 2);
    if !AllFit(cfg, messages, rounds, budget) {
      var a: nat :| IsActiveCount(cfg, messages, rounds, budget, a) && a < |rounds| && IsEnd(messages, rounds[|rounds| - 1 - a], k);
      var b: nat :| IsActiveCount(cfg, messages, rounds, budget, b) && b < |rounds| && IsEnd(messages, rounds[|rounds| - 1 - b], l);
      ActiveCountUnique(cfg, messages, rounds, budget, a, b);
    }
  }

  method PartitionMessages(cfg: Config, messages: seq<Message>, reserved: int) returns (result: Partition)
    ensures result == Partitioned(cfg, messages, reserved)
    ensures |messages| > 2 ==> result.frozenEnd == 2 && IsCut(cfg, messages, cfg.warnLimit - reserved, result.compressEnd)
    ensures |messages| <= 2 ==> result.compressEnd == |messages|
  {
    if |messages| > 2 {
      PartitionCuts(cfg, messages, reserved);
    }
    result := Partition(2, 0, [], 0);
    if |messages| <= 2 {
      result := result.(compressEnd := |messages|);
      return;
    }
    var rounds := GroupIntoRounds(messages, 2);
    result := result.(rounds := rounds);
    if |rounds| == 0 {
      result := result.(compressEnd := |messages|);
      return;
    }
    var active := ComputeActiveZoneSize(cfg, messages, rounds, reserved, 2);
    ActiveCountUnique(cfg, messages, rounds, cfg.warnLimit - reserved, active,
                      ActiveCount(cfg, messages, rounds, cfg.warnLimit - reserved, 0));
    result := result.(activeCount := active);
    if active >= |rounds| {
      result := result.(compressEnd := |messages|, activeCount := 0);
      return;
    }
    var lastCompressRound := rounds[|rounds| - active - 1];
    if |lastCompressRound.toolIdxs| > 0 {
      result := result.(compressEnd := lastCompressRound.toolIdxs[|lastCompressRound.toolIdxs| - 1] + 1);
    } else {
      result := result.(compressEnd := lastCompressRound.assistantIdx + 1);
    }
  }

  // ---------------------------------------------------------------- compression

  /** What the summarising call came back with, markdown fences already stripped. */
  datatype Reply = CallFailed | Summary(text: string)

  datatype Compression = Compression(messages: seq<Message>, failed: bool)

  function Block(summary: string): string {
    "\n\n<previous_review_summary>\n" + summary + "\n</previous_review_summary>"
  }

  function Compressed(cfg: Config, messages: seq<Message>, reply: Reply): Compression {
    if !cfg.hasTemplate || |messages| <= 2 then
      Compression(messages[..if |messages| < 2 then |messages| else 2], false)
    else
      ZonesCover(cfg, messages, 0);
      var p := Partitioned(cfg, messages, 0);
      match reply
      case CallFailed => Compression(messages, true)
      case Summary(text) =>
        if text == "" then Compression(messages, false)
        else
          var prompt := TextMessage(messages[1].role, messages[1].content + Block(text));
          Compression([messages[0], prompt] + messages[p.compressEnd..], false)
  }

  const OPEN_TAG := "\n\n<previous_review_summary>\n"
  const CLOSE_TAG := "\n</previous_review_summary>"

  /** What becomes of a conversation when the summarising call answers `reply`. */
  ghost predicate Answered(cfg: Config, before: seq<Message>, reply: Reply, after: seq<Message>, failed: bool) {
    if !cfg.hasTemplate || |before| <= 2 then
      after <= before && |after| == (if |before| < 2 then |before| else 2) && !failed
    else
      && failed == reply.CallFailed?
      && if reply.CallFailed? || reply.text == "" then after == before
         else
           && |after| >= 2 && after[0] == before[0]
           && after[1] == Message(before[1].role, before[1].content + OPEN_TAG + reply.text + CLOSE_TAG, "", [], "", "")
           && exists k: nat :: k <= |before| && IsCut(cfg, before, cfg.warnLimit, k) && after[2..] == before[k..]
  }

  /** One conversation can become of it. */
  lemma AnsweredIsUnique(cfg: Config, before: seq<Message>, reply: Reply, a: seq<Message>, b: seq<Message>, f: bool, g: bool)
    requires Answered(cfg, before, reply, a, f) && Answered(cfg, before, reply, b, g)
    ensures a == b && f == g
  {
    hide IsCut;
    if !cfg.hasTemplate || |before| <= 2 {
    } else if reply.Summary? && reply.text != "" {
      var k: nat :| k <= |before| && IsCut(cfg, before, cfg.warnLimit, k) && a[2..] == before[k..];
      var l: nat :| l <= |before| && IsCut(cfg, before, cfg.warnLimit, l) && b[2..] == before[l..];
      CutIsUnique(cfg, before, cfg.warnLimit, k, l);
      hide Answered;
      assert a == [a[0], a[1]] + a[2..] && b == [b[0], b[1]] + b[2..];
    }
  }

  lemma CompressedAnswers(cfg: Config, messages: seq<Message>, reply: Reply)
    ensures var c := Compressed(cfg, messages, reply); Answered(cfg, messages, reply, c.messages, c.failed)
  {
    hide IsCut, Partitioned;
    if cfg.hasTemplate && |messages| > 2 && reply.Summary? && reply.text != "" {
      ZonesCover(cfg, messages, 0);
      PartitionCuts(cfg, messages, 0);
      var c, k := Compressed(cfg, messages, reply), Partitioned(cfg, messages, 0).compressEnd;
      assert c.messages[2..] == messages[k..];
      var text := messages[1].content;
      assert text + OPEN_TAG + reply.text + CLOSE_TAG == text + Block(reply.text);
    }
  }

  /** With no more than two messages or without a template the first two stay; a failed or empty
      answer changes nothing; a summary is put behind the second message and takes the place of everything
      up to the cut. */
  method RunCompression(cfg: Config, messages: seq<Message>, reply: Reply) returns (result: Compression)
    ensures result == Compressed(cfg, messages, reply)
    ensures !cfg.hasTemplate || |messages| <= 2 ==>
              !result.failed && result.messages == messages[..if |messages| < 2 then |messages| else 2]
    ensures cfg.hasTemplate && |messages| > 2 ==>
              && result.failed == reply.CallFailed?
              && (reply.CallFailed? || reply.text == "" ==> result.messages == messages)
              && (reply.Summary? && reply.text != "" ==>
                    && |result.messages| >= 2
                    && result.messages[0] == messages[0]
                    && result.messages[1].role == messages[1].role
                    && result.messages[1].content
                       == messages[1].content + "\n\n<previous_review_summary>\n" + reply.text + "\n</previous_review_summary>"
                    && exists k: nat :: k <= |messages| && IsCut(cfg, messages, cfg.warnLimit, k)
                                        && result.messages[2..] == messages[k..])
  {
    hide IsCut;
    CompressedAnswers(cfg, messages, reply);
    if !cfg.hasTemplate || |messages| <= 2 {
      return Compression(messages[..if |messages| < 2 then |messages| else 2], false);
    }
    var part := PartitionMessages(cfg, messages, 0);
    ZonesCover(cfg, messages, 0);
    if reply.CallFailed? {
      return Compression(messages, true);
    }
    if reply.text == "" {
      return Compression(messages, false);
    }
    var rebuilt := messages[..2];
    var userMsg := rebuilt[1];
    rebuilt := rebuilt[1 := TextMessage(userMsg.role, userMsg.content + Block(reply.text))];
    for i := part.compressEnd to |messages|
      invariant rebuilt == [messages[0], TextMessage(userMsg.role, userMsg.content + Block(reply.text))]
                           + messages[part.compressEnd..i]
    {
      rebuilt := rebuilt + [messages[i]];
    }
    return Compression(rebuilt, false);
  }

  // ---------------------------------------------------------------- what compression keeps

  function Blocks(summaries: seq<string>): string {
    if summaries == [] then ""
    else Blocks(summaries[..|summaries| - 1]) + Block(summaries[|summaries| - 1])
  }

  /** The second prompt message with the given summary blocks appended. */
  function PromptWith(prompt: Message, summaries: seq<string>): Message {
    if summaries == [] then prompt else TextMessage(prompt.role, prompt.content + Blocks(summaries))
  }

  ghost predicate ShapeWith(transcript: seq<Message>, messages: seq<Message>, summaries: seq<string>, k: nat) {
    && 2 <= k <= |transcript|
    && RoundBoundary(transcript, k)
    && messages == [transcript[0], PromptWith(transcript[1], summaries)] + transcript[k..]
  }

  /** `messages` is message 0 of the full transcript, message 1 with zero or more summary blocks
      appended, and then a suffix of the transcript that starts on a round boundary. */
  ghost predicate Shape(transcript: seq<Message>, messages: seq<Message>) {
    exists summaries: seq<string>, k: nat :: ShapeWith(transcript, messages, summaries, k)
  }

  lemma UncompressedShape(transcript: seq<Message>)
    requires |transcript| >= 2 && RoundBoundary(transcript, 2)
    ensures Shape(transcript, transcript)
  {
    assert transcript == [transcript[0], PromptWith(transcript[1], [])] + transcript[2..];
    assert ShapeWith(transcript, transcript, [], 2);
  }

  lemma AppendKeepsShapeWith(transcript: seq<Message>, messages: seq<Message>, more: seq<Message>,
                             summaries: seq<string>, k: nat)
    requires ShapeWith(transcript, messages, summaries, k) && RoundBoundary(more, 0)
    ensures ShapeWith(transcript + more, messages + more, summaries, k)
  {
    assert (transcript + more)[k..] == transcript[k..] + more;
  }

  lemma AppendKeepsShape(transcript: seq<Message>, messages: seq<Message>, more: seq<Message>)
    requires Shape(transcript, messages) && RoundBoundary(more, 0)
    ensures Shape(transcript + more, messages + more)
  {
    hide ShapeWith, RoundBoundary;
    var summaries: seq<string>, k: nat :| ShapeWith(transcript, messages, summaries, k);
    AppendKeepsShapeWith(transcript, messages, more, summaries, k);
  }

  lemma PromptWithOneMore(prompt: Message, summaries: seq<string>, text: string)
    ensures var m := PromptWith(prompt, summaries);
            TextMessage(m.role, m.content + Block(text)) == PromptWith(prompt, summaries + [text])
  {
    var more := summaries + [text];
    assert more[..|more| - 1] == summaries;
    assert Blocks(more) == Blocks(summaries) + Block(text);
    if summaries == [] {
      assert Blocks(more) == Block(text);
    } else {
      assert prompt.content + Blocks(summaries) + Block(text) == prompt.content + (Blocks(summaries) + Block(text));
    }
  }

  /** Cutting the live tail at a round boundary and adding a summary block keeps the shape. */
  lemma CutKeepsShape(transcript: seq<Message>, messages: seq<Message>, end: nat, text: string)
    requires Shape(transcript, messages) && 2 <= end && RoundBoundary(messages, end)
    ensures var prompt := TextMessage(messages[1].role, messages[1].content + Block(text));
            Shape(transcript, [messages[0], prompt] + messages[end..])
  {
    var summaries: seq<string>, k: nat :| ShapeWith(transcript, messages, summaries, k);
    PromptWithOneMore(transcript[1], summaries, text);
    var prompt := TextMessage(messages[1].role, messages[1].content + Block(text));
    assert messages[end..] == transcript[k + end - 2..];
    assert ShapeWith(transcript, [messages[0], prompt] + messages[end..], summaries + [text], k + end - 2);
  }

  lemma ForgetKeepsShape(transcript: seq<Message>, messages: seq<Message>)
    requires Shape(transcript, messages)
    ensures |messages| >= 2 && Shape(transcript, messages[..2])
  {
    var summaries: seq<string>, k: nat :| ShapeWith(transcript, messages, summaries, k);
    assert ShapeWith(transcript, messages[..2], summaries, |transcript|);
  }

  /** Whatever the summarising call answers, the compressed conversation still has the shape. */
  lemma CompressionKeepsShape(cfg: Config, transcript: seq<Message>, messages: seq<Message>, reply: Reply)
    requires Shape(transcript, messages)
    ensures Shape(transcript, Compressed(cfg, messages, reply).messages)
  {
    ForgetKeepsShape(transcript, messages);
    if cfg.hasTemplate && |messages| > 2 && reply.Summary? && reply.text != "" {
      ZonesCover(cfg, messages, 0);
      CutKeepsShape(transcript, messages, Partitioned(cfg, messages, 0).compressEnd, reply.text);
    }
  }

  // ---------------------------------------------------------------- tool calls and their results

  predicate Answers(call: ToolCall, m: Message) {
    m.role.Tool? && m.toolCallId == call.id
  }

  /** Every message that carries tool calls is followed at once by exactly one tool result per call,
      with the same ids in the same order, and no tool message stands anywhere else. */
  predicate Paired(messages: seq<Message>) {
    messages == []
    || (var calls := messages[0].toolCalls;
        && !messages[0].role.Tool?
        && |calls| < |messages|
        && (forall j :: 0 <= j < |calls| ==> Answers(calls[j], messages[1 + j]))
        && Paired(messages[1 + |calls|..]))
  }

  lemma {:induction false} PairedConcat(a: seq<Message>, b: seq<Message>)
    requires Paired(a) && Paired(b)
    ensures Paired(a + b)
    decreases |a|
  {
    if a == [] {
      assert a + b == b;
    } else {
      var m := 1 + |a[0].toolCalls|;
      PairedConcat(a[m..], b);
      assert (a + b)[m..] == a[m..] + b;
    }
  }

  lemma ResultsAreTools(messages: seq<Message>, k: nat)
    requires Paired(messages) && messages != [] && 1 <= k <= |messages[0].toolCalls|
    ensures messages[k].role.Tool?
  {
    assert Answers(messages[0].toolCalls[k - 1], messages[1 + (k - 1)]);
  }

  lemma {:induction false} PairedSuffix(messages: seq<Message>, k: nat)
    requires Paired(messages) && RoundBoundary(messages, k)
    ensures Paired(messages[k..])
    decreases |messages|
  {
    if k > 0 {
      var m := 1 + |messages[0].toolCalls|;
      forall i | 1 <= i < m ensures messages[i].role.Tool? {
        ResultsAreTools(messages, i);
      }
      PairedSuffix(messages[m..], k - m);
      assert messages[m..][k - m..] == messages[k..];
    }
  }

  /** A prompt the loop can start from: two plain messages, then anything already paired. */
  predicate Prompt(messages: seq<Message>) {
    && |messages| >= 2
    && Paired(messages)
    && messages[0].toolCalls == [] && messages[1].toolCalls == []
  }

  lemma PromptBoundary(messages: seq<Message>)
    requires Prompt(messages)
    ensures !messages[0].role.Tool? && !messages[1].role.Tool? && RoundBoundary(messages, 2)
  {
    assert Paired(messages[1..]);
    assert Paired(messages[1..][1..]);
  }

  /** A compressed conversation inherits the pairing of the transcript it abbreviates. */
  lemma ShapeIsPaired(transcript: seq<Message>, messages: seq<Message>)
    requires Prompt(transcript) && Shape(transcript, messages)
    ensures Paired(messages)
  {
    var summaries: seq<string>, k: nat :| ShapeWith(transcript, messages, summaries, k);
    PromptBoundary(transcript);
    PairedSuffix(transcript, k);
    var prompt := PromptWith(transcript[1], summaries);
    assert Paired([prompt]);
    assert Paired([transcript[0]]);
    PairedConcat([transcript[0]], [prompt]);
    PairedConcat([transcript[0]] + [prompt], transcript[k..]);
    assert [transcript[0]] + [prompt] + transcript[k..] == messages;
  }
}
