/** The code index as a cache keyed by content hashes (internal/index/indexer.go and batch.go): a run reads
    the files, skips those whose stored hash is current, and writes a row for each of the others as the
    summarising batches answer, in any order and with any of them failing. */
module IndexCache {
  import opened Options
  import opened Sequences
  import opened Strings
  import opened SummaryTables
  import opened TextOrder
  import opened Utf8

  /** A file's bytes, one character each. */
  type Content = string

  datatype FilePair = FilePair(path: Path, content: Content)

  /** What a run takes from outside: SHA-256, the model's answer for a file, and the language guesses. */
  datatype Env = Env(digest: string -> string, answer: (Path, Content) -> Answer, lower: string -> string, guess: Path -> string)

  datatype Block = Block(source: string, calls: seq<(Path, string)>)

  datatype Answer = Answer(
    language: string, summary: string, symbols: seq<Symbol>, imports: seq<Path>, blocks: seq<Block>, xrefs: seq<ExternalRef>)

  const LARGE_FILE_BYTES := 5000
  const TRIVIAL_FILE_BYTES := 600
  const BATCH_SIZE := 3

  predicate IsTrivial(c: Content) { |c| < TRIVIAL_FILE_BYTES }

  /** countLOC */
  function Loc(c: Content): nat {
    if c == "" then 0 else Newlines(c) + if c[|c| - 1] == '\n' then 0 else 1
  }

  /** Where a line begins. */
  ghost function LineStarts(c: Content): set<int> {
    set i | 0 <= i < |c| && BeginsLine(c, i)
  }

  predicate BeginsLine(c: Content, i: int) {
    0 <= i < |c| && (i == 0 || c[i - 1] == '\n')
  }

  /** A file has as many lines as places where one begins: an unfinished last line counts, an empty one does not. */
  lemma {:induction false} LocCountsLines(c: Content)
    ensures Loc(c) == |LineStarts(c)|
    decreases |c|
  {
    if c == "" {
      assert LineStarts(c) == {};
    } else {
      var n := |c| - 1;
      LocCountsLines(c[..n]);
      NewlinesConcat(c[..n], [c[n]]);
      assert c == c[..n] + [c[n]];
      assert LineStarts(c) == LineStarts(c[..n]) + if n == 0 || c[n - 1] == '\n' then {n} else {};
    }
  }

  // ---------------------------------------------------------------- the row of a file

  /** contentHash: what is hashed is the content with its broken bytes replaced. */
  function Hash(env: Env, c: Content): string {
    env.digest(Clean(c))
  }

  function Refs(path: Path, source: string, calls: seq<(Path, string)>): seq<SymbolRef> {
    seq(|calls|, i requires 0 <= i < |calls| => SymbolRef(path, source, calls[i].0, calls[i].1))
  }

  function AllRefs(path: Path, blocks: seq<Block>): seq<SymbolRef> {
    if blocks == [] then []
    else
      var n := |blocks| - 1;
      AllRefs(path, blocks[..n]) + Refs(path, blocks[n].source, blocks[n].calls)
  }

  /** The answer taken word for word. */
  function Verbatim(env: Env, path: Path, c: Content, a: Answer): FileSummary {
    var language := if env.lower(a.language) == "" then env.guess(path) else env.lower(a.language);
    FileSummary(path, FileRow(language, a.summary, Hash(env, c), Loc(c)), a.symbols, a.imports, AllRefs(path, a.blocks), a.xrefs)
  }

  /** What the index should say of a file with this content. */
  function Expected(env: Env, path: Path, c: Content): Kept {
    if IsTrivial(c) then Kept(FileRow(env.guess(path), "", Hash(env, c), Loc(c)), map[], {}, {}, map[])
    else KeptOf(Verbatim(env, path, c, env.answer(path, c)))
  }

  lemma ExpectedNamesItsContent(env: Env, path: Path, c: Content)
    ensures Expected(env, path, c).row.contentHash == Hash(env, c)
  {
  }

  /** What the index says of a file with this content, when it is read back: for less than 600 bytes only the
      guessed language, the hash and the lines, and otherwise the answer, with the guess where it names no
      language, and each complete call under the symbol of its block. */
  lemma RowReadsAsAnswered(env: Env, path: Path, c: Content, got: FileSummary)
    requires Reads(Expected(env, path, c), got)
    ensures got.row.contentHash == env.digest(Clean(c)) && got.row.loc == |LineStarts(c)|
    ensures |c| < 600 ==>
              && got.row.language == env.guess(path) && got.row.summary == ""
              && got.symbols == [] && got.imports == [] && got.refs == [] && got.xrefs == []
    ensures |c| >= 600 ==> ReadsAnswer(env, path, env.answer(path, c), got)
  {
    LocCountsLines(c);
    if |c| >= 600 {
      AnswerIsRead(env, path, c, got);
    } else {
      hide Hash, Loc;
      EmptyReadsEmpty(Expected(env, path, c), got);
    }
  }

  /** The summary read back is the model's answer. */
  ghost predicate ReadsAnswer(env: Env, path: Path, a: Answer, got: FileSummary) {
    && got.row.language == (if env.lower(a.language) != "" then env.lower(a.language) else env.guess(path))
    && got.row.summary == a.summary
    && (forall s :: s in got.symbols <==>
          exists i :: IsFirstSymbol(a.symbols, i)
                      && s == a.symbols[i].(kind := if a.symbols[i].kind == "" then "function" else a.symbols[i].kind))
    && (forall p :: p in got.imports <==> p in a.imports && p != "")
    && (forall source, target, symbol :: SymbolRef(got.path, source, target, symbol) in got.refs <==>
          source != "" && target != "" && symbol != ""
          && IsCalled(a.blocks, source, target, symbol))
    && (forall r :: r in got.refs ==> r.sourcePath == got.path)
    && (forall x :: x in got.xrefs <==> exists i :: IsFirstTarget(a.xrefs, i) && x == a.xrefs[i])
  }

  /** A block of this symbol names the call. */
  ghost predicate IsCalled(blocks: seq<Block>, source: string, target: Path, symbol: string) {
    exists b :: b in blocks && b.source == source && (target, symbol) in b.calls
  }

  lemma AnswerIsRead(env: Env, path: Path, c: Content, got: FileSummary)
    requires Reads(Expected(env, path, c), got) && !IsTrivial(c)
    ensures ReadsAnswer(env, path, env.answer(path, c), got)
  {
    hide Reads, KeptOf, Clean, Loc, AllRefs, IsFirstSymbol, IsFirstTarget;
    var a := env.answer(path, c);
    var fs := Verbatim(env, path, c, a);
    ReadsAsWritten(fs, got);
    forall source, target, symbol
      ensures (exists r :: r in fs.refs && r == SymbolRef(r.sourcePath, source, target, symbol))
              <==> IsCalled(a.blocks, source, target, symbol)
    {
      AllRefsMeans(path, a.blocks, source, target, symbol);
    }
  }

  /** A reference for each call of a block, under the block's symbol. */
  lemma {:induction false} AllRefsMeans(path: Path, blocks: seq<Block>, source: string, target: Path, symbol: string)
    ensures (exists r :: r in AllRefs(path, blocks) && r == SymbolRef(r.sourcePath, source, target, symbol))
            <==> IsCalled(blocks, source, target, symbol)
    decreases |blocks|
  {
    if blocks != [] {
      var n := |blocks| - 1;
      AllRefsMeans(path, blocks[..n], source, target, symbol);
      var last := Refs(path, blocks[n].source, blocks[n].calls);
      if (target, symbol) in blocks[n].calls && blocks[n].source == source {
        var i :| 0 <= i < |last| && blocks[n].calls[i] == (target, symbol);
        assert last[i] == SymbolRef(path, source, target, symbol) && last[i] in AllRefs(path, blocks);
      }
      assert forall r :: r in AllRefs(path, blocks) <==> r in AllRefs(path, blocks[..n]) || r in last;
      assert forall b :: b in blocks <==> b in blocks[..n] || b == blocks[n];
    }
  }

  lemma EmptyReadsEmpty(k: Kept, got: FileSummary)
    requires Reads(k, got) && k.symbols == map[] && k.imports == {} && k.calls == {} && k.targets == map[]
    ensures got.symbols == [] && got.imports == [] && got.refs == [] && got.xrefs == []
  {
    FirstIsThere(got.symbols);
    FirstIsThere(got.imports);
    FirstIsThere(Calls(got.refs));
    FirstIsThere(got.xrefs);
  }

  lemma FirstIsThere<T>(s: seq<T>)
    ensures s == [] || s[0] in s
  {
  }

  /** A row is the summary of the content its hash names. */
  ghost predicate IsSummary(env: Env, path: Path, k: Kept) {
    exists c: Content :: k == Expected(env, path, c)
  }

  ghost predicate Sound(env: Env, view: map<Path, Kept>) {
    forall p :: p in view ==> IsSummary(env, p, view[p])
  }

  /** No two texts have the same digest. */
  ghost predicate NoCollisions(env: Env) {
    forall a: string, b: string :: env.digest(a) == env.digest(b) ==> a == b
  }

  // ---------------------------------------------------------------- what a run has to do

  predicate NeedsWork(env: Env, view: map<Path, Kept>, full: bool, f: FilePair) {
    full || f.path !in view || view[f.path].row.contentHash != Hash(env, f.content)
  }

  /** The readable candidates that are new or changed, or all of them on a full run. */
  function Stale(env: Env, view: map<Path, Kept>, tree: map<Path, Content>, paths: seq<Path>, full: bool): seq<FilePair> {
    if paths == [] then []
    else
      var n := |paths| - 1;
      Stale(env, view, tree, paths[..n], full)
      + if paths[n] in tree && NeedsWork(env, view, full, FilePair(paths[n], tree[paths[n]]))
        then [FilePair(paths[n], tree[paths[n]])] else []
  }

  function Only(pairs: seq<FilePair>, trivial: bool): seq<FilePair> {
    if pairs == [] then []
    else
      var n := |pairs| - 1;
      Only(pairs[..n], trivial) + if IsTrivial(pairs[n].content) == trivial then [pairs[n]] else []
  }

  /** Insertion of a pair behind those with a path not above its own. */
  function InsertByPath(pairs: seq<FilePair>, f: FilePair): seq<FilePair> {
    if pairs == [] || !Below(f.path, pairs[|pairs| - 1].path) then pairs + [f]
    else InsertByPath(pairs[..|pairs| - 1], f) + [pairs[|pairs| - 1]]
  }

  function ByPath(pairs: seq<FilePair>): seq<FilePair> {
    if pairs == [] then [] else InsertByPath(ByPath(pairs[..|pairs| - 1]), pairs[|pairs| - 1])
  }

  lemma {:induction false} InsertKeepsPairs(pairs: seq<FilePair>, f: FilePair)
    ensures multiset(InsertByPath(pairs, f)) == multiset(pairs) + multiset{f}
    decreases |pairs|
  {
    if pairs != [] && Below(f.path, pairs[|pairs| - 1].path) {
      InsertKeepsPairs(pairs[..|pairs| - 1], f);
      assert pairs == pairs[..|pairs| - 1] + [pairs[|pairs| - 1]];
    }
  }

  lemma {:induction false} ByPathKeepsPairs(pairs: seq<FilePair>)
    ensures multiset(ByPath(pairs)) == multiset(pairs)
    decreases |pairs|
  {
    if pairs != [] {
      var n := |pairs| - 1;
      ByPathKeepsPairs(pairs[..n]);
      InsertKeepsPairs(ByPath(pairs[..n]), pairs[n]);
      assert pairs == pairs[..n] + [pairs[n]];
    }
  }

  ghost predicate AreByPath(pairs: seq<FilePair>) {
    forall i, j :: 0 <= i < j < |pairs| ==> !Below(pairs[j].path, pairs[i].path)
  }

  lemma {:induction false} InsertKeepsOrder(pairs: seq<FilePair>, f: FilePair)
    requires AreByPath(pairs)
    ensures AreByPath(InsertByPath(pairs, f))
    ensures forall g :: g in InsertByPath(pairs, f) <==> g in pairs || g == f
    decreases |pairs|
  {
    if pairs != [] {
      var n := |pairs| - 1;
      var last := pairs[n];
      if Below(f.path, last.path) {
        InsertKeepsOrder(pairs[..n], f);
        BelowIsStrict(f.path, last.path);
        assert forall g :: g in pairs <==> g in pairs[..n] || g == last;
        var front := InsertByPath(pairs[..n], f);
        forall i | 0 <= i < |front| ensures !Below(last.path, front[i].path) {
          assert front[i] in front;
        }
      } else {
        forall i | 0 <= i < n ensures !Below(f.path, pairs[i].path) {
          NotBelowIsTransitive(pairs[i].path, last.path, f.path);
        }
      }
    }
  }

  /** Sorted by path. */
  lemma {:induction false} ByPathIsSorted(pairs: seq<FilePair>)
    ensures forall i, j :: 0 <= i < j < |ByPath(pairs)| ==> !Below(ByPath(pairs)[j].path, ByPath(pairs)[i].path)
    decreases |pairs|
  {
    hide InsertByPath;
    if pairs != [] {
      var n := |pairs| - 1;
      ByPathIsSorted(pairs[..n]);
      InsertKeepsOrder(ByPath(pairs[..n]), pairs[n]);
    }
  }

  /** A pair is stale exactly when it is a readable candidate that needs work. */
  lemma {:induction false} StaleMeans(env: Env, view: map<Path, Kept>, tree: map<Path, Content>, paths: seq<Path>, full: bool, f: FilePair)
    ensures f in Stale(env, view, tree, paths, full) <==>
            && f.path in paths && f.path in tree && tree[f.path] == f.content
            && (full || f.path !in view || view[f.path].row.contentHash != env.digest(Clean(f.content)))
    decreases |paths|
  {
    if paths != [] {
      var n := |paths| - 1;
      StaleMeans(env, view, tree, paths[..n], full, f);
      assert f.path in paths <==> f.path in paths[..n] || f.path == paths[n];
    }
  }

  lemma {:induction false} OnlyMeans(pairs: seq<FilePair>, trivial: bool, f: FilePair)
    ensures f in Only(pairs, trivial) <==> f in pairs && IsTrivial(f.content) == trivial
    decreases |pairs|
  {
    if pairs != [] {
      var n := |pairs| - 1;
      OnlyMeans(pairs[..n], trivial, f);
      assert f in pairs <==> f in pairs[..n] || f == pairs[n];
    }
  }

  lemma SplitMeans(pairs: seq<FilePair>, trivial: bool, f: FilePair)
    ensures f in ByPath(Only(pairs, trivial)) <==> f in pairs && (|f.content| < 600 <==> trivial)
  {
    OnlyMeans(pairs, trivial, f);
    ByPathKeepsPairs(Only(pairs, trivial));
    assert f in ByPath(Only(pairs, trivial)) <==> f in multiset(ByPath(Only(pairs, trivial)));
    assert f in Only(pairs, trivial) <==> f in multiset(Only(pairs, trivial));
  }

  // ---------------------------------------------------------------- batches

  function Large(pairs: seq<FilePair>, large: bool): seq<FilePair> {
    if pairs == [] then []
    else
      var n := |pairs| - 1;
      Large(pairs[..n], large) + if IsLarge(pairs[n]) == large then [pairs[n]] else []
  }

  function Flatten(batches: seq<seq<FilePair>>): seq<FilePair> {
    if batches == [] then [] else Flatten(batches[..|batches| - 1]) + batches[|batches| - 1]
  }

  predicate IsLarge(f: FilePair) {
    |f.content| >= LARGE_FILE_BYTES
  }

  /** One large file, or up to three others. */
  ghost predicate BatchesOk(batches: seq<seq<FilePair>>) {
    forall b :: b in batches ==> 0 < |b| <= BATCH_SIZE && (|b| > 1 ==> forall f :: f in b ==> !IsLarge(f))
  }

  /** The first `n` batches cannot take another file: they have three, or a large one. */
  ghost predicate FullUpTo(batches: seq<seq<FilePair>>, n: int) {
    forall k :: 0 <= k < n && k < |batches| ==> |batches[k]| == BATCH_SIZE || (|batches[k]| == 1 && IsLarge(batches[k][0]))
  }

  /** Large files alone, the others in threes as far as they go, every one in exactly one batch and in order. */
  ghost predicate IsBatching(pairs: seq<FilePair>, batches: seq<seq<FilePair>>) {
    && Flatten(batches) == Large(pairs, true) + Large(pairs, false)
    && BatchesOk(batches) && FullUpTo(batches, |batches| - 1)
  }

  lemma {:induction false} LargeKeepsPairs(pairs: seq<FilePair>)
    ensures multiset(Large(pairs, true)) + multiset(Large(pairs, false)) == multiset(pairs)
    ensures multiset(Large(pairs, true) + Large(pairs, false)) == multiset(pairs)
    decreases |pairs|
  {
    if pairs != [] {
      var n := |pairs| - 1;
      LargeKeepsPairs(pairs[..n]);
      assert pairs == pairs[..n] + [pairs[n]];
    }
  }

  lemma {:induction false} LargeAreLarge(pairs: seq<FilePair>, large: bool)
    ensures forall f :: f in Large(pairs, large) ==> IsLarge(f) == large
    decreases |pairs|
  {
    if pairs != [] {
      LargeAreLarge(pairs[..|pairs| - 1], large);
    }
  }

  lemma FlattenAppend(batches: seq<seq<FilePair>>, b: seq<FilePair>)
    ensures Flatten(batches + [b]) == Flatten(batches) + b
  {
    assert (batches + [b])[..|batches|] == batches;
  }

  method BuildBatches(pairs: seq<FilePair>) returns (batches: seq<seq<FilePair>>)
    ensures IsBatching(pairs, batches)
    ensures forall b :: 0 <= b < |batches| ==>
              1 <= |batches[b]| <= 3 && (|batches[b]| == 1 || forall f :: f in batches[b] ==> |f.content| < 5000)
    ensures forall b :: 0 <= b < |batches| - 1 ==>
              |batches[b]| == 3 || (|batches[b]| == 1 && |batches[b][0].content| >= 5000)
    ensures multiset(Flatten(batches)) == multiset(pairs)
  {
    var large, small := [], [];
    for i := 0 to |pairs|
      invariant large == Large(pairs[..i], true) && small == Large(pairs[..i], false)
    {
      assert pairs[..i + 1][..i] == pairs[..i];
      if |pairs[i].content| >= LARGE_FILE_BYTES {
        large := large + [pairs[i]];
      } else {
        small := small + [pairs[i]];
      }
    }
    assert pairs[..|pairs|] == pairs;
    LargeAreLarge(pairs, true);
    LargeAreLarge(pairs, false);
    batches := AddSolo(large);
    batches := AddInThrees(batches, small);
    LargeKeepsPairs(pairs);
  }

  method AddSolo(large: seq<FilePair>) returns (batches: seq<seq<FilePair>>)
    requires forall f :: f in large ==> IsLarge(f)
    ensures Flatten(batches) == large && BatchesOk(batches) && FullUpTo(batches, |batches|)
  {
    batches := [];
    for i := 0 to |large|
      invariant Flatten(batches) == large[..i] && BatchesOk(batches) && FullUpTo(batches, |batches|)
    {
      FlattenAppend(batches, [large[i]]);
      batches := batches + [[large[i]]];
      assert large[..i + 1] == large[..i] + [large[i]];
    }
    assert large[..|large|] == large;
  }

  method AddInThrees(solo: seq<seq<FilePair>>, small: seq<FilePair>) returns (batches: seq<seq<FilePair>>)
    requires BatchesOk(solo) && FullUpTo(solo, |solo|) && forall f :: f in small ==> !IsLarge(f)
    ensures Flatten(batches) == Flatten(solo) + small && BatchesOk(batches) && FullUpTo(batches, |batches| - 1)
  {
    hide Flatten;
    batches := solo;
    var i := 0;
    while i < |small|
      invariant 0 <= i
      invariant Flatten(batches) == Flatten(solo) + small[..if i < |small| then i else |small|]
      invariant BatchesOk(batches) && FullUpTo(batches, if i <= |small| then |batches| else |batches| - 1)
    {
      var end := i + BATCH_SIZE;
      if end > |small| {
        end := |small|;
      }
      FlattenAppend(batches, small[i..end]);
      batches := batches + [small[i..end]];
      assert small[..end] == small[..i] + small[i..end];
      i := i + BATCH_SIZE;
    }
    assert small[..|small|] == small;
  }

  // ---------------------------------------------------------------- the run as a protocol

  /** A batch's goroutine: waiting for the model, or sending what it got. */
  datatype Producer = Asking(batch: seq<FilePair>) | Sending(items: seq<FilePair>)

  /** `written` counts the rows drained so far, failed upserts included. */
  datatype State = State(producers: seq<Producer>, queue: seq<FilePair>, view: map<Path, Kept>, drained: nat)

  /** A reply with the paths the model did not drop, or none when the call failed; a send on the channel;
      a receive with the upsert that follows it. */
  datatype Event = Reply(b: nat, kept: Option<set<Path>>) | Send(b: nat) | Drain(stored: bool)

  function Size(p: Producer): nat {
    match p case Asking(batch) => |batch| case Sending(items) => |items|
  }

  function Pending(producers: seq<Producer>): nat {
    if producers == [] then 0 else Pending(producers[..|producers| - 1]) + Size(producers[|producers| - 1])
  }

  function Kepts(batch: seq<FilePair>, kept: set<Path>): seq<FilePair> {
    if batch == [] then []
    else
      var n := |batch| - 1;
      Kepts(batch[..n], kept) + if batch[n].path in kept then [batch[n]] else []
  }

  /** `cap` is the channel's capacity. */
  predicate Enabled(s: State, cap: nat, e: Event) {
    match e
    case Reply(b, _) => b < |s.producers| && s.producers[b].Asking?
    case Send(b) => b < |s.producers| && s.producers[b].Sending? && s.producers[b].items != [] && |s.queue| < cap
    case Drain(_) => s.queue != []
  }

  function Step(env: Env, s: State, cap: nat, e: Event): State {
    if !Enabled(s, cap, e) then s
    else match e
      case Reply(b, kept) =>
        var items := if kept.None? then [] else Kepts(s.producers[b].batch, kept.value);
        s.(producers := s.producers[b := Sending(items)])
      case Send(b) =>
        var items := s.producers[b].items;
        s.(producers := s.producers[b := Sending(items[1..])], queue := s.queue + [items[0]])
      case Drain(stored) =>
        var f := s.queue[0];
        s.(queue := s.queue[1..], drained := s.drained + 1,
           view := if stored then s.view[f.path := Expected(env, f.path, f.content)] else s.view)
  }

  function Run(env: Env, s: State, cap: nat, events: seq<Event>): State {
    if events == [] then s else Step(env, Run(env, s, cap, events[..|events| - 1]), cap, events[|events| - 1])
  }

  function Ask(batches: seq<seq<FilePair>>): seq<Producer> {
    seq(|batches|, i requires 0 <= i < |batches| => Asking(batches[i]))
  }

  function Begin(view: map<Path, Kept>, batches: seq<seq<FilePair>>): State {
    State(Ask(batches), [], view, 0)
  }

  predicate Finished(s: State) {
    s.queue == [] && forall b :: 0 <= b < |s.producers| ==> s.producers[b] == Sending([])
  }

  // ---------------------------------------------------------------- the channel never blocks a producer

  lemma {:induction false} PendingUpdate(producers: seq<Producer>, b: nat, p: Producer)
    requires b < |producers|
    ensures Pending(producers[b := p]) == Pending(producers) - Size(producers[b]) + Size(p)
    decreases |producers|
  {
    var n := |producers| - 1;
    if b < n {
      PendingUpdate(producers[..n], b, p);
      assert producers[b := p][..n] == producers[..n][b := p];
    } else {
      assert producers[b := p][..n] == producers[..n];
    }
  }

  lemma {:induction false} PendingHolds(producers: seq<Producer>, b: nat)
    requires b < |producers|
    ensures Pending(producers) >= Size(producers[b])
    decreases |producers|
  {
    if b < |producers| - 1 {
      PendingHolds(producers[..|producers| - 1], b);
    }
  }

  lemma {:induction false} AskPending(batches: seq<seq<FilePair>>)
    ensures Pending(Ask(batches)) == |Flatten(batches)|
    decreases |batches|
  {
    if batches != [] {
      var n := |batches| - 1;
      AskPending(batches[..n]);
      assert Ask(batches)[..n] == Ask(batches[..n]);
    }
  }

  lemma {:induction false} KeptsIsShorter(batch: seq<FilePair>, kept: set<Path>)
    ensures |Kepts(batch, kept)| <= |batch|
    decreases |batch|
  {
    if batch != [] {
      KeptsIsShorter(batch[..|batch| - 1], kept);
    }
  }

  /** All there is to send, queued or drained, never exceeds the channel's capacity. */
  predicate Bounded(s: State, cap: nat) {
    Pending(s.producers) + |s.queue| + s.drained <= cap
  }

  lemma StepKeepsBound(env: Env, s: State, cap: nat, e: Event)
    requires Bounded(s, cap)
    ensures Bounded(Step(env, s, cap, e), cap)
  {
    if Enabled(s, cap, e) {
      match e
      case Reply(b, kept) =>
        var items := if kept.None? then [] else Kepts(s.producers[b].batch, kept.value);
        if kept.Some? {
          KeptsIsShorter(s.producers[b].batch, kept.value);
        }
        PendingUpdate(s.producers, b, Sending(items));
      case Send(b) => PendingUpdate(s.producers, b, Sending(s.producers[b].items[1..]));
      case Drain(_) =>
    }
  }

  lemma {:induction false} RunKeepsBound(env: Env, s: State, cap: nat, events: seq<Event>)
    requires Bounded(s, cap)
    ensures Bounded(Run(env, s, cap, events), cap)
  {
    hide Step, Bounded;
    if events != [] {
      RunKeepsBound(env, s, cap, events[..|events| - 1]);
      StepKeepsBound(env, Run(env, s, cap, events[..|events| - 1]), cap, events[|events| - 1]);
    }
  }

  lemma BatchingBounds(view: map<Path, Kept>, pairs: seq<FilePair>, batches: seq<seq<FilePair>>)
    requires IsBatching(pairs, batches)
    ensures Bounded(Begin(view, batches), |pairs|)
  {
    AskPending(batches);
    LargeKeepsPairs(pairs);
    assert |multiset(Large(pairs, true) + Large(pairs, false))| == |multiset(pairs)|;
  }

  /** A channel with room for every file: whenever a batch has something to send, it can. */
  lemma ProducersNeverBlock(env: Env, view: map<Path, Kept>, pairs: seq<FilePair>, batches: seq<seq<FilePair>>, events: seq<Event>, b: nat)
    requires IsBatching(pairs, batches)
    requires var s := Run(env, Begin(view, batches), |pairs|, events);
             b < |s.producers| && s.producers[b].Sending? && s.producers[b].items != []
    ensures Enabled(Run(env, Begin(view, batches), |pairs|, events), |pairs|, Send(b))
  {
    hide Run;
    BatchingBounds(view, pairs, batches);
    RunKeepsBound(env, Begin(view, batches), |pairs|, events);
    PendingHolds(Run(env, Begin(view, batches), |pairs|, events).producers, b);
  }

  // ---------------------------------------------------------------- what a run writes

  /** A pair still has to be asked for, sent or drained. */
  ghost predicate InFlight(s: State, f: FilePair) {
    f in s.queue || exists b :: 0 <= b < |s.producers| && HasPair(s.producers[b], f)
  }

  predicate HasPair(p: Producer, f: FilePair) {
    match p case Asking(batch) => f in batch case Sending(items) => f in items
  }

  lemma {:induction false} KeptsMeans(batch: seq<FilePair>, kept: set<Path>, f: FilePair)
    ensures f in Kepts(batch, kept) <==> f in batch && f.path in kept
    decreases |batch|
  {
    if batch != [] {
      var n := |batch| - 1;
      KeptsMeans(batch[..n], kept, f);
      assert f in batch <==> f in batch[..n] || f == batch[n];
    }
  }

  lemma {:induction false} AskHasPairs(batches: seq<seq<FilePair>>, f: FilePair)
    ensures f in Flatten(batches) <==> exists b :: 0 <= b < |batches| && f in batches[b]
    decreases |batches|
  {
    if batches != [] {
      var n := |batches| - 1;
      AskHasPairs(batches[..n], f);
      assert forall b :: 0 <= b < n ==> batches[..n][b] == batches[b];
    }
  }

  /** Only pairs of the run are ever in flight. */
  lemma StepFlies(env: Env, s: State, cap: nat, e: Event, f: FilePair)
    requires InFlight(Step(env, s, cap, e), f)
    ensures InFlight(s, f)
  {
    var t := Step(env, s, cap, e);
    if Enabled(s, cap, e) && !(f in s.queue) {
      match e
      case Reply(b, kept) =>
        var c :| 0 <= c < |t.producers| && HasPair(t.producers[c], f);
        if kept.Some? {
          KeptsMeans(s.producers[b].batch, kept.value, f);
        }
        assert HasPair(s.producers[c], f);
      case Send(b) =>
        assert HasPair(s.producers[b], s.producers[b].items[0]);
        if f !in t.queue {
          var c :| 0 <= c < |t.producers| && HasPair(t.producers[c], f);
          assert HasPair(s.producers[c], f);
        }
      case Drain(_) =>
        var c :| 0 <= c < |t.producers| && HasPair(t.producers[c], f);
        assert HasPair(s.producers[c], f);
    }
  }

  /** An event of a run in which nothing goes wrong. */
  predicate Succeeds(e: Event, paths: set<Path>) {
    match e case Reply(_, kept) => kept.Some? && paths <= kept.value case Send(_) => true case Drain(stored) => stored
  }

  /** No pair leaves the run unwritten unless something goes wrong. */
  lemma StepWrites(env: Env, s: State, cap: nat, e: Event, f: FilePair)
    requires InFlight(s, f) && Succeeds(e, {f.path})
    ensures InFlight(Step(env, s, cap, e), f)
            || (f.path in Step(env, s, cap, e).view && Step(env, s, cap, e).view[f.path] == Expected(env, f.path, f.content))
  {
    hide Expected;
    var t := Step(env, s, cap, e);
    if Enabled(s, cap, e) {
      match e
      case Reply(b, kept) =>
        if f !in s.queue {
          var c :| 0 <= c < |s.producers| && HasPair(s.producers[c], f);
          KeptsMeans(s.producers[b].batch, kept.value, f);
          assert HasPair(t.producers[c], f);
        }
      case Send(b) =>
        if f !in t.queue {
          var c :| 0 <= c < |s.producers| && HasPair(s.producers[c], f);
          var items := s.producers[b].items;
          assert t.queue[|s.queue|] == items[0] && items == [items[0]] + items[1..];
          assert HasPair(t.producers[c], f);
        }
      case Drain(_) =>
        if f !in s.queue {
          var c :| 0 <= c < |s.producers| && HasPair(s.producers[c], f);
          assert HasPair(t.producers[c], f);
        } else {
          assert s.queue == [s.queue[0]] + s.queue[1..];
        }
    }
  }

  /** A row that a pair has been written to stays so while only pairs with the same content come after it. */
  lemma StepKeepsRow(env: Env, s: State, cap: nat, e: Event, f: FilePair)
    requires f.path in s.view && s.view[f.path] == Expected(env, f.path, f.content)
    requires forall g :: InFlight(s, g) && g.path == f.path ==> g == f
    ensures f.path in Step(env, s, cap, e).view && Step(env, s, cap, e).view[f.path] == Expected(env, f.path, f.content)
  {
    hide Expected;
    if e.Drain? && s.queue != [] {
      assert InFlight(s, s.queue[0]);
    }
  }

  /** A step changes no row but that of the pair it drains. */
  lemma StepView(env: Env, s: State, cap: nat, e: Event, p: Path)
    ensures var t := Step(env, s, cap, e);
            || ((p in t.view <==> p in s.view) && (p in s.view ==> t.view[p] == s.view[p]))
            || (s.queue != [] && InFlight(s, s.queue[0]) && s.queue[0].path == p && p in t.view
                && t.view[p] == Expected(env, p, s.queue[0].content))
  {
    hide Expected;
  }

  lemma {:induction false} RunFlies(env: Env, s: State, cap: nat, events: seq<Event>, f: FilePair)
    requires InFlight(Run(env, s, cap, events), f)
    ensures InFlight(s, f)
  {
    hide Step, InFlight;
    if events != [] {
      var m := |events| - 1;
      StepFlies(env, Run(env, s, cap, events[..m]), cap, events[m], f);
      RunFlies(env, s, cap, events[..m], f);
    }
  }

  /** The row is what it was, or what the index should say of a pair of this run. */
  ghost predicate Untouched(s: State, t: State, p: Path) {
    (p in t.view <==> p in s.view) && (p in s.view ==> t.view[p] == s.view[p])
  }

  ghost predicate Rewritten(env: Env, s: State, t: State, p: Path) {
    p in t.view && exists f: FilePair :: InFlight(s, f) && f.path == p && t.view[p] == Expected(env, p, f.content)
  }

  lemma {:induction false} RunView(env: Env, s: State, cap: nat, events: seq<Event>, p: Path)
    ensures Untouched(s, Run(env, s, cap, events), p) || Rewritten(env, s, Run(env, s, cap, events), p)
  {
    hide Step, InFlight, Expected;
    if events != [] {
      var m := |events| - 1;
      var t := Run(env, s, cap, events[..m]);
      RunView(env, s, cap, events[..m], p);
      StepView(env, t, cap, events[m], p);
      if t.queue != [] && InFlight(t, t.queue[0]) {
        RunFlies(env, s, cap, events[..m], t.queue[0]);
      }
    }
  }

  /** When nothing goes wrong, each pair of the run is in flight until its row is written. */
  lemma {:induction false} RunWrites(env: Env, s: State, cap: nat, events: seq<Event>, f: FilePair)
    requires InFlight(s, f) && forall g :: InFlight(s, g) && g.path == f.path ==> g == f
    requires forall i :: 0 <= i < |events| ==> Succeeds(events[i], {f.path})
    ensures var t := Run(env, s, cap, events);
            InFlight(t, f) || (f.path in t.view && t.view[f.path] == Expected(env, f.path, f.content))
  {
    hide Step, InFlight, Expected, Succeeds;
    if events != [] {
      var m := |events| - 1;
      var t := Run(env, s, cap, events[..m]);
      RunWrites(env, s, cap, events[..m], f);
      if InFlight(t, f) {
        StepWrites(env, t, cap, events[m], f);
      } else {
        forall g | InFlight(t, g) && g.path == f.path ensures g == f {
          RunFlies(env, s, cap, events[..m], g);
        }
        StepKeepsRow(env, t, cap, events[m], f);
      }
    }
  }

  // ---------------------------------------------------------------- whole runs

  /** The i-th of the upserts succeeded. */
  predicate Saved(saved: seq<bool>, i: nat) { i < |saved| && saved[i] }

  /** The rows of trivial files, written one by one in front of the batches. */
  function WriteTrivials(env: Env, view: map<Path, Kept>, trivials: seq<FilePair>, saved: seq<bool>): map<Path, Kept> {
    if trivials == [] then view
    else
      var n := |trivials| - 1;
      var v, f := WriteTrivials(env, view, trivials[..n], saved), trivials[n];
      if Saved(saved, n) then v[f.path := Expected(env, f.path, f.content)] else v
  }

  datatype Job = Job(tree: map<Path, Content>, paths: seq<Path>, full: bool)

  function StaleOf(env: Env, view: map<Path, Kept>, job: Job): seq<FilePair> {
    Stale(env, view, job.tree, job.paths, job.full)
  }

  function Trivials(env: Env, view: map<Path, Kept>, job: Job): seq<FilePair> {
    ByPath(Only(StaleOf(env, view, job), true))
  }

  function Summarizables(env: Env, view: map<Path, Kept>, job: Job): seq<FilePair> {
    ByPath(Only(StaleOf(env, view, job), false))
  }

  /** How a run went: the batches made, which upserts of trivial files worked, and what happened then. */
  datatype Course = Course(batches: seq<seq<FilePair>>, saved: seq<bool>, events: seq<Event>)

  function Trues(s: seq<bool>): nat {
    if s == [] then 0 else Trues(s[..|s| - 1]) + if s[|s| - 1] then 1 else 0
  }

  function Stores(events: seq<Event>): nat {
    if events == [] then 0 else Stores(events[..|events| - 1]) + if events[|events| - 1] == Drain(true) then 1 else 0
  }

  ghost function TruePlaces(s: seq<bool>): set<int> {
    set i | 0 <= i < |s| && s[i]
  }

  lemma {:induction false} TruesAre(s: seq<bool>)
    ensures Trues(s) == |TruePlaces(s)|
    decreases |s|
  {
    if s == [] {
      assert TruePlaces(s) == {};
    } else {
      var n := |s| - 1;
      TruesAre(s[..n]);
      assert TruePlaces(s) == TruePlaces(s[..n]) + if s[n] then {n} else {};
    }
  }

  ghost function StoredPlaces(events: seq<Event>): set<int> {
    set i | 0 <= i < |events| && events[i] == Drain(true)
  }

  lemma {:induction false} StoresAre(events: seq<Event>)
    ensures Stores(events) == |StoredPlaces(events)|
    decreases |events|
  {
    if events == [] {
      assert StoredPlaces(events) == {};
    } else {
      var n := |events| - 1;
      StoresAre(events[..n]);
      assert StoredPlaces(events) == StoredPlaces(events[..n]) + if events[n] == Drain(true) then {n} else {};
    }
  }

  /** The count of a run is that of the upserts that worked. */
  lemma PersistedCounts(c: Course)
    ensures Persisted(c) == |TruePlaces(c.saved)| + |StoredPlaces(c.events)|
  {
    TruesAre(c.saved);
    StoresAre(c.events);
  }

  /** How many upserts worked. */
  function Persisted(c: Course): nat {
    Trues(c.saved) + Stores(c.events)
  }

  ghost predicate IsCourse(env: Env, view: map<Path, Kept>, job: Job, c: Course) {
    IsBatching(Summarizables(env, view, job), c.batches)
  }

  function Start(env: Env, view: map<Path, Kept>, job: Job, c: Course): State {
    Begin(WriteTrivials(env, view, Trivials(env, view, job), c.saved), c.batches)
  }

  function End(env: Env, view: map<Path, Kept>, job: Job, c: Course): State {
    Run(env, Start(env, view, job, c), |Summarizables(env, view, job)|, c.events)
  }

  /** Every upsert and batch succeeded and everything was drained. */
  ghost predicate AllSucceeds(env: Env, view: map<Path, Kept>, job: Job, c: Course) {
    && (forall i :: 0 <= i < |Trivials(env, view, job)| ==> Saved(c.saved, i))
    && (forall i :: 0 <= i < |c.events| ==> Succeeds(c.events[i], SetOf(job.paths)))
    && Finished(End(env, view, job, c))
  }

  lemma {:induction false} TrivialsWritten(env: Env, view: map<Path, Kept>, trivials: seq<FilePair>, saved: seq<bool>, p: Path)
    ensures var v := WriteTrivials(env, view, trivials, saved);
            || ((p in v <==> p in view) && (p in view ==> v[p] == view[p])
                && forall i :: 0 <= i < |trivials| && trivials[i].path == p ==> !Saved(saved, i))
            || (p in v && exists f :: f in trivials && f.path == p && v[p] == Expected(env, p, f.content))
    decreases |trivials|
  {
    hide Expected;
    if trivials != [] {
      var n := |trivials| - 1;
      TrivialsWritten(env, view, trivials[..n], saved, p);
      assert forall f :: f in trivials <==> f in trivials[..n] || f == trivials[n];
    }
  }

  lemma {:induction false} FlattenHolds(batches: seq<seq<FilePair>>, f: FilePair)
    ensures InFlight(Begin(map[], batches), f) <==> f in Flatten(batches)
  {
    AskHasPairs(batches, f);
    var s := Begin(map[], batches);
    assert forall b :: 0 <= b < |batches| ==> (HasPair(s.producers[b], f) <==> f in batches[b]);
  }

  /** What is in flight at the start is exactly what has to be summarised. */
  lemma StartsWith(env: Env, view: map<Path, Kept>, job: Job, c: Course, f: FilePair)
    requires IsCourse(env, view, job, c)
    ensures InFlight(Start(env, view, job, c), f) <==> f in StaleOf(env, view, job) && !IsTrivial(f.content)
  {
    var works := Summarizables(env, view, job);
    SplitMeans(StaleOf(env, view, job), false, f);
    LargeKeepsPairs(works);
    FlattenHolds(c.batches, f);
    assert f in Flatten(c.batches) <==> f in multiset(Flatten(c.batches));
    assert f in works <==> f in multiset(works);
    assert Start(env, view, job, c).producers == Begin(map[], c.batches).producers;
  }

  /** Whatever fails and in whatever order the batches answer, each row is either the one that was there or
      what the index should say of the file as this run read it. */
  lemma RunTouches(env: Env, view: map<Path, Kept>, job: Job, c: Course, p: Path)
    requires IsCourse(env, view, job, c)
    ensures var v := End(env, view, job, c).view;
            || ((p in v <==> p in view) && (p in view ==> v[p] == view[p]))
            || (p in v && p in job.paths && p in job.tree && v[p] == Expected(env, p, job.tree[p]))
  {
    hide Expected, InFlight, Run, IsCourse, WriteTrivials;
    var s0 := Start(env, view, job, c);
    RunView(env, s0, |Summarizables(env, view, job)|, c.events, p);
    if Rewritten(env, s0, End(env, view, job, c), p) {
      var f: FilePair :| InFlight(s0, f) && f.path == p && End(env, view, job, c).view[p] == Expected(env, p, f.content);
      StartsWith(env, view, job, c, f);
      StaleMeans(env, view, job.tree, job.paths, job.full, f);
    } else {
      TrivialTouches(env, view, job, c, p);
    }
  }

  lemma TrivialTouches(env: Env, view: map<Path, Kept>, job: Job, c: Course, p: Path)
    ensures var v := Start(env, view, job, c).view;
            || ((p in v <==> p in view) && (p in view ==> v[p] == view[p]))
            || (p in v && p in job.paths && p in job.tree && v[p] == Expected(env, p, job.tree[p]))
  {
    hide Expected;
    var trivials := Trivials(env, view, job);
    TrivialsWritten(env, view, trivials, c.saved, p);
    forall f | f in trivials ensures f.path in job.paths && f.path in job.tree && job.tree[f.path] == f.content {
      SplitMeans(StaleOf(env, view, job), true, f);
      StaleMeans(env, view, job.tree, job.paths, job.full, f);
    }
  }

  /** Every stored row stays the summary of the content its hash names. */
  lemma RunKeepsSound(env: Env, view: map<Path, Kept>, job: Job, c: Course)
    requires Sound(env, view) && IsCourse(env, view, job, c)
    ensures Sound(env, End(env, view, job, c).view)
  {
    hide Expected, IsCourse;
    var v := End(env, view, job, c).view;
    forall p | p in v ensures IsSummary(env, p, v[p]) {
      RunTouches(env, view, job, c, p);
    }
  }

  // ---------------------------------------------------------------- agreement with a full run

  /** The rows of the job's readable candidates as they should be, all others as they were. */
  function Agreed(env: Env, view: map<Path, Kept>, job: Job): map<Path, Kept> {
    view + map p | p in SetOf(job.paths) && p in job.tree :: Expected(env, p, job.tree[p])
  }

  /** The files the run passes over already have the rows they should have. */
  ghost predicate SkippedAreRight(env: Env, view: map<Path, Kept>, job: Job) {
    forall p :: p in job.paths && p in job.tree && !NeedsWork(env, view, job.full, FilePair(p, job.tree[p])) ==>
      view[p] == Expected(env, p, job.tree[p])
  }

  /** A file the run passes over keeps its row, whatever happens to the others. */
  lemma SkippedRowStays(env: Env, view: map<Path, Kept>, job: Job, c: Course, p: Path)
    requires IsCourse(env, view, job, c) && p in job.tree && !NeedsWork(env, view, job.full, FilePair(p, job.tree[p]))
    ensures p in End(env, view, job, c).view && End(env, view, job, c).view[p] == view[p]
  {
    hide Expected, InFlight, Run, IsCourse, WriteTrivials;
    var s0 := Start(env, view, job, c);
    RunView(env, s0, |Summarizables(env, view, job)|, c.events, p);
    if Rewritten(env, s0, End(env, view, job, c), p) {
      var f: FilePair :| InFlight(s0, f) && f.path == p && End(env, view, job, c).view[p] == Expected(env, p, f.content);
      StartsWith(env, view, job, c, f);
      StaleMeans(env, view, job.tree, job.paths, job.full, f);
    }
    TrivialsWritten(env, view, Trivials(env, view, job), c.saved, p);
    forall f | f in Trivials(env, view, job) ensures f.path != p {
      SplitMeans(StaleOf(env, view, job), true, f);
      StaleMeans(env, view, job.tree, job.paths, job.full, f);
    }
  }

  lemma StaleRowIsWritten(env: Env, view: map<Path, Kept>, job: Job, c: Course, f: FilePair)
    requires IsCourse(env, view, job, c) && AllSucceeds(env, view, job, c) && f in StaleOf(env, view, job)
    ensures f.path in End(env, view, job, c).view && End(env, view, job, c).view[f.path] == Expected(env, f.path, f.content)
  {
    hide Expected, InFlight, Run, IsCourse;
    var s0 := Start(env, view, job, c);
    StaleMeans(env, view, job.tree, job.paths, job.full, f);
    forall g | InFlight(s0, g) && g.path == f.path ensures g == f {
      StartsWith(env, view, job, c, g);
      StaleMeans(env, view, job.tree, job.paths, job.full, g);
    }
    StartsWith(env, view, job, c, f);
    if IsTrivial(f.content) {
      TrivialRowIsWritten(env, view, job, c, f);
    } else {
      SucceedsForOne(c.events, SetOf(job.paths), f.path);
      RunWrites(env, s0, |Summarizables(env, view, job)|, c.events, f);
      NothingFlies(End(env, view, job, c), f);
    }
  }

  lemma SucceedsForOne(events: seq<Event>, paths: set<Path>, p: Path)
    requires p in paths && forall i :: 0 <= i < |events| ==> Succeeds(events[i], paths)
    ensures forall i :: 0 <= i < |events| ==> Succeeds(events[i], {p})
  {
    forall i | 0 <= i < |events| ensures Succeeds(events[i], {p}) {
      assert Succeeds(events[i], paths);
    }
  }

  lemma NothingFlies(s: State, f: FilePair)
    requires Finished(s)
    ensures !InFlight(s, f)
  {
  }

  lemma TrivialRowIsWritten(env: Env, view: map<Path, Kept>, job: Job, c: Course, f: FilePair)
    requires IsCourse(env, view, job, c) && AllSucceeds(env, view, job, c) && f in StaleOf(env, view, job) && IsTrivial(f.content)
    ensures f.path in End(env, view, job, c).view && End(env, view, job, c).view[f.path] == Expected(env, f.path, f.content)
  {
    hide Expected, InFlight, Run, IsCourse, WriteTrivials;
    SplitMeans(StaleOf(env, view, job), true, f);
    StaleMeans(env, view, job.tree, job.paths, job.full, f);
    TrivialsWritten(env, view, Trivials(env, view, job), c.saved, f.path);
    TrivialTouchesSame(env, view, job, c, f);
    RunView(env, Start(env, view, job, c), |Summarizables(env, view, job)|, c.events, f.path);
    if Rewritten(env, Start(env, view, job, c), End(env, view, job, c), f.path) {
      var g: FilePair :| InFlight(Start(env, view, job, c), g) && g.path == f.path
                         && End(env, view, job, c).view[f.path] == Expected(env, f.path, g.content);
      StartsWith(env, view, job, c, g);
      StaleMeans(env, view, job.tree, job.paths, job.full, g);
    }
  }

  lemma TrivialTouchesSame(env: Env, view: map<Path, Kept>, job: Job, c: Course, f: FilePair)
    requires f in Trivials(env, view, job) && f in StaleOf(env, view, job)
    requires forall i :: 0 <= i < |Trivials(env, view, job)| ==> Saved(c.saved, i)
    ensures var v := Start(env, view, job, c).view; f.path in v && v[f.path] == Expected(env, f.path, f.content)
  {
    hide Expected;
    TrivialsWritten(env, view, Trivials(env, view, job), c.saved, f.path);
    StaleMeans(env, view, job.tree, job.paths, job.full, f);
    forall g | g in Trivials(env, view, job) && g.path == f.path ensures g == f {
      SplitMeans(StaleOf(env, view, job), true, g);
      StaleMeans(env, view, job.tree, job.paths, job.full, g);
    }
  }

  /** A run in which everything succeeds leaves the readable candidates as they should be and touches
      nothing else, exactly when the rows of the files it passes over were right. */
  lemma CompleteRunAgreesIff(env: Env, view: map<Path, Kept>, job: Job, c: Course)
    requires IsCourse(env, view, job, c) && AllSucceeds(env, view, job, c)
    ensures End(env, view, job, c).view == Agreed(env, view, job) <==> SkippedAreRight(env, view, job)
  {
    hide Expected, End, IsCourse, AllSucceeds;
    var v := End(env, view, job, c).view;
    forall p ensures p in v <==> p in Agreed(env, view, job) {
      CompleteRow(env, view, job, c, p);
    }
    if SkippedAreRight(env, view, job) {
      forall p | p in v ensures v[p] == Agreed(env, view, job)[p] {
        CompleteRow(env, view, job, c, p);
      }
    } else {
      var p :| p in job.paths && p in job.tree && !NeedsWork(env, view, job.full, FilePair(p, job.tree[p]))
               && view[p] != Expected(env, p, job.tree[p]);
      SkippedRowStays(env, view, job, c, p);
      assert p in SetOf(job.paths);
    }
  }

  lemma CompleteRow(env: Env, view: map<Path, Kept>, job: Job, c: Course, p: Path)
    requires IsCourse(env, view, job, c) && AllSucceeds(env, view, job, c)
    ensures var v := End(env, view, job, c).view;
            if p in job.paths && p in job.tree then
              p in v && v[p] == if NeedsWork(env, view, job.full, FilePair(p, job.tree[p]))
                                then Expected(env, p, job.tree[p]) else view[p]
            else (p in v <==> p in view) && (p in view ==> v[p] == view[p])
  {
    hide Expected, End, IsCourse, AllSucceeds;
    RunTouches(env, view, job, c, p);
    if p in job.paths && p in job.tree {
      var f := FilePair(p, job.tree[p]);
      StaleMeans(env, view, job.tree, job.paths, job.full, f);
      if NeedsWork(env, view, job.full, f) {
        StaleRowIsWritten(env, view, job, c, f);
      } else {
        SkippedRowStays(env, view, job, c, p);
      }
    }
  }

  /** An incremental run in which everything succeeds ends with the rows of a full one exactly when the
      rows of the files it passes over were right. */
  lemma IncrementalIsFullIff(env: Env, view: map<Path, Kept>, job: Job, c: Course, d: Course)
    requires IsCourse(env, view, job.(full := false), c) && AllSucceeds(env, view, job.(full := false), c)
    requires IsCourse(env, view, job.(full := true), d) && AllSucceeds(env, view, job.(full := true), d)
    ensures End(env, view, job.(full := true), d).view == Agreed(env, view, job)
    ensures End(env, view, job.(full := false), c).view == End(env, view, job.(full := true), d).view
            <==> SkippedAreRight(env, view, job.(full := false))
  {
    hide *;
    CompleteRunAgreesIff(env, view, job.(full := false), c);
    CompleteRunAgreesIff(env, view, job.(full := true), d);
    FullSkipsNothing(env, view, job);
    SameAgreement(env, view, job);
  }

  lemma FullSkipsNothing(env: Env, view: map<Path, Kept>, job: Job)
    ensures SkippedAreRight(env, view, job.(full := true))
  {
  }

  lemma SameAgreement(env: Env, view: map<Path, Kept>, job: Job)
    ensures Agreed(env, view, job.(full := false)) == Agreed(env, view, job.(full := true)) == Agreed(env, view, job)
  {
    hide Expected;
  }

  // ---------------------------------------------------------------- contents the hash does not tell apart

  /** Two contents for which it does not matter which of them was summarised. */
  predicate Harmless(c: Content, d: Content) {
    c == d || (IsTrivial(c) && IsTrivial(d))
  }

  function WithAnswer(env: Env, a: (Path, Content) -> Answer): Env {
    env.(answer := a)
  }

  lemma SameLoc(c: Content, d: Content)
    requires Clean(c) == Clean(d)
    ensures Loc(c) == Loc(d)
  {
    hide Clean, Newlines;
    CleanKeepsLines(c);
    CleanKeepsLines(d);
  }

  /** Two contents that are due the same row when they are hashed alike: both trivial, or both of them not
      and with the same answer. */
  predicate Alike(env: Env, p: Path, c: Content, d: Content) {
    (IsTrivial(c) <==> IsTrivial(d)) && (IsTrivial(c) || env.answer(p, c) == env.answer(p, d))
  }

  lemma AlikeRows(env: Env, p: Path, c: Content, d: Content)
    requires Clean(c) == Clean(d) && Alike(env, p, c, d)
    ensures Expected(env, p, c) == Expected(env, p, d)
  {
    hide Clean, KeptSymbols, KeptTargets, AllRefs;
    SameLoc(c, d);
  }

  /** A model that answers with the content itself gives two other contents different rows. */
  function Echo(): (Path, Content) -> Answer {
    (p: Path, c: Content) => Answer("", "=" + c, [], [], [], [])
  }

  lemma EchoTellsApart(env: Env, p: Path, c: Content, d: Content)
    requires !Harmless(c, d)
    ensures Expected(WithAnswer(env, Echo()), p, c) != Expected(WithAnswer(env, Echo()), p, d)
  {
    hide Clean, Loc, KeptSymbols, KeptTargets;
    var e := WithAnswer(env, Echo());
    EchoSummary(env, p, c);
    EchoSummary(env, p, d);
    assert ("=" + c)[1..] == c && ("=" + d)[1..] == d;
  }

  lemma EchoSummary(env: Env, p: Path, c: Content)
    ensures Expected(WithAnswer(env, Echo()), p, c).row.summary == if IsTrivial(c) then "" else "=" + c
  {
    hide Clean, Loc, KeptSymbols, KeptTargets;
  }

  /** The rows that contents read earlier left behind. */
  function Rows(env: Env, read: map<Path, Content>): map<Path, Kept> {
    map p | p in read :: Expected(env, p, read[p])
  }

  /** Every candidate that reads like its stored content once both are cleaned is that content, or trivial
      like it. */
  ghost predicate ToldApart(read: map<Path, Content>, job: Job) {
    forall p :: p in job.paths && p in job.tree && p in read && Clean(read[p]) == Clean(job.tree[p]) ==>
      Harmless(read[p], job.tree[p])
  }

  lemma SkippedMeansSameClean(env: Env, read: map<Path, Content>, job: Job, p: Path)
    requires NoCollisions(env) && p in job.tree
    ensures !NeedsWork(env, Rows(env, read), false, FilePair(p, job.tree[p]))
            <==> p in read && Clean(read[p]) == Clean(job.tree[p])
  {
    hide Clean, Loc, Verbatim;
    if p in read {
      ExpectedNamesItsContent(env, p, read[p]);
    }
  }

  /** If an answer may be any function of a file's bytes, the files an incremental run passes over have the
      right rows for every model exactly when the contents read are told apart from the stored ones by what
      is hashed. */
  lemma RightForEveryModelIff(env: Env, read: map<Path, Content>, job: Job)
    requires NoCollisions(env) && !job.full
    ensures ToldApart(read, job) <==>
            forall a: (Path, Content) -> Answer ::
              SkippedAreRight(WithAnswer(env, a), Rows(WithAnswer(env, a), read), job)
  {
    hide Clean, Expected, IsTrivial;
    if ToldApart(read, job) {
      forall a: (Path, Content) -> Answer ensures SkippedAreRight(WithAnswer(env, a), Rows(WithAnswer(env, a), read), job) {
        var e := WithAnswer(env, a);
        forall p | p in job.paths && p in job.tree && !NeedsWork(e, Rows(e, read), false, FilePair(p, job.tree[p]))
          ensures Rows(e, read)[p] == Expected(e, p, job.tree[p])
        {
          SkippedMeansSameClean(e, read, job, p);
          AlikeRows(e, p, read[p], job.tree[p]);
        }
      }
    } else {
      var p :| p in job.paths && p in job.tree && p in read && Clean(read[p]) == Clean(job.tree[p])
               && !Harmless(read[p], job.tree[p]);
      var e := WithAnswer(env, Echo());
      SkippedMeansSameClean(e, read, job, p);
      EchoTellsApart(env, p, read[p], job.tree[p]);
      assert !SkippedAreRight(e, Rows(e, read), job);
    }
  }

  /** UTF-8 is told apart. */
  lemma Utf8IsToldApart(read: map<Path, Content>, job: Job)
    requires forall p :: p in read ==> IsUtf8(read[p])
    requires forall p :: p in job.tree ==> IsUtf8(job.tree[p])
    ensures ToldApart(read, job)
  {
    hide Clean, IsUtf8;
    forall p | p in job.tree && p in read && Clean(read[p]) == Clean(job.tree[p]) ensures Harmless(read[p], job.tree[p]) {
      CleanIsIdentityIff(read[p]);
      CleanIsIdentityIff(job.tree[p]);
    }
  }

  // ---------------------------------------------------------------- models asked over JSON

  /** A prompt travels in a JSON text, where U+FFFD stands for every broken byte: what the model sees of a
      file is what is hashed. */
  ghost predicate SeesCleaned(a: (Path, Content) -> Answer) {
    forall p, c, d :: Clean(c) == Clean(d) ==> a(p, c) == a(p, d)
  }

  /** Every candidate that reads like its stored content once both are cleaned is on the same side of the
      limit for trivial files, which is taken before cleaning. */
  ghost predicate SameSide(read: map<Path, Content>, job: Job) {
    forall p :: p in job.paths && p in job.tree && p in read && Clean(read[p]) == Clean(job.tree[p]) ==>
      (IsTrivial(read[p]) <==> IsTrivial(job.tree[p]))
  }

  function Always(summary: string): (Path, Content) -> Answer {
    (_, _) => Answer("", summary, [], [], [], [])
  }

  lemma AlwaysSummary(env: Env, summary: string, p: Path, c: Content)
    ensures Expected(WithAnswer(env, Always(summary)), p, c).row.summary == if IsTrivial(c) then "" else summary
  {
    hide Clean, Loc, KeptSymbols, KeptTargets;
  }

  /** Whatever a model answers to what it sees, the files an incremental run passes over have the right rows
      exactly when no change that cleaning hides takes a file over the limit for trivial ones. */
  lemma RightForEveryRequestIff(env: Env, read: map<Path, Content>, job: Job)
    requires NoCollisions(env) && !job.full
    ensures SameSide(read, job) <==>
            forall a: (Path, Content) -> Answer :: SeesCleaned(a) ==>
              SkippedAreRight(WithAnswer(env, a), Rows(WithAnswer(env, a), read), job)
  {
    hide Clean, Expected, IsTrivial;
    if SameSide(read, job) {
      forall a: (Path, Content) -> Answer | SeesCleaned(a)
        ensures SkippedAreRight(WithAnswer(env, a), Rows(WithAnswer(env, a), read), job)
      {
        var e := WithAnswer(env, a);
        forall p | p in job.paths && p in job.tree && !NeedsWork(e, Rows(e, read), false, FilePair(p, job.tree[p]))
          ensures Rows(e, read)[p] == Expected(e, p, job.tree[p])
        {
          SkippedMeansSameClean(e, read, job, p);
          assert a(p, read[p]) == a(p, job.tree[p]);
          AlikeRows(e, p, read[p], job.tree[p]);
        }
      }
    } else {
      var p :| p in job.paths && p in job.tree && p in read && Clean(read[p]) == Clean(job.tree[p])
               && (IsTrivial(read[p]) <==> !IsTrivial(job.tree[p]));
      var e := WithAnswer(env, Always("x"));
      SkippedMeansSameClean(e, read, job, p);
      AlwaysSummary(env, "x", p, read[p]);
      AlwaysSummary(env, "x", p, job.tree[p]);
      assert !SkippedAreRight(e, Rows(e, read), job);
      assert SeesCleaned(Always("x"));
    }
  }

  function Front(): Content {
    seq(598, _ => 'a')
  }

  /** A file of 599 bytes, the last of them broken, in which that byte is replaced by U+FFFD, so that it has
      601: what is hashed and what any model would see is the same text, no two texts have the same digest,
      and the run keeps the empty summary of the trivial file. */
  lemma GrownFileKeepsEmptySummary(path: Path, summary: string)
    requires summary != ""
    ensures var env := Env(x => x, Always(summary), x => x, _ => "");
            var old_, new_ := Front() + ['\U{80}'], Front() + REPLACEMENT;
            var read, job := map[path := old_], Job(map[path := new_], [path], false);
            && NoCollisions(env) && SeesCleaned(env.answer)
            && StaleOf(env, Rows(env, read), job) == []
            && Rows(env, read)[path].row.summary == ""
            && Expected(env, path, new_).row.summary == summary
  {
    hide Expected, Clean;
    var base := Env(x => x, Always(""), x => x, _ => "");
    var env := Env(x => x, Always(summary), x => x, _ => "");
    assert WithAnswer(base, Always(summary)) == env;
    var old_, new_ := Front() + ['\U{80}'], Front() + REPLACEMENT;
    var read, job := map[path := old_], Job(map[path := new_], [path], false);
    GrownReadsAlike();
    SkippedMeansSameClean(env, read, job, path);
    NothingStale(env, Rows(env, read), job, path);
    AlwaysSummary(base, summary, path, old_);
    AlwaysSummary(base, summary, path, new_);
  }

  lemma GrownReadsAlike()
    ensures Clean(Front() + ['\U{80}']) == Clean(Front() + REPLACEMENT)
  {
    CleanAscii(Front(), ['\U{80}']);
    CleanAscii(Front(), REPLACEMENT);
    OneBrokenByte('\U{80}');
    CleanIsIdentityIff(REPLACEMENT);
    ReplacementIsRune("");
    assert REPLACEMENT + "" == REPLACEMENT && REPLACEMENT[3..] == "";
  }

  lemma NothingStale(env: Env, view: map<Path, Kept>, job: Job, path: Path)
    requires job.paths == [path] && path in job.tree && !NeedsWork(env, view, job.full, FilePair(path, job.tree[path]))
    ensures StaleOf(env, view, job) == []
  {
    hide NeedsWork;
    assert job.paths[..0] == [];
    assert Stale(env, view, job.tree, [], job.full) == [];
  }

  lemma OneBrokenByte(b: char)
    requires '\U{80}' <= b <= '\U{BF}'
    ensures Clean([b]) == REPLACEMENT
  {
    assert [b][1..] == "";
    assert Clean([b]) == REPLACEMENT + Clean([b][1..]);
  }

  // ---------------------------------------------------------------- sequences of runs

  /** Rows of paths that have left the tree are removed when the repository is indexed as a whole. */
  function Prune(view: map<Path, Kept>, walked: set<Path>, remove: bool): map<Path, Kept> {
    if remove then view - (view.Keys - walked) else view
  }

  /** Of the files a run over the repository has nothing to do with, those still in the tree keep their rows,
      and the rows of the others are gone if they could be removed. */
  lemma VanishedRowsLeave(env: Env, view: map<Path, Kept>, walked: set<Path>, remove: bool, job: Job, c: Course, p: Path)
    requires IsCourse(env, Prune(view, walked, remove), job, c) && p !in job.paths
    ensures var v := End(env, Prune(view, walked, remove), job, c).view;
            && (p in v <==> p in view && (remove ==> p in walked))
            && (p in v ==> v[p] == view[p])
  {
    hide IsCourse, End;
    RunTouches(env, Prune(view, walked, remove), job, c, p);
  }

  /** `walked` are the paths in the tree, readable or not. */
  datatype Turn = Turn(job: Job, walked: set<Path>, prune: bool, course: Course)

  function History(env: Env, turns: seq<Turn>): map<Path, Kept> {
    if turns == [] then map[]
    else
      var turn := turns[|turns| - 1];
      End(env, Prune(History(env, turns[..|turns| - 1]), turn.walked, turn.prune), turn.job, turn.course).view
  }

  ghost predicate AreCourses(env: Env, turns: seq<Turn>) {
    turns == [] ||
    (var turn := turns[|turns| - 1];
     && AreCourses(env, turns[..|turns| - 1])
     && IsCourse(env, Prune(History(env, turns[..|turns| - 1]), turn.walked, turn.prune), turn.job, turn.course))
  }

  lemma PruneKeepsSound(env: Env, view: map<Path, Kept>, walked: set<Path>, remove: bool)
    requires Sound(env, view)
    ensures Sound(env, Prune(view, walked, remove))
  {
    hide IsSummary;
  }

  /** Over any sequence of runs, with any of them failing in part, every row is the summary of the content
      its hash names. */
  lemma {:induction false} HistoryIsSound(env: Env, turns: seq<Turn>)
    requires AreCourses(env, turns)
    ensures Sound(env, History(env, turns))
    decreases |turns|
  {
    hide Sound, IsCourse, End, Prune;
    if turns == [] {
      NothingIsSound(env);
    } else {
      var n := |turns| - 1;
      var turn := turns[n];
      HistoryIsSound(env, turns[..n]);
      PruneKeepsSound(env, History(env, turns[..n]), turn.walked, turn.prune);
      RunKeepsSound(env, Prune(History(env, turns[..n]), turn.walked, turn.prune), turn.job, turn.course);
    }
  }

  /** Some earlier run read this content at the path. */
  ghost predicate WasRead(turns: seq<Turn>, p: Path, c: Content) {
    exists i :: 0 <= i < |turns| && p in turns[i].job.tree && turns[i].job.tree[p] == c
  }

  /** Every row comes from a content that some run read. */
  lemma {:induction false} RowsWereRead(env: Env, turns: seq<Turn>, p: Path) returns (c: Content)
    requires AreCourses(env, turns) && p in History(env, turns)
    ensures WasRead(turns, p, c) && History(env, turns)[p] == Expected(env, p, c)
    decreases |turns|
  {
    hide Expected, IsCourse, End;
    var n := |turns| - 1;
    var turn := turns[n];
    var before := Prune(History(env, turns[..n]), turn.walked, turn.prune);
    RunTouches(env, before, turn.job, turn.course, p);
    if p in turn.job.tree && History(env, turns)[p] == Expected(env, p, turn.job.tree[p]) {
      c := turn.job.tree[p];
    } else {
      c := RowsWereRead(env, turns[..n], p);
      var i :| 0 <= i < n && p in turns[..n][i].job.tree && turns[..n][i].job.tree[p] == c;
      assert turns[i].job.tree[p] == c;
    }
  }

  /** Nothing that was read at a candidate before is mistaken for what it holds now. */
  ghost predicate NothingMistaken(env: Env, turns: seq<Turn>, job: Job) {
    forall p, c :: WasRead(turns, p, c) && p in job.paths && p in job.tree && Clean(c) == Clean(job.tree[p]) ==>
      Alike(env, p, c, job.tree[p])
  }

  lemma HistoryIsRight(env: Env, turns: seq<Turn>, job: Job)
    requires AreCourses(env, turns) && NoCollisions(env) && NothingMistaken(env, turns, job)
    ensures SkippedAreRight(env, History(env, turns), job.(full := false))
  {
    hide Expected, Clean, AreCourses, WasRead, Alike, History;
    var view := History(env, turns);
    forall p | p in job.paths && p in job.tree && !NeedsWork(env, view, false, FilePair(p, job.tree[p]))
      ensures view[p] == Expected(env, p, job.tree[p])
    {
      var c := RowsWereRead(env, turns, p);
      ExpectedNamesItsContent(env, p, c);
      ExpectedNamesItsContent(env, p, job.tree[p]);
      AlikeRows(env, p, c, job.tree[p]);
    }
  }

  /** Whatever the earlier runs did and however they failed, one incremental run in which everything
      succeeds leaves what a full run would. */
  lemma CacheAgreesAfterAnyHistory(env: Env, turns: seq<Turn>, job: Job, c: Course, d: Course)
    requires AreCourses(env, turns) && NoCollisions(env) && NothingMistaken(env, turns, job)
    requires var view := History(env, turns);
             && IsCourse(env, view, job.(full := false), c) && AllSucceeds(env, view, job.(full := false), c)
             && IsCourse(env, view, job.(full := true), d) && AllSucceeds(env, view, job.(full := true), d)
    ensures var view := History(env, turns);
            End(env, view, job.(full := false), c).view == End(env, view, job.(full := true), d).view == Agreed(env, view, job)
  {
    hide *;
    HistoryIsRight(env, turns, job);
    IncrementalIsFullIff(env, History(env, turns), job, c, d);
  }

  /** UTF-8 is never mistaken. */
  lemma Utf8IsNotMistaken(env: Env, turns: seq<Turn>, job: Job)
    requires forall i, p :: 0 <= i < |turns| && p in turns[i].job.tree ==> IsUtf8(turns[i].job.tree[p])
    requires forall p :: p in job.tree ==> IsUtf8(job.tree[p])
    ensures NothingMistaken(env, turns, job)
  {
    hide Clean, IsUtf8;
    forall p, c | WasRead(turns, p, c) && p in job.tree && Clean(c) == Clean(job.tree[p])
      ensures Alike(env, p, c, job.tree[p])
    {
      CleanIsIdentityIff(c);
      CleanIsIdentityIff(job.tree[p]);
    }
  }

  /** Asked over JSON, a model is mistaken only about a file that has crossed the limit for trivial ones. */
  lemma CleanedIsNotMistaken(env: Env, turns: seq<Turn>, job: Job)
    requires SeesCleaned(env.answer)
    requires forall p, c :: WasRead(turns, p, c) && p in job.paths && p in job.tree && Clean(c) == Clean(job.tree[p]) ==>
               (IsTrivial(c) <==> IsTrivial(job.tree[p]))
    ensures NothingMistaken(env, turns, job)
  {
    hide Clean, IsTrivial, WasRead;
  }

  lemma NothingIsSound(env: Env)
    ensures Sound(env, map[])
  {
  }
}
