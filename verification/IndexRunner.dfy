/** indexPaths in the form the program gives it: loops over the files, goroutines that send on a channel, and
    a loop that drains it into the store. Every run of it is a course of the protocol in IndexCache. */
module IndexRunner {
  import opened IndexCache
  import opened Options
  import opened Sequences
  import opened Strings
  import opened SummaryTables
  import opened TextOrder
  import UntrackedDiffs
  import opened Utf8

  method ContentHash(env: Env, c: Content) returns (hash: string)
    ensures hash == Hash(env, c)
  {
    var clean := ReplaceInvalidUtf8(c);
    hash := env.digest(clean);
  }

  /** readAndSplit: the stale files, trivial ones and the rest apart, each sorted by path. */
  method ReadAndSplit(env: Env, store: Store, job: Job) returns (trivial: seq<FilePair>, work: seq<FilePair>)
    requires store.Valid()
    ensures trivial == Trivials(env, store.View(), job) && work == Summarizables(env, store.View(), job)
  {
    trivial, work := [], [];
    for i := 0 to |job.paths|
      invariant trivial == Only(Stale(env, store.View(), job.tree, job.paths[..i], job.full), true)
      invariant work == Only(Stale(env, store.View(), job.tree, job.paths[..i], job.full), false)
    {
      hide KeptOf, Only, Stale, Clean;
      var p := job.paths[i];
      StaleStep(env, store.View(), job, i);
      if p !in job.tree {
        continue;
      }
      var f := FilePair(p, job.tree[p]);
      if !job.full {
        var existing := store.GetSummary(p);
        var hash := ContentHash(env, f.content);
        if existing.Some? && existing.value.row.contentHash == hash {
          continue;
        }
      }
      if IsTrivial(f.content) {
        trivial := trivial + [f];
      } else {
        work := work + [f];
      }
    }
    assert job.paths[..|job.paths|] == job.paths;
    trivial := SortByPath(trivial);
    work := SortByPath(work);
  }

  lemma StaleStep(env: Env, view: map<Path, Kept>, job: Job, i: nat)
    requires i < |job.paths|
    ensures var p, before := job.paths[i], Stale(env, view, job.tree, job.paths[..i], job.full);
            var after := Stale(env, view, job.tree, job.paths[..i + 1], job.full);
            if p in job.tree && NeedsWork(env, view, job.full, FilePair(p, job.tree[p])) then
              forall t :: Only(after, t) == Only(before, t) + if IsTrivial(job.tree[p]) == t then [FilePair(p, job.tree[p])] else []
            else after == before
  {
    assert job.paths[..i + 1][..i] == job.paths[..i];
    var p, before := job.paths[i], Stale(env, view, job.tree, job.paths[..i], job.full);
    if p in job.tree {
      assert (before + [FilePair(p, job.tree[p])])[..|before|] == before;
    }
  }

  method SortByPath(pairs: seq<FilePair>) returns (sorted: seq<FilePair>)
    ensures sorted == ByPath(pairs)
  {
    sorted := [];
    for i := 0 to |pairs|
      invariant sorted == ByPath(pairs[..i])
    {
      assert pairs[..i + 1][..i] == pairs[..i];
      sorted := Insert(sorted, pairs[i]);
    }
    assert pairs[..|pairs|] == pairs;
  }

  method Insert(pairs: seq<FilePair>, f: FilePair) returns (r: seq<FilePair>)
    ensures r == InsertByPath(pairs, f)
  {
    var k := |pairs|;
    assert pairs[..k] == pairs && pairs[k..] == [];
    while k > 0 && Below(f.path, pairs[k - 1].path)
      invariant 0 <= k <= |pairs|
      invariant InsertByPath(pairs, f) == InsertByPath(pairs[..k], f) + pairs[k..]
    {
      assert pairs[..k][..k - 1] == pairs[..k - 1];
      assert [pairs[k - 1]] + pairs[k..] == pairs[k - 1..];
      k := k - 1;
    }
    r := pairs[..k] + [f] + pairs[k..];
  }

  // ---------------------------------------------------------------- buildFileSummary

  method KeepSymbols(symbols: seq<Symbol>) returns (r: seq<Symbol>)
    ensures KeptSymbols(r) == KeptSymbols(symbols)
  {
    hide KeptSymbols;
    r := [];
    assert symbols[..0] == r;
    for i := 0 to |symbols|
      invariant KeptSymbols(r) == KeptSymbols(symbols[..i])
    {
      var sym := symbols[i];
      KeptSymbolsStep(symbols[..i], sym);
      assert symbols[..i + 1] == symbols[..i] + [sym];
      if sym.name == "" {
        continue;
      }
      var kind := sym.kind;
      if kind == "" {
        kind := DEFAULT_KIND;
      }
      KeptSymbolsStep(r, Symbol(sym.name, kind, sym.signature, sym.description));
      r := r + [Symbol(sym.name, kind, sym.signature, sym.description)];
    }
    assert symbols[..|symbols|] == symbols;
  }

  method KeepXrefs(xrefs: seq<ExternalRef>) returns (r: seq<ExternalRef>)
    ensures KeptTargets(r) == KeptTargets(xrefs)
  {
    hide KeptTargets;
    r := [];
    assert xrefs[..0] == r;
    for i := 0 to |xrefs|
      invariant KeptTargets(r) == KeptTargets(xrefs[..i])
    {
      var xr := xrefs[i];
      KeptTargetsStep(xrefs[..i], xr);
      assert xrefs[..i + 1] == xrefs[..i] + [xr];
      if xr.kind == "" || xr.target == "" {
        continue;
      }
      KeptTargetsStep(r, xr);
      r := r + [xr];
    }
    assert xrefs[..|xrefs|] == xrefs;
  }

  method KeepCalls(path: Path, block: Block) returns (r: seq<SymbolRef>)
    ensures KeptCalls(r) == KeptCalls(Refs(path, block.source, block.calls))
  {
    r := [];
    var all := Refs(path, block.source, block.calls);
    if block.source == "" {
      return;
    }
    for i := 0 to |block.calls|
      invariant KeptCalls(r) == KeptCalls(all[..i])
    {
      var call := block.calls[i];
      KeptCallsStep(all[..i], all[i]);
      assert all[..i + 1] == all[..i] + [all[i]];
      if call.0 == "" || call.1 == "" {
        continue;
      }
      KeptCallsStep(r, all[i]);
      r := r + [SymbolRef(path, block.source, call.0, call.1)];
    }
    assert all[..|all|] == all;
  }

  method KeepRefs(path: Path, blocks: seq<Block>) returns (r: seq<SymbolRef>)
    ensures KeptCalls(r) == KeptCalls(AllRefs(path, blocks))
  {
    r := [];
    for i := 0 to |blocks|
      invariant KeptCalls(r) == KeptCalls(AllRefs(path, blocks[..i]))
    {
      var more := KeepCalls(path, blocks[i]);
      KeptCallsConcat(r, more);
      KeptCallsConcat(AllRefs(path, blocks[..i]), Refs(path, blocks[i].source, blocks[i].calls));
      assert blocks[..i + 1][..i] == blocks[..i];
      r := r + more;
    }
    assert blocks[..|blocks|] == blocks;
  }

  lemma KeptCallsConcat(a: seq<SymbolRef>, b: seq<SymbolRef>)
    ensures KeptCalls(a + b) == KeptCalls(a) + KeptCalls(b)
  {
    assert forall x :: x in a + b <==> x in a || x in b;
  }

  /** What it leaves out of the answer, the store would drop as well. */
  method BuildFileSummary(env: Env, path: Path, content: Content, a: Answer) returns (fs: FileSummary)
    ensures fs.path == path && KeptOf(fs) == KeptOf(Verbatim(env, path, content, a))
  {
    var language := env.lower(a.language);
    if language == "" {
      language := env.guess(path);
    }
    var symbols := KeepSymbols(a.symbols);
    var refs := KeepRefs(path, a.blocks);
    var xrefs := KeepXrefs(a.xrefs);
    var loc := CountLoc(content);
    var hash := ContentHash(env, content);
    fs := FileSummary(path, FileRow(language, a.summary, hash, loc), symbols, a.imports, refs, xrefs);
  }

  /** The number of lines the printer would write for the file. */
  method CountLoc(c: Content) returns (n: nat)
    ensures n == Loc(c) == |UntrackedDiffs.ContentLines(c)|
  {
    UntrackedDiffs.LineCount(c);
    if c == "" {
      return 0;
    }
    n := CountNewlines(c);
    if c[|c| - 1] != '\n' {
      n := n + 1;
    }
  }

  // ---------------------------------------------------------------- the run

  /** Steps still to be made; every action takes at least one of them. */
  function Work(s: State): nat {
    WorkOf(s.producers) + |s.queue|
  }

  function WorkOf(producers: seq<Producer>): nat {
    if producers == [] then 0
    else
      var n := |producers| - 1;
      WorkOf(producers[..n]) + match producers[n] case Asking(batch) => 2 * |batch| + 1 case Sending(items) => 2 * |items|
  }

  lemma {:induction false} WorkUpdate(producers: seq<Producer>, b: nat, p: Producer)
    requires b < |producers|
    ensures WorkOf(producers[b := p]) + WorkOf([producers[b]]) == WorkOf(producers) + WorkOf([p])
    decreases |producers|
  {
    var n := |producers| - 1;
    assert [producers[b]][..0] == [] && [p][..0] == [];
    if b < n {
      WorkUpdate(producers[..n], b, p);
      assert producers[b := p][..n] == producers[..n][b := p];
    } else {
      assert producers[b := p][..n] == producers[..n];
    }
  }

  lemma StepWorks(env: Env, s: State, cap: nat, e: Event)
    requires Enabled(s, cap, e)
    ensures Work(Step(env, s, cap, e)) < Work(s)
  {
    hide Expected;
    match e
    case Reply(b, kept) =>
      var items := if kept.None? then [] else Kepts(s.producers[b].batch, kept.value);
      if kept.Some? {
        KeptsIsShorter(s.producers[b].batch, kept.value);
      }
      WorkUpdate(s.producers, b, Sending(items));
    case Send(b) => WorkUpdate(s.producers, b, Sending(s.producers[b].items[1..]));
    case Drain(_) =>
  }

  class Indexer {
    const env: Env
    const store: Store
    var producers: seq<Producer>
    var queue: seq<FilePair>
    ghost var drained: nat

    ghost function Now(): State
      reads this, store
    {
      State(producers, queue, store.View(), drained)
    }

    constructor (env: Env, store: Store)
      ensures this.env == env && this.store == store
    {
      this.env := env;
      this.store := store;
      producers, queue, drained := [], [], 0;
    }

    /** Writes the row of one file; a failed upsert is logged and skipped. */
    method Save(f: FilePair) returns (ok: bool)
      requires store.Valid()
      modifies store
      ensures store.Valid()
      ensures store.View() == if ok then old(store.View())[f.path := Expected(env, f.path, f.content)] else old(store.View())
    {
      var fs;
      if IsTrivial(f.content) {
        var loc := CountLoc(f.content);
        var hash := ContentHash(env, f.content);
        fs := FileSummary(f.path, FileRow(env.guess(f.path), "", hash, loc), [], [], [], []);
        assert KeptOf(fs) == Expected(env, f.path, f.content);
      } else {
        fs := BuildFileSummary(env, f.path, f.content, env.answer(f.path, f.content));
      }
      ok := store.UpsertSummary(fs);
    }

    method PersistTrivials(trivials: seq<FilePair>) returns (indexed: nat, ghost saved: seq<bool>)
      requires store.Valid()
      modifies store
      ensures store.Valid() && |saved| == |trivials| && indexed == Trues(saved)
      ensures store.View() == WriteTrivials(env, old(store.View()), trivials, saved)
    {
      hide Expected;
      indexed, saved := 0, [];
      for i := 0 to |trivials|
        invariant store.Valid() && |saved| == i && indexed == Trues(saved)
        invariant store.View() == WriteTrivials(env, old(store.View()), trivials[..i], saved)
      {
        ghost var before := saved;
        var ok := Save(trivials[i]);
        saved := saved + [ok];
        assert saved[..|saved| - 1] == before;
        if ok {
          indexed := indexed + 1;
        }
        assert trivials[..i + 1][..i] == trivials[..i];
        MoreSaved(env, old(store.View()), trivials[..i], before, ok);
      }
      assert trivials[..|trivials|] == trivials;
    }

    /** One action of a producer: the model answers or fails, or one result goes down the channel. */
    method Produce(b: nat, cap: nat) returns (ghost e: Event)
      requires b < |producers| && producers[b] != Sending([]) && Bounded(Now(), cap)
      modifies `producers, `queue
      ensures Enabled(old(Now()), cap, e) && Now() == Step(env, old(Now()), cap, e) && !e.Drain?
    {
      hide Expected;
      PendingHolds(producers, b);
      match producers[b] {
        case Asking(batch) =>
          var kept: Option<set<Path>> := *;
          match kept {
            case None =>
              producers := producers[b := Sending([])];
              e := Reply(b, None);
            case Some(paths) =>
              var items := KeepAnswered(batch, paths);
              producers := producers[b := Sending(items)];
              e := Reply(b, Some(paths));
          }
        case Sending(items) =>
          queue := queue + [items[0]];
          producers := producers[b := Sending(items[1..])];
          e := Send(b);
      }
    }

    /** Receives one result and writes its row. */
    method DrainOne(ghost cap: nat) returns (ok: bool, ghost e: Event)
      requires store.Valid() && queue != []
      modifies this, store
      ensures store.Valid() && Enabled(old(Now()), cap, e) && Now() == Step(env, old(Now()), cap, e) && e == Drain(ok)
    {
      hide Expected;
      ok := Save(queue[0]);
      queue := queue[1..];
      drained := drained + 1;
      e := Drain(ok);
    }

    /** The batches and the drain loop, one action at a time, until the channel is closed and empty. No
        producer ever finds the channel full. */
    method RunBatches(batches: seq<seq<FilePair>>, pairs: seq<FilePair>) returns (indexed: nat, ghost events: seq<Event>)
      requires store.Valid() && IsBatching(pairs, batches)
      modifies this, store
      ensures store.Valid() && Finished(Now()) && indexed == Stores(events)
      ensures Now() == Run(env, Begin(old(store.View()), batches), |pairs|, events)
    {
      hide Run, Step, Bounded, Work, Expected;
      producers, queue := Ask(batches), [];
      drained, indexed, events := 0, 0, [];
      ghost var start := Begin(store.View(), batches);
      BatchingBounds(store.View(), pairs, batches);
      RunNothing(env, start, |pairs|);
      while queue != [] || exists b: nat :: b < |producers| && producers[b] != Sending([])
        invariant store.Valid() && Now() == Run(env, start, |pairs|, events) && Bounded(Now(), |pairs|)
        invariant indexed == Stores(events)
        decreases Work(Now())
      {
        ghost var before, e := Now(), Drain(false);
        var receive: bool := *;
        if b: nat :| b < |producers| && producers[b] != Sending([]) && !(receive && queue != []) {
          e := Produce(b, |pairs|);
        } else {
          var ok: bool;
          ok, e := DrainOne(|pairs|);
          if ok {
            indexed := indexed + 1;
          }
        }
        StepKeepsBound(env, before, |pairs|, e);
        StepWorks(env, before, |pairs|, e);
        RunOneMore(env, start, |pairs|, events, e);
        assert (events + [e])[..|events|] == events;
        events := events + [e];
      }
    }

    /** A run over the whole repository first removes the rows of files that are gone from the walk of the
        tree, if it can; a file that is there and cannot be read keeps its row. */
    method IndexRepo(walked: seq<Path>, job: Job) returns (indexed: nat, ghost removed: bool, ghost c: Course)
      requires store.Valid()
      modifies this, store
      ensures store.Valid() && IsCourse(env, Prune(old(store.View()), SetOf(walked), removed), job, c)
      ensures store.View() == End(env, Prune(old(store.View()), SetOf(walked), removed), job, c).view
      ensures indexed == Persisted(c)
      ensures Sound(env, old(store.View())) ==> Sound(env, store.View())
    {
      hide IsCourse, End, Sound;
      var deleted := Vanished(store, walked);
      removed := true;
      if |deleted| > 0 {
        var ok := store.RemovePaths(deleted);
        removed := ok;
      }
      if Sound(env, old(store.View())) {
        PruneKeepsSound(env, old(store.View()), SetOf(walked), removed);
      }
      assert store.View() == Prune(old(store.View()), SetOf(walked), removed);
      indexed, c := IndexPaths(job);
    }

    /** Returns the number of files persisted. */
    method IndexPaths(job: Job) returns (indexed: nat, ghost c: Course)
      requires store.Valid()
      modifies this, store
      ensures store.Valid() && IsCourse(env, old(store.View()), job, c)
      ensures store.View() == End(env, old(store.View()), job, c).view
      ensures Finished(End(env, old(store.View()), job, c)) && indexed == Persisted(c)
      ensures Sound(env, old(store.View())) ==> Sound(env, store.View())
    {
      hide Run, Expected, Sound, IsBatching, Finished;
      var trivial, work := ReadAndSplit(env, store, job);
      ghost var saved, events;
      indexed, saved := PersistTrivials(trivial);
      var batches := BuildBatches(work);
      var more;
      more, events := RunBatches(batches, work);
      indexed := indexed + more;
      c := Course(batches, saved, events);
      if Sound(env, old(store.View())) {
        RunKeepsSound(env, old(store.View()), job, c);
      }
    }
  }

  lemma SetOfAppend(paths: seq<Path>, p: Path)
    ensures SetOf(paths + [p]) == SetOf(paths) + {p}
  {
  }

  /** The indexed paths that have left the tree. */
  method Vanished(store: Store, walked: seq<Path>) returns (deleted: seq<Path>)
    requires store.Valid()
    ensures SetOf(deleted) == store.View().Keys - SetOf(walked)
  {
    var tree: set<Path> := {};
    for i := 0 to |walked|
      invariant tree == SetOf(walked[..i])
    {
      SetOfAppend(walked[..i], walked[i]);
      assert walked[..i + 1] == walked[..i] + [walked[i]];
      tree := tree + {walked[i]};
    }
    assert walked[..|walked|] == walked;
    var existing := OrderBy(store.files.Keys, NameKey);
    deleted := [];
    for i := 0 to |existing|
      invariant SetOf(deleted) == SetOf(existing[..i]) - tree
    {
      SetOfAppend(existing[..i], existing[i]);
      SetOfAppend(deleted, existing[i]);
      assert existing[..i + 1] == existing[..i] + [existing[i]];
      if existing[i] !in tree {
        deleted := deleted + [existing[i]];
      }
    }
    assert existing[..|existing|] == existing;
  }

  method KeepAnswered(batch: seq<FilePair>, kept: set<Path>) returns (items: seq<FilePair>)
    ensures items == Kepts(batch, kept)
  {
    items := [];
    for i := 0 to |batch|
      invariant items == Kepts(batch[..i], kept)
    {
      assert batch[..i + 1][..i] == batch[..i];
      if batch[i].path !in kept {
        continue;
      }
      items := items + [batch[i]];
    }
    assert batch[..|batch|] == batch;
  }

  lemma RunNothing(env: Env, s: State, cap: nat)
    ensures Run(env, s, cap, []) == s
  {
  }

  lemma RunOneMore(env: Env, s: State, cap: nat, events: seq<Event>, e: Event)
    ensures Run(env, s, cap, events + [e]) == Step(env, Run(env, s, cap, events), cap, e)
  {
    hide Step;
    assert (events + [e])[..|events|] == events;
  }

  lemma MoreSaved(env: Env, view: map<Path, Kept>, trivials: seq<FilePair>, saved: seq<bool>, ok: bool)
    requires |saved| == |trivials|
    ensures WriteTrivials(env, view, trivials, saved + [ok]) == WriteTrivials(env, view, trivials, saved)
  {
    SavedPrefix(env, view, trivials, saved, saved + [ok]);
  }

  lemma {:induction false} SavedPrefix(env: Env, view: map<Path, Kept>, trivials: seq<FilePair>, a: seq<bool>, b: seq<bool>)
    requires forall i: nat :: i < |trivials| ==> Saved(a, i) == Saved(b, i)
    ensures WriteTrivials(env, view, trivials, a) == WriteTrivials(env, view, trivials, b)
    decreases |trivials|
  {
    hide Expected;
    if trivials != [] {
      SavedPrefix(env, view, trivials[..|trivials| - 1], a, b);
    }
  }
}
