/** Which files a change affects: the two-level walk over the call graph in the index (GetBlastRadius in
    internal/index/sqlite_store.go) and the merge its result goes through (dedupeBlastRadius in
    internal/reviewctx/indexed.go). */
module BlastRadius {
  import opened Sequences
  import opened SummaryTables
  import opened TextOrder

  /** A symbol in a file. */
  datatype Site = Site(path: Path, symbol: string)

  datatype Entry = Entry(path: Path, summary: string, symbols: seq<string>, depth: nat)

  // ---------------------------------------------------------------- the search, as sets

  /** The callers of the targets outside the skipped files. */
  function CallersOf(calls: set<(Path, Call)>, targets: set<Site>, skip: set<Path>): set<Site> {
    set c | c in calls && Site(c.1.targetPath, c.1.targetSymbol) in targets && c.0 !in skip :: Site(c.0, c.1.symbol)
  }

  function PathsOf(sites: set<Site>): set<Path> {
    set s | s in sites :: s.path
  }

  /** The listed symbols of the changed files. */
  function ChangedSites(t: Tables, changed: set<Path>): set<Site> {
    set e | e in t.symbols.Keys && e.0 in changed :: Site(e.0, e.1)
  }

  /** Direct callers in unchanged files. */
  function Direct(t: Tables, changed: set<Path>): set<Site> {
    CallersOf(t.calls, ChangedSites(t, changed), changed)
  }

  /** Callers of those callers, in files that are neither changed nor direct. */
  function Indirect(t: Tables, changed: set<Path>): set<Site> {
    var direct := Direct(t, changed);
    CallersOf(t.calls, direct, changed + PathsOf(direct))
  }

  function SummaryOf(t: Tables, p: Path): string {
    if p in t.files then t.files[p].summary else ""
  }

  // ---------------------------------------------------------------- the order of entries

  predicate Less(a: Entry, b: Entry) {
    if a.depth != b.depth then a.depth < b.depth else Below(a.path, b.path)
  }

  lemma LessIsTotal(a: Entry, b: Entry)
    ensures Less(a, b) || Less(b, a) || (a.depth == b.depth && a.path == b.path)
  {
    BelowIsTotal(a.path, b.path);
  }

  lemma LessIsStrict(a: Entry, b: Entry)
    requires Less(a, b)
    ensures !Less(b, a)
  {
    if a.depth == b.depth {
      BelowIsStrict(a.path, b.path);
    }
  }

  lemma NotLessIsTransitive(a: Entry, b: Entry, c: Entry)
    requires !Less(b, a) && !Less(c, b)
    ensures !Less(c, a)
  {
    if Less(c, a) {
      LessIsTotal(a, b);
      LessIsTotal(b, c);
      if Less(a, b) && a.depth == b.depth == c.depth {
        BelowIsTransitive(c.path, a.path, b.path);
      }
    }
  }

  ghost predicate Sorted(s: seq<Entry>) {
    forall i, j :: 0 <= i < j < |s| ==> !Less(s[j], s[i])
  }

  // ---------------------------------------------------------------- sorting in place

  /** Only the entry at `j` may be below one in front of it. */
  ghost predicate SortedBut(s: seq<Entry>, j: nat) {
    forall x, y :: 0 <= x < y < |s| && y != j ==> !Less(s[y], s[x])
  }

  function Swapped(s: seq<Entry>, j: nat): seq<Entry>
    requires 0 < j < |s|
  {
    s[j := s[j - 1]][j - 1 := s[j]]
  }

  lemma SwapKeepsOrder(s: seq<Entry>, j: nat)
    requires 0 < j < |s| && SortedBut(s, j) && Less(s[j], s[j - 1])
    ensures SortedBut(Swapped(s, j), j - 1)
  {
    LessIsStrict(s[j], s[j - 1]);
    hide Less;
    var r := Swapped(s, j);
    forall x, y | 0 <= x < y < |r| && y != j - 1 ensures !Less(r[y], r[x]) {
      assert r[y] == (if y == j then s[j - 1] else s[y]);
    }
  }

  lemma SwapKeepsEntries(s: seq<Entry>, j: nat)
    requires 0 < j < |s|
    ensures multiset(Swapped(s, j)) == multiset(s)
  {
  }

  /** An entry that is not below the one in front of it has found its place. */
  lemma SiftedIsSorted(s: seq<Entry>, j: nat)
    requires j < |s| && SortedBut(s, j) && (j > 0 ==> !Less(s[j], s[j - 1]))
    ensures Sorted(s)
  {
    forall x | 0 <= x < j ensures !Less(s[j], s[x]) {
      if x < j - 1 {
        NotLessIsTransitive(s[x], s[j - 1], s[j]);
      }
    }
  }

  /** Moves the entry at `n` down to its place among the sorted ones in front of it. */
  method SiftDown(a: array<Entry>, n: nat)
    requires n < a.Length && Sorted(a[..n])
    modifies a
    ensures Sorted(a[..n + 1]) && a[n + 1..] == old(a[n + 1..])
    ensures multiset(a[..]) == multiset(old(a[..]))
  {
    hide Less, Sorted;
    assert a[..n + 1][..n] == a[..n];
    LastMayBeOut(a[..n + 1]);
    var j := n;
    while j > 0 && Less(a[j], a[j - 1])
      invariant 0 <= j <= n
      invariant a[n + 1..] == old(a[n + 1..])
      invariant multiset(a[..]) == multiset(old(a[..]))
      invariant SortedBut(a[..n + 1], j)
    {
      hide SortedBut;
      ghost var before, all := a[..n + 1], a[..];
      SwapKeepsOrder(before, j);
      SwapKeepsEntries(all, j);
      a[j], a[j - 1] := a[j - 1], a[j];
      assert a[..] == Swapped(all, j);
      assert a[..n + 1] == Swapped(before, j);
      j := j - 1;
    }
    SiftedIsSorted(a[..n + 1], j);
  }

  lemma LastMayBeOut(s: seq<Entry>)
    requires s != [] && Sorted(s[..|s| - 1])
    ensures SortedBut(s, |s| - 1)
  {
    var front := s[..|s| - 1];
    assert forall k :: 0 <= k < |front| ==> front[k] == s[k];
  }

  method SortBlastEntries(a: array<Entry>)
    modifies a
    ensures Sorted(a[..]) && multiset(a[..]) == multiset(old(a[..]))
  {
    var i := 1;
    while i < a.Length
      invariant 1 <= i && (i <= a.Length || a.Length == 0)
      invariant multiset(a[..]) == multiset(old(a[..]))
      invariant a.Length > 0 ==> Sorted(a[..i])
    {
      SiftDown(a, i);
      i := i + 1;
    }
    assert a.Length > 0 ==> a[..a.Length] == a[..];
  }

  // ---------------------------------------------------------------- collecting entries

  predicate NoRepeats(s: seq<string>) {
    forall i, j :: 0 <= i < j < |s| ==> s[i] != s[j]
  }

  /** The entry holds exactly the path's symbols among the sites, each once. */
  ghost predicate Describes(t: Tables, e: Entry, p: Path, sites: set<Site>, depth: nat) {
    && e.path == p && e.depth == depth && e.summary == SummaryOf(t, p) && NoRepeats(e.symbols)
    && forall s :: s in e.symbols <==> Site(p, s) in sites
  }

  /** `entries` has one entry for each path of the direct and of the indirect sites. */
  ghost predicate Records(t: Tables, entries: map<Path, Entry>, direct: set<Site>, indirect: set<Site>) {
    && entries.Keys == PathsOf(direct) + PathsOf(indirect)
    && (forall p :: p in PathsOf(direct) ==> Describes(t, entries[p], p, direct, 1))
    && (forall p :: p in PathsOf(indirect) ==> Describes(t, entries[p], p, indirect, 2))
  }

  method AddBlastCaller(t: Tables, entries: map<Path, Entry>, caller: Site, depth: nat, ghost sites: set<Site>)
    returns (r: map<Path, Entry>)
    requires caller.path in entries <==> caller.path in PathsOf(sites)
    requires caller.path in entries ==> Describes(t, entries[caller.path], caller.path, sites, depth)
    ensures r.Keys == entries.Keys + {caller.path}
    ensures Describes(t, r[caller.path], caller.path, sites + {caller}, depth)
    ensures forall p :: p in entries && p != caller.path ==> r[p] == entries[p]
  {
    r := entries;
    if caller.path !in r {
      assert forall s :: Site(caller.path, s) !in sites;
      r := r[caller.path := Entry(caller.path, SummaryOf(t, caller.path), [], depth)];
    }
    var e := r[caller.path];
    if caller.symbol in e.symbols {
      return;
    }
    r := r[caller.path := e.(symbols := e.symbols + [caller.symbol])];
  }

  /** The callers of one symbol, in whatever order the rows come. */
  method Callers(t: Tables, target: Site) returns (r: set<Site>)
    ensures r == CallersOf(t.calls, {target}, {})
  {
    r := set c | c in t.calls && c.1.targetPath == target.path && c.1.targetSymbol == target.symbol :: Site(c.0, c.1.symbol);
  }

  lemma MoreCallers(calls: set<(Path, Call)>, targets: set<Site>, target: Site, skip: set<Path>)
    ensures CallersOf(calls, targets + {target}, skip)
            == CallersOf(calls, targets, skip) + set c | c in CallersOf(calls, {target}, {}) && c.path !in skip
  {
  }

  lemma NoPaths()
    ensures PathsOf({}) == {}
  {
  }

  lemma OtherPath(t: Tables, e: Entry, p: Path, sites: set<Site>, depth: nat, c: Site)
    requires Describes(t, e, p, sites, depth) && c.path != p
    ensures Describes(t, e, p, sites + {c}, depth)
  {
  }

  lemma DirectGrows(t: Tables, before: map<Path, Entry>, after: map<Path, Entry>, direct: set<Site>, c: Site)
    requires Records(t, before, direct, {}) && after.Keys == before.Keys + {c.path}
    requires Describes(t, after[c.path], c.path, direct + {c}, 1)
    requires forall p :: p in before && p != c.path ==> after[p] == before[p]
    ensures Records(t, after, direct + {c}, {})
  {
    assert PathsOf(direct + {c}) == PathsOf(direct) + {c.path};
    hide Describes, PathsOf;
    forall p | p in PathsOf(direct + {c}) && p != c.path ensures Describes(t, after[p], p, direct + {c}, 1) {
      OtherPath(t, before[p], p, direct, 1, c);
    }
    assert PathsOf({}) == {} by { NoPaths(); }
  }

  lemma IndirectGrows(t: Tables, before: map<Path, Entry>, after: map<Path, Entry>, direct: set<Site>, indirect: set<Site>, c: Site)
    requires Records(t, before, direct, indirect) && after.Keys == before.Keys + {c.path}
    requires c.path !in PathsOf(direct)
    requires Describes(t, after[c.path], c.path, indirect + {c}, 2)
    requires forall p :: p in before && p != c.path ==> after[p] == before[p]
    ensures Records(t, after, direct, indirect + {c})
  {
    assert PathsOf(indirect + {c}) == PathsOf(indirect) + {c.path};
    hide Describes, PathsOf;
    forall p | p in PathsOf(indirect + {c}) && p != c.path ensures Describes(t, after[p], p, indirect + {c}, 2) {
      OtherPath(t, before[p], p, indirect, 2, c);
    }
  }

  /** The inner loop of the first level. */
  method AddDirectCallers(t: Tables, entries: map<Path, Entry>, target: Site, changed: set<Path>, ghost targets: set<Site>)
    returns (r: map<Path, Entry>)
    requires Records(t, entries, CallersOf(t.calls, targets, changed), {})
    ensures Records(t, r, CallersOf(t.calls, targets + {target}, changed), {})
  {
    hide Records, Describes, CallersOf, PathsOf;
    r := entries;
    var rest := Callers(t, target);
    ghost var all := rest;
    ghost var direct := CallersOf(t.calls, targets, changed);
    MoreCallers(t.calls, targets, target, changed);
    while rest != {}
      invariant rest <= all
      invariant Records(t, r, direct, {})
      invariant direct == CallersOf(t.calls, targets, changed) + set c | c in all - rest && c.path !in changed
      decreases rest
    {
      var c :| c in rest;
      rest := rest - {c};
      if c.path in changed {
        continue;
      }
      r := RecordDirect(t, r, c, direct);
      direct := direct + {c};
    }
    assert all - rest == all;
  }

  method RecordDirect(t: Tables, entries: map<Path, Entry>, c: Site, ghost direct: set<Site>) returns (r: map<Path, Entry>)
    requires Records(t, entries, direct, {})
    ensures Records(t, r, direct + {c}, {})
  {
    r := AddBlastCaller(t, entries, c, 1, direct);
    DirectGrows(t, entries, r, direct, c);
  }

  method RecordIndirect(t: Tables, entries: map<Path, Entry>, c: Site, ghost direct: set<Site>, ghost indirect: set<Site>)
    returns (r: map<Path, Entry>)
    requires Records(t, entries, direct, indirect) && c.path !in PathsOf(direct)
    ensures Records(t, r, direct, indirect + {c})
  {
    r := AddBlastCaller(t, entries, c, 2, indirect);
    IndirectGrows(t, entries, r, direct, indirect, c);
  }

  method AddIndirectCallers(t: Tables, entries: map<Path, Entry>, target: Site, changed: set<Path>, depth1: set<Path>,
                            ghost direct: set<Site>, ghost targets: set<Site>)
    returns (r: map<Path, Entry>)
    requires depth1 == PathsOf(direct)
    requires Records(t, entries, direct, CallersOf(t.calls, targets, changed + depth1))
    ensures Records(t, r, direct, CallersOf(t.calls, targets + {target}, changed + depth1))
  {
    hide Records, Describes, CallersOf, PathsOf;
    r := entries;
    var rest := Callers(t, target);
    ghost var all := rest;
    ghost var indirect := CallersOf(t.calls, targets, changed + depth1);
    MoreCallers(t.calls, targets, target, changed + depth1);
    while rest != {}
      invariant rest <= all
      invariant Records(t, r, direct, indirect)
      invariant indirect == CallersOf(t.calls, targets, changed + depth1) + set c | c in all - rest && c.path !in changed + depth1
      decreases rest
    {
      var c :| c in rest;
      rest := rest - {c};
      if c.path in changed {
        continue;
      }
      if c.path in depth1 {
        continue;
      }
      r := RecordIndirect(t, r, c, direct, indirect);
      indirect := indirect + {c};
    }
    assert all - rest == all;
  }

  // ---------------------------------------------------------------- the two levels

  function SitesIn(path: Path, symbols: seq<string>): set<Site> {
    set s | s in symbols :: Site(path, s)
  }

  /** Depth 1, over the changed paths in order and their symbols by name. */
  method DirectEntries(t: Tables, changedPaths: seq<Path>, changed: set<Path>) returns (r: map<Path, Entry>)
    requires changed == SetOf(changedPaths)
    ensures Records(t, r, Direct(t, changed), {})
  {
    hide Records, CallersOf;
    r := map[];
    ghost var targets: set<Site> := {};
    NothingRecorded(t, changed);
    assert ChangedSites(t, SetOf(changedPaths[..0])) == {};
    for i := 0 to |changedPaths|
      invariant targets == ChangedSites(t, SetOf(changedPaths[..i]))
      invariant Records(t, r, CallersOf(t.calls, targets, changed), {})
    {
      var p := changedPaths[i];
      var names := OrderBy(KeysOf(t.symbols.Keys, p), NameKey);
      r := AddSymbols(t, r, p, names, changed, targets);
      targets := targets + SitesIn(p, names);
      assert changedPaths[..i + 1] == changedPaths[..i] + [p];
      assert ChangedSites(t, SetOf(changedPaths[..i + 1])) == targets;
    }
    assert changedPaths[..|changedPaths|] == changedPaths;
  }

  lemma NothingRecorded(t: Tables, changed: set<Path>)
    ensures Records(t, map[], CallersOf(t.calls, {}, changed), {})
  {
    assert CallersOf(t.calls, {}, changed) == {};
  }

  method AddSymbols(t: Tables, entries: map<Path, Entry>, p: Path, names: seq<string>, changed: set<Path>, ghost targets: set<Site>)
    returns (r: map<Path, Entry>)
    requires Records(t, entries, CallersOf(t.calls, targets, changed), {})
    ensures Records(t, r, CallersOf(t.calls, targets + SitesIn(p, names), changed), {})
  {
    hide Records, CallersOf;
    r := entries;
    assert targets + SitesIn(p, []) == targets;
    for i := 0 to |names|
      invariant Records(t, r, CallersOf(t.calls, targets + SitesIn(p, names[..i]), changed), {})
    {
      r := AddDirectCallers(t, r, Site(p, names[i]), changed, targets + SitesIn(p, names[..i]));
      assert names[..i + 1] == names[..i] + [names[i]];
      assert targets + SitesIn(p, names[..i]) + {Site(p, names[i])} == targets + SitesIn(p, names[..i + 1]);
    }
    assert names[..|names|] == names;
  }

  method AddIndirectSymbols(t: Tables, entries: map<Path, Entry>, p: Path, names: seq<string>, changed: set<Path>,
                            depth1: set<Path>, ghost direct: set<Site>, ghost targets: set<Site>)
    returns (r: map<Path, Entry>)
    requires depth1 == PathsOf(direct)
    requires Records(t, entries, direct, CallersOf(t.calls, targets, changed + depth1))
    ensures Records(t, r, direct, CallersOf(t.calls, targets + SitesIn(p, names), changed + depth1))
  {
    hide Records, CallersOf, PathsOf;
    r := entries;
    assert targets + SitesIn(p, []) == targets;
    for i := 0 to |names|
      invariant Records(t, r, direct, CallersOf(t.calls, targets + SitesIn(p, names[..i]), changed + depth1))
    {
      r := AddIndirectCallers(t, r, Site(p, names[i]), changed, depth1, direct, targets + SitesIn(p, names[..i]));
      assert names[..i + 1] == names[..i] + [names[i]];
      assert targets + SitesIn(p, names[..i]) + {Site(p, names[i])} == targets + SitesIn(p, names[..i + 1]);
    }
    assert names[..|names|] == names;
  }

  /** The sites of the paths in `some`. */
  function SitesAt(sites: set<Site>, some: set<Path>): set<Site> {
    set s | s in sites && s.path in some
  }

  lemma EntrySites(t: Tables, entries: map<Path, Entry>, direct: set<Site>, indirect: set<Site>, p: Path)
    requires Records(t, entries, direct, indirect) && p in PathsOf(direct)
    ensures p in entries && SitesIn(p, entries[p].symbols) == SitesAt(direct, {p})
  {
    assert Describes(t, entries[p], p, direct, 1);
    forall s | s in direct && s.path == p ensures s in SitesIn(p, entries[p].symbols) {
      assert s == Site(p, s.symbol);
    }
  }

  /** Depth 2, over the depth-1 paths in whatever order the map yields them. */
  method IndirectEntries(t: Tables, entries: map<Path, Entry>, changed: set<Path>) returns (r: map<Path, Entry>)
    requires Records(t, entries, Direct(t, changed), {})
    ensures Records(t, r, Direct(t, changed), Indirect(t, changed))
  {
    hide Records, CallersOf;
    ghost var direct := Direct(t, changed);
    var depth1 := entries.Keys;
    KeysAreDirect(t, entries, direct);
    r := entries;
    var rest := depth1;
    NoIndirect(t, entries, direct, changed + depth1);
    assert depth1 - rest == {};
    while rest != {}
      invariant rest <= depth1
      invariant Records(t, r, direct, CallersOf(t.calls, SitesAt(direct, depth1 - rest), changed + depth1))
      decreases rest
    {
      var p :| p in rest;
      EntrySites(t, r, direct, CallersOf(t.calls, SitesAt(direct, depth1 - rest), changed + depth1), p);
      var names := r[p].symbols;
      r := AddIndirectSymbols(t, r, p, names, changed, depth1, direct, SitesAt(direct, depth1 - rest));
      assert SitesAt(direct, depth1 - rest) + SitesAt(direct, {p}) == SitesAt(direct, depth1 - (rest - {p}));
      rest := rest - {p};
    }
    assert SitesAt(direct, depth1 - rest) == direct;
  }

  lemma KeysAreDirect(t: Tables, entries: map<Path, Entry>, direct: set<Site>)
    requires Records(t, entries, direct, {})
    ensures entries.Keys == PathsOf(direct)
  {
  }

  lemma NoIndirect(t: Tables, entries: map<Path, Entry>, direct: set<Site>, skip: set<Path>)
    requires Records(t, entries, direct, {})
    ensures Records(t, entries, direct, CallersOf(t.calls, SitesAt(direct, {}), skip))
  {
    assert CallersOf(t.calls, SitesAt(direct, {}), skip) == {};
  }

  // ---------------------------------------------------------------- the result

  ghost predicate DistinctPaths(s: seq<Entry>) {
    forall i, j :: 0 <= i < j < |s| ==> s[i].path != s[j].path
  }

  /** What the result says of one path. */
  ghost predicate Reported(t: Tables, changed: set<Path>, e: Entry) {
    var direct, indirect := Direct(t, changed), Indirect(t, changed);
    if e.path in PathsOf(direct) then Describes(t, e, e.path, direct, 1)
    else e.path in PathsOf(indirect) && Describes(t, e, e.path, indirect, 2)
  }

  /** Exactly one entry for each affected path, closer ones first and by path within a depth. */
  ghost predicate IsBlastRadius(t: Tables, changed: set<Path>, out: seq<Entry>) {
    && Sorted(out) && DistinctPaths(out)
    && (forall e :: e in out ==> Reported(t, changed, e))
    && (forall p :: p in PathsOf(Direct(t, changed)) + PathsOf(Indirect(t, changed)) ==> exists e :: e in out && e.path == p)
  }

  /** The two levels share no path, and neither has a changed one. */
  lemma LevelsAreApart(t: Tables, changed: set<Path>)
    ensures PathsOf(Direct(t, changed)) !! PathsOf(Indirect(t, changed))
    ensures (PathsOf(Direct(t, changed)) + PathsOf(Indirect(t, changed))) !! changed
  {
  }

  lemma RecordedIsReported(t: Tables, changed: set<Path>, entries: map<Path, Entry>, p: Path)
    requires Records(t, entries, Direct(t, changed), Indirect(t, changed)) && p in entries
    ensures Reported(t, changed, entries[p]) && entries[p].path == p
  {
    hide Describes, Direct, Indirect, PathsOf;
    LevelsAreApart(t, changed);
    assert p in PathsOf(Direct(t, changed)) || p in PathsOf(Indirect(t, changed));
    if p in PathsOf(Direct(t, changed)) {
      DescribesPath(t, entries[p], p, Direct(t, changed), 1);
    } else {
      DescribesPath(t, entries[p], p, Indirect(t, changed), 2);
    }
  }

  lemma DescribesPath(t: Tables, e: Entry, p: Path, sites: set<Site>, depth: nat)
    requires Describes(t, e, p, sites, depth)
    ensures e.path == p
  {
  }

  /** The values of the map, in whatever order it yields them. */
  method Collect(entries: map<Path, Entry>) returns (out: seq<Entry>)
    requires forall p :: p in entries ==> entries[p].path == p
    ensures DistinctPaths(out)
    ensures forall e :: e in out <==> e.path in entries && entries[e.path] == e
  {
    out := [];
    var rest := entries.Keys;
    while rest != {}
      invariant rest <= entries.Keys && DistinctPaths(out)
      invariant forall e :: e in out <==> e.path in entries.Keys - rest && entries[e.path] == e
      decreases rest
    {
      var p :| p in rest;
      rest := rest - {p};
      assert forall k :: 0 <= k < |out| ==> out[k] in out;
      out := out + [entries[p]];
    }
  }

  method GetBlastRadius(t: Tables, changedPaths: seq<Path>) returns (out: seq<Entry>)
    ensures IsBlastRadius(t, SetOf(changedPaths), out)
  {
    hide Records, Describes, Direct, Indirect, PathsOf;
    var changed := SetOf(changedPaths);
    var entries := DirectEntries(t, changedPaths, changed);
    entries := IndirectEntries(t, entries, changed);
    forall p | p in entries ensures Reported(t, changed, entries[p]) && entries[p].path == p {
      RecordedIsReported(t, changed, entries, p);
    }
    KeysAreAffected(t, entries, Direct(t, changed), Indirect(t, changed));
    var values := Collect(entries);
    out := SortedCopy(values);
  }

  lemma KeysAreAffected(t: Tables, entries: map<Path, Entry>, direct: set<Site>, indirect: set<Site>)
    requires Records(t, entries, direct, indirect)
    ensures entries.Keys == PathsOf(direct) + PathsOf(indirect)
  {
  }

  method SortedCopy(values: seq<Entry>) returns (out: seq<Entry>)
    requires DistinctPaths(values)
    ensures Sorted(out) && DistinctPaths(out) && forall e :: e in out <==> e in values
  {
    var a := new Entry[|values|](i requires 0 <= i < |values| => values[i]);
    assert a[..] == values;
    SortBlastEntries(a);
    out := a[..];
    PermutationKeepsPaths(values, out);
  }

  lemma PermutationKeepsPaths(s: seq<Entry>, r: seq<Entry>)
    requires multiset(s) == multiset(r) && DistinctPaths(s)
    ensures DistinctPaths(r) && forall e :: e in r <==> e in s
  {
    forall e ensures e in r <==> e in s {
      assert e in r <==> e in multiset(r);
      assert e in s <==> e in multiset(s);
    }
    forall i, j | 0 <= i < j < |r| ensures r[i].path != r[j].path {
      assert r[i] in r && r[j] in r;
      OnlyOnce(s, r[i]);
      if r[i] == r[j] {
        Twice(r, i, j);
      }
    }
  }

  lemma {:induction false} OnlyOnce(s: seq<Entry>, e: Entry)
    requires DistinctPaths(s)
    ensures multiset(s)[e] <= 1
    decreases |s|
  {
    if s != [] {
      var n := |s| - 1;
      OnlyOnce(s[..n], e);
      assert s == s[..n] + [s[n]];
      if s[n] == e {
        assert e !in s[..n];
      }
    }
  }

  lemma Twice(s: seq<Entry>, i: nat, j: nat)
    requires i < j < |s| && s[i] == s[j]
    ensures multiset(s)[s[i]] >= 2
  {
    assert s == s[..j] + [s[j]] + s[j + 1..];
    assert s[..j] == s[..i] + [s[i]] + s[i + 1..j];
  }

  // ---------------------------------------------------------------- independence of the map's order

  /** The same entry, its symbols perhaps in another order. */
  ghost predicate SameEntry(a: Entry, b: Entry) {
    a.path == b.path && a.summary == b.summary && a.depth == b.depth && forall s :: s in a.symbols <==> s in b.symbols
  }

  lemma ReportedIsUnique(t: Tables, changed: set<Path>, a: Entry, b: Entry)
    requires Reported(t, changed, a) && Reported(t, changed, b) && a.path == b.path
    ensures SameEntry(a, b)
  {
    hide Direct, Indirect, PathsOf;
  }

  lemma {:induction false} SameUpTo(t: Tables, changed: set<Path>, a: seq<Entry>, b: seq<Entry>, n: nat)
    requires IsBlastRadius(t, changed, a) && IsBlastRadius(t, changed, b) && n <= |a|
    ensures n <= |b| && forall k :: 0 <= k < n ==> SameEntry(a[k], b[k])
  {
    hide Direct, Indirect, PathsOf, Reported, IsBlastRadius;
    if n > 0 {
      SameUpTo(t, changed, a, b, n - 1);
      SameNextEntry(t, changed, a, b, n - 1);
    }
  }

  /** Where an entry's path stands in another result that agrees on the first `m` entries. */
  lemma PathIndex(t: Tables, changed: set<Path>, a: seq<Entry>, b: seq<Entry>, m: nat) returns (j: nat)
    requires IsBlastRadius(t, changed, a) && IsBlastRadius(t, changed, b)
    requires m < |a| && m <= |b| && forall k :: 0 <= k < m ==> SameEntry(a[k], b[k])
    ensures m <= j < |b| && SameEntry(a[m], b[j])
  {
    hide Direct, Indirect, PathsOf, Describes;
    assert Reported(t, changed, a[m]);
    assert a[m].path in PathsOf(Direct(t, changed)) + PathsOf(Indirect(t, changed));
    var e :| e in b && e.path == a[m].path;
    j :| 0 <= j < |b| && b[j] == e;
    assert forall k :: 0 <= k < m ==> b[k].path == a[k].path != a[m].path;
    ReportedIsUnique(t, changed, a[m], e);
  }

  lemma SameNextEntry(t: Tables, changed: set<Path>, a: seq<Entry>, b: seq<Entry>, m: nat)
    requires IsBlastRadius(t, changed, a) && IsBlastRadius(t, changed, b)
    requires m < |a| && m <= |b| && forall k :: 0 <= k < m ==> SameEntry(a[k], b[k])
    ensures m < |b| && SameEntry(a[m], b[m])
  {
    hide Direct, Indirect, PathsOf, Describes, Reported, Below;
    var j := PathIndex(t, changed, a, b, m);
    assert forall k :: 0 <= k < m ==> SameEntry(b[k], a[k]);
    var k := PathIndex(t, changed, b, a, m);
    assert !Less(a[m], b[m]) && !Less(b[m], a[m]) by {
      NotBelowItself(a[m].path);
    }
    LessIsTotal(a[m], b[m]);
    assert a[m] in a && b[m] in b;
    if a[m].path == b[m].path {
      assert Reported(t, changed, a[m]) && Reported(t, changed, b[m]);
      ReportedIsUnique(t, changed, a[m], b[m]);
    }
  }

  /** Whatever order the maps and the database yield their rows in, the paths, depths, summaries and symbol
      sets come out the same, in the same order. */
  lemma BlastRadiusIsUnique(t: Tables, changed: set<Path>, a: seq<Entry>, b: seq<Entry>)
    requires IsBlastRadius(t, changed, a) && IsBlastRadius(t, changed, b)
    ensures |a| == |b| && forall k :: 0 <= k < |a| ==> SameEntry(a[k], b[k])
  {
    hide IsBlastRadius;
    SameUpTo(t, changed, a, b, |a|);
    SameUpTo(t, changed, b, a, |b|);
  }

  // ---------------------------------------------------------------- what the entries say

  /** The symbol of an unchanged file calls a listed symbol of a changed one. */
  ghost predicate CallsChanged(t: Tables, changed: set<Path>, p: Path, symbol: string) {
    p !in changed
    && exists c :: c in t.calls && c.0 == p && c.1.symbol == symbol
                   && c.1.targetPath in changed && (c.1.targetPath, c.1.targetSymbol) in t.symbols
  }

  /** It calls a direct caller, and its file is neither changed nor a direct caller itself. */
  ghost predicate CallsCaller(t: Tables, changed: set<Path>, p: Path, symbol: string) {
    p !in changed && (forall other :: !CallsChanged(t, changed, p, other))
    && exists c :: c in t.calls && c.0 == p && c.1.symbol == symbol
                   && CallsChanged(t, changed, c.1.targetPath, c.1.targetSymbol)
  }

  ghost predicate Listed(out: seq<Entry>, p: Path, depth: nat, symbol: string) {
    exists e :: e in out && e.path == p && e.depth == depth && symbol in e.symbols
  }

  lemma DirectMeans(t: Tables, changed: set<Path>, p: Path, symbol: string)
    ensures Site(p, symbol) in Direct(t, changed) <==> CallsChanged(t, changed, p, symbol)
  {
    var targets := ChangedSites(t, changed);
    forall q: Path, s: string ensures Site(q, s) in targets <==> q in changed && (q, s) in t.symbols {
      if q in changed && (q, s) in t.symbols {
        assert (q, s) in t.symbols.Keys;
      }
    }
    hide ChangedSites;
    if CallsChanged(t, changed, p, symbol) {
      var c :| c in t.calls && c.0 == p && c.1.symbol == symbol
               && c.1.targetPath in changed && (c.1.targetPath, c.1.targetSymbol) in t.symbols;
      assert Site(c.1.targetPath, c.1.targetSymbol) in targets;
    }
  }

  lemma IndirectMeans(t: Tables, changed: set<Path>, p: Path, symbol: string)
    ensures Site(p, symbol) in Indirect(t, changed) <==> CallsCaller(t, changed, p, symbol)
  {
    var direct := Direct(t, changed);
    forall q: Path, s: string ensures Site(q, s) in direct <==> CallsChanged(t, changed, q, s) {
      DirectMeans(t, changed, q, s);
    }
    hide Direct, CallsChanged;
    assert p in PathsOf(direct) <==> exists other :: CallsChanged(t, changed, p, other) by {
      if other: string :| CallsChanged(t, changed, p, other) {
        assert Site(p, other) in direct && Site(p, other).path == p;
      }
      if p in PathsOf(direct) {
        var s :| s in direct && s.path == p;
        assert s == Site(p, s.symbol);
      }
    }
    hide PathsOf;
    if CallsCaller(t, changed, p, symbol) {
      var c :| c in t.calls && c.0 == p && c.1.symbol == symbol
               && CallsChanged(t, changed, c.1.targetPath, c.1.targetSymbol);
      assert Site(c.1.targetPath, c.1.targetSymbol) in direct;
    }
  }

  /** The entries at depth one list exactly the symbols that call a changed one, those at depth two exactly
      the symbols that call one of these; each file comes once, the nearer ones first and then by path. */
  lemma BlastRadiusMeans(t: Tables, changed: set<Path>, out: seq<Entry>)
    requires IsBlastRadius(t, changed, out)
    ensures forall p, symbol :: Listed(out, p, 1, symbol) <==> CallsChanged(t, changed, p, symbol)
    ensures forall p, symbol :: Listed(out, p, 2, symbol) <==> CallsCaller(t, changed, p, symbol)
    ensures forall e :: e in out ==>
              && 1 <= e.depth <= 2 && e.symbols != []
              && e.summary == (if e.path in t.files then t.files[e.path].summary else "")
              && forall i, j :: 0 <= i < j < |e.symbols| ==> e.symbols[i] != e.symbols[j]
    ensures forall i, j :: 0 <= i < j < |out| ==>
              || out[i].depth < out[j].depth
              || (out[i].depth == out[j].depth && Below(out[i].path, out[j].path))
  {
    hide CallsChanged, CallsCaller, Direct, Indirect, Listed;
    forall p: Path, symbol: string
      ensures Listed(out, p, 1, symbol) <==> CallsChanged(t, changed, p, symbol)
      ensures Listed(out, p, 2, symbol) <==> CallsCaller(t, changed, p, symbol)
    {
      DirectMeans(t, changed, p, symbol);
      IndirectMeans(t, changed, p, symbol);
      ListedMeans(t, changed, out, p, symbol);
    }
    forall e | e in out
      ensures && 1 <= e.depth <= 2 && e.symbols != []
              && e.summary == (if e.path in t.files then t.files[e.path].summary else "")
              && forall i, j :: 0 <= i < j < |e.symbols| ==> e.symbols[i] != e.symbols[j]
    {
      EntryMeans(t, changed, e);
    }
    forall i, j | 0 <= i < j < |out|
      ensures out[i].depth < out[j].depth || (out[i].depth == out[j].depth && Below(out[i].path, out[j].path))
    {
      BelowIsTotal(out[i].path, out[j].path);
    }
  }

  lemma EntryMeans(t: Tables, changed: set<Path>, e: Entry)
    requires Reported(t, changed, e)
    ensures 1 <= e.depth <= 2 && e.symbols != [] && e.summary == SummaryOf(t, e.path) && NoRepeats(e.symbols)
  {
    hide Direct, Indirect;
    var sites := if e.path in PathsOf(Direct(t, changed)) then Direct(t, changed) else Indirect(t, changed);
    var s :| s in sites && s.path == e.path;
    assert s == Site(e.path, s.symbol);
  }

  lemma ListedMeans(t: Tables, changed: set<Path>, out: seq<Entry>, p: Path, symbol: string)
    requires IsBlastRadius(t, changed, out)
    ensures Listed(out, p, 1, symbol) <==> Site(p, symbol) in Direct(t, changed)
    ensures Listed(out, p, 2, symbol) <==> Site(p, symbol) in Indirect(t, changed)
  {
    LevelsAreApart(t, changed);
    hide Direct, Indirect;
    var direct, indirect := Direct(t, changed), Indirect(t, changed);
    assert Site(p, symbol) in direct ==> Site(p, symbol).path in PathsOf(direct);
    assert Site(p, symbol) in indirect ==> Site(p, symbol).path in PathsOf(indirect);
    hide PathsOf;
    if p in PathsOf(direct) + PathsOf(indirect) {
      var e :| e in out && e.path == p;
      assert Reported(t, changed, e);
      assert forall other :: other in out && other.path == p ==> Reported(t, changed, other);
    }
  }

  // ---------------------------------------------------------------- merging duplicates

  function AddSymbolsTo(known: seq<string>, more: seq<string>): (r: seq<string>)
    requires NoRepeats(known)
    ensures NoRepeats(r) && known <= r && forall s :: s in r <==> s in known || s in more
  {
    if more == [] then known
    else
      var n := |more| - 1;
      var r := AddSymbolsTo(known, more[..n]);
      assert forall s :: s in more <==> s in more[..n] || s == more[n];
      if more[n] in r then r else r + [more[n]]
  }

  /** The index of the path's entry, or the length. */
  function IndexOf(out: seq<Entry>, p: Path): (k: nat)
    ensures k <= |out| && (k < |out| ==> out[k].path == p) && forall i :: 0 <= i < k ==> out[i].path != p
  {
    if out == [] then 0
    else if out[0].path == p then 0
    else 1 + IndexOf(out[1..], p)
  }

  ghost predicate Clean(s: seq<Entry>) {
    DistinctPaths(s) && forall e :: e in s ==> NoRepeats(e.symbols)
  }

  /** One entry merged in: a known path keeps its place and summary, takes the smaller depth, and gains
      the new symbols. */
  function MergeInto(out: seq<Entry>, e: Entry): (r: seq<Entry>)
    requires Clean(out)
    ensures Clean(r)
  {
    var k := IndexOf(out, e.path);
    if k == |out| then out + [Entry(e.path, e.summary, AddSymbolsTo([], e.symbols), e.depth)]
    else
      var cur := out[k];
      assert cur in out;
      out[k := cur.(depth := if e.depth < cur.depth then e.depth else cur.depth, symbols := AddSymbolsTo(cur.symbols, e.symbols))]
  }

  function Merged(entries: seq<Entry>): (r: seq<Entry>)
    ensures Clean(r)
  {
    if entries == [] then [] else MergeInto(Merged(entries[..|entries| - 1]), entries[|entries| - 1])
  }

  /** The index from paths to slots of `out`, each with the symbols seen there. */
  ghost predicate Slots(out: seq<Entry>, byPath: map<Path, (nat, set<string>)>) {
    && (forall k :: 0 <= k < |out| ==> out[k].path in byPath)
    && (forall p :: p in byPath ==> SlotOk(out, p, byPath[p].0, byPath[p].1))
  }

  ghost predicate SlotOk(out: seq<Entry>, p: Path, k: nat, seen: set<string>) {
    k < |out| && out[k].path == p && seen == SymbolSet(out[k].symbols)
  }

  lemma SlotIsIndex(out: seq<Entry>, p: Path, k: nat)
    requires DistinctPaths(out) && k < |out| && out[k].path == p
    ensures IndexOf(out, p) == k
  {
  }

  lemma NewPath(out: seq<Entry>, p: Path)
    requires forall k :: 0 <= k < |out| ==> out[k].path != p
    ensures IndexOf(out, p) == |out|
  {
  }

  method MergeEntry(out0: seq<Entry>, byPath0: map<Path, (nat, set<string>)>, e: Entry)
    returns (out: seq<Entry>, byPath: map<Path, (nat, set<string>)>)
    requires Clean(out0) && Slots(out0, byPath0)
    ensures out == MergeInto(out0, e) && Slots(out, byPath)
  {
    hide IndexOf, AddSymbolsTo;
    out, byPath := out0, byPath0;
    if e.path !in byPath {
      NewPath(out, e.path);
      var syms, seen := MergeSymbols([], {}, e.symbols);
      byPath := byPath[e.path := (|out|, seen)];
      out := out + [Entry(e.path, e.summary, syms, e.depth)];
    } else {
      var k := byPath[e.path].0;
      SlotIsIndex(out, e.path, k);
      var cur := out[k];
      assert cur in out;
      if e.depth < cur.depth {
        cur := cur.(depth := e.depth);
      }
      var syms, seen := MergeSymbols(cur.symbols, byPath[e.path].1, e.symbols);
      byPath := byPath[e.path := (k, seen)];
      out := out[k := cur.(symbols := syms)];
    }
  }

  method DedupeBlastRadius(entries: seq<Entry>) returns (out: seq<Entry>)
    ensures out == Merged(entries)
  {
    hide MergeInto, Slots;
    if |entries| == 0 {
      return entries;
    }
    var byPath: map<Path, (nat, set<string>)> := map[];
    out := [];
    NoSlots();
    for i := 0 to |entries|
      invariant out == Merged(entries[..i]) && Slots(out, byPath)
    {
      assert entries[..i + 1][..i] == entries[..i];
      out, byPath := MergeEntry(out, byPath, entries[i]);
    }
    assert entries[..|entries|] == entries;
  }

  lemma NoSlots()
    ensures Slots([], map[])
  {
  }

  function SymbolSet(s: seq<string>): set<string> {
    set x | x in s
  }

  method MergeSymbols(known: seq<string>, seen0: set<string>, more: seq<string>) returns (syms: seq<string>, seen: set<string>)
    requires NoRepeats(known) && seen0 == SymbolSet(known)
    ensures syms == AddSymbolsTo(known, more) && seen == SymbolSet(syms)
  {
    syms, seen := known, seen0;
    for i := 0 to |more|
      invariant syms == AddSymbolsTo(known, more[..i]) && seen == SymbolSet(syms)
    {
      assert more[..i + 1][..i] == more[..i];
      if more[i] in seen {
        continue;
      }
      seen := seen + {more[i]};
      syms := syms + [more[i]];
    }
    assert more[..|more|] == more;
  }

  // ---------------------------------------------------------------- what merging means

  lemma {:induction false} NothingToAdd(s: seq<string>)
    requires NoRepeats(s)
    ensures AddSymbolsTo([], s) == s
    decreases |s|
  {
    hide NoRepeats;
    if s != [] {
      var n := |s| - 1;
      FrontHasNoRepeats(s);
      NothingToAdd(s[..n]);
    }
  }

  lemma FrontHasNoRepeats(s: seq<string>)
    requires s != [] && NoRepeats(s)
    ensures NoRepeats(s[..|s| - 1]) && s[|s| - 1] !in s[..|s| - 1] && NoRepeats([])
  {
    var n := |s| - 1;
    assert forall i :: 0 <= i < n ==> s[..n][i] == s[i];
  }

  lemma NewEntryIsAppended(out: seq<Entry>, e: Entry)
    requires Clean(out) && NoRepeats(e.symbols) && forall k :: 0 <= k < |out| ==> out[k].path != e.path
    ensures MergeInto(out, e) == out + [e]
  {
    hide AddSymbolsTo, IndexOf;
    NewPath(out, e.path);
    NothingToAdd(e.symbols);
  }

  /** A list without duplicates stays as it is. */
  lemma {:induction false} MergingKeepsClean(s: seq<Entry>)
    requires Clean(s)
    ensures Merged(s) == s
    decreases |s|
  {
    hide MergeInto;
    if s != [] {
      var n := |s| - 1;
      assert s[n] in s && forall e :: e in s[..n] ==> e in s;
      MergingKeepsClean(s[..n]);
      NewEntryIsAppended(s[..n], s[n]);
    }
  }

  lemma MergingIsIdempotent(entries: seq<Entry>)
    ensures Merged(Merged(entries)) == Merged(entries)
  {
    MergingKeepsClean(Merged(entries));
  }

  predicate Covers(m: Entry, e: Entry) {
    m.path == e.path && m.depth <= e.depth && forall s :: s in e.symbols ==> s in m.symbols
  }

  lemma MergeCovers(out: seq<Entry>, e: Entry)
    requires Clean(out)
    ensures exists k :: 0 <= k < |MergeInto(out, e)| && Covers(MergeInto(out, e)[k], e)
    ensures |out| <= |MergeInto(out, e)| && forall k :: 0 <= k < |out| ==> Covers(MergeInto(out, e)[k], out[k])
  {
    var k := IndexOf(out, e.path);
    assert Covers(MergeInto(out, e)[k], e);
  }

  /** Every merged entry survives in one of the same path with no larger depth and all its symbols. */
  lemma {:induction false} EveryEntryIsCovered(entries: seq<Entry>, i: nat)
    requires i < |entries|
    ensures exists k :: 0 <= k < |Merged(entries)| && Covers(Merged(entries)[k], entries[i])
    decreases |entries|
  {
    hide MergeInto;
    var n := |entries| - 1;
    var before := Merged(entries[..n]);
    MergeCovers(before, entries[n]);
    assert Merged(entries) == MergeInto(before, entries[n]);
    if i < n {
      EveryEntryIsCovered(entries[..n], i);
      var k :| 0 <= k < |before| && Covers(before[k], entries[i]);
      assert Covers(Merged(entries)[k], entries[i]);
    }
  }

  /** Some merged entry of the path has the depth, and some one each symbol. */
  ghost predicate Stems(m: Entry, entries: seq<Entry>) {
    && (exists i :: 0 <= i < |entries| && entries[i].path == m.path && entries[i].depth == m.depth)
    && (forall s :: s in m.symbols ==> exists i :: 0 <= i < |entries| && entries[i].path == m.path && s in entries[i].symbols)
  }

  lemma StemsLonger(m: Entry, entries: seq<Entry>, e: Entry)
    requires Stems(m, entries)
    ensures Stems(m, entries + [e])
  {
    assert forall i :: 0 <= i < |entries| ==> (entries + [e])[i] == entries[i];
  }

  lemma StemsMerged(m: Entry, cur: Entry, entries: seq<Entry>, e: Entry)
    requires Stems(cur, entries) && cur.path == e.path && NoRepeats(cur.symbols)
    requires m == cur.(depth := if e.depth < cur.depth then e.depth else cur.depth, symbols := AddSymbolsTo(cur.symbols, e.symbols))
    ensures Stems(m, entries + [e])
  {
    StemsLonger(cur, entries, e);
    assert (entries + [e])[|entries|] == e;
  }

  /** The merge invents nothing: each depth is one of the path's, each symbol comes from one of its entries. */
  lemma {:induction false} NothingIsInvented(entries: seq<Entry>, k: nat)
    requires k < |Merged(entries)|
    ensures Stems(Merged(entries)[k], entries)
    decreases |entries|
  {
    hide Stems, AddSymbolsTo, IndexOf;
    var n := |entries| - 1;
    var before, e := Merged(entries[..n]), entries[n];
    var j := IndexOf(before, e.path);
    assert entries[..n] + [e] == entries;
    if j == |before| && k == j {
      StemsAlone(Merged(entries)[k], entries[..n], e);
    } else {
      NothingIsInvented(entries[..n], k);
      if k == j {
        assert before[k] in before;
        StemsMerged(Merged(entries)[k], before[k], entries[..n], e);
      } else {
        StemsLonger(before[k], entries[..n], e);
      }
    }
  }

  lemma StemsAlone(m: Entry, entries: seq<Entry>, e: Entry)
    requires m == Entry(e.path, e.summary, AddSymbolsTo([], e.symbols), e.depth)
    ensures Stems(m, entries + [e])
  {
    assert (entries + [e])[|entries|] == e;
  }

  /** The merge leaves the result of the walk unchanged. */
  lemma MergingKeepsBlastRadius(t: Tables, changed: set<Path>, out: seq<Entry>)
    requires IsBlastRadius(t, changed, out)
    ensures Merged(out) == out
  {
    forall e | e in out ensures NoRepeats(e.symbols) {
      assert Reported(t, changed, e);
    }
    MergingKeepsClean(out);
  }

  /** Each path keeps the place and the summary of its first entry. */
  lemma {:induction false} MergedFirsts(entries: seq<Entry>) returns (first: seq<nat>)
    ensures var out := Merged(entries);
            && |first| == |out|
            && (forall k :: 0 <= k < |out| ==>
                  && first[k] < |entries|
                  && out[k].path == entries[first[k]].path && out[k].summary == entries[first[k]].summary
                  && forall i :: 0 <= i < first[k] ==> entries[i].path != out[k].path)
            && (forall j, k :: 0 <= j < k < |out| ==> first[j] < first[k])
    decreases |entries|
  {
    hide AddSymbolsTo, IndexOf;
    first := [];
    if entries != [] {
      var n := |entries| - 1;
      first := MergedFirsts(entries[..n]);
      var before, e := Merged(entries[..n]), entries[n];
      if IndexOf(before, e.path) == |before| {
        forall i | 0 <= i < n ensures entries[i].path != e.path {
          EveryEntryIsCovered(entries[..n], i);
        }
        first := first + [n];
      }
    }
  }
}
