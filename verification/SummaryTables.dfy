/** The code index as relational tables (internal/index/schema.go and sqlite_store.go). What a caller sees is
    a map from paths to file summaries; the tables keep it in a row of `files` and rows of four child
    tables that belong to it. */
module SummaryTables {
  import opened Options
  import opened Sequences
  import opened TextOrder

  type Path = string

  datatype Symbol = Symbol(name: string, kind: string, signature: string, description: string)

  datatype SymbolRef = SymbolRef(sourcePath: Path, sourceSymbol: string, targetPath: Path, targetSymbol: string)

  datatype ExternalRef = ExternalRef(kind: string, target: string, description: string)

  datatype FileRow = FileRow(language: string, summary: string, contentHash: string, loc: int)

  datatype FileSummary = FileSummary(
    path: Path, row: FileRow, symbols: seq<Symbol>, imports: seq<Path>, refs: seq<SymbolRef>, xrefs: seq<ExternalRef>)

  // ---------------------------------------------------------------- what the tables keep

  datatype SymbolRow = SymbolRow(kind: string, signature: string, description: string)

  datatype Call = Call(symbol: string, targetPath: Path, targetSymbol: string)

  datatype Target = Target(kind: string, target: string)

  /** A summary as it can be read back: lists without duplicates, in no order. */
  datatype Kept = Kept(
    row: FileRow, symbols: map<string, SymbolRow>, imports: set<Path>, calls: set<Call>, targets: map<Target, string>)

  const DEFAULT_KIND := "function"

  function RowOf(s: Symbol): SymbolRow {
    SymbolRow(if s.kind == "" then DEFAULT_KIND else s.kind, s.signature, s.description)
  }

  /** The first symbol of each name; one without a name is dropped. */
  function KeptSymbols(symbols: seq<Symbol>): map<string, SymbolRow> {
    if symbols == [] then map[]
    else
      var m, s := KeptSymbols(symbols[..|symbols| - 1]), symbols[|symbols| - 1];
      if s.name == "" || s.name in m then m else m[s.name := RowOf(s)]
  }

  function KeptImports(imports: seq<Path>): set<Path> {
    set i | i in imports && i != ""
  }

  predicate IsComplete(r: SymbolRef) {
    r.sourceSymbol != "" && r.targetPath != "" && r.targetSymbol != ""
  }

  function CallOf(r: SymbolRef): Call {
    Call(r.sourceSymbol, r.targetPath, r.targetSymbol)
  }

  function KeptCalls(refs: seq<SymbolRef>): set<Call> {
    set r | r in refs && IsComplete(r) :: CallOf(r)
  }

  function KeptTargets(xrefs: seq<ExternalRef>): map<Target, string> {
    if xrefs == [] then map[]
    else
      var m, x := KeptTargets(xrefs[..|xrefs| - 1]), xrefs[|xrefs| - 1];
      if x.kind == "" || x.target == "" || Target(x.kind, x.target) in m then m
      else m[Target(x.kind, x.target) := x.description]
  }

  function KeptOf(fs: FileSummary): Kept {
    Kept(fs.row, KeptSymbols(fs.symbols), KeptImports(fs.imports), KeptCalls(fs.refs), KeptTargets(fs.xrefs))
  }

  lemma KeptSymbolsStep(symbols: seq<Symbol>, s: Symbol)
    ensures var m := KeptSymbols(symbols);
            KeptSymbols(symbols + [s]) == if s.name == "" || s.name in m then m else m[s.name := RowOf(s)]
  {
    assert (symbols + [s])[..|symbols|] == symbols;
  }

  lemma KeptTargetsStep(xrefs: seq<ExternalRef>, x: ExternalRef)
    ensures var m := KeptTargets(xrefs);
            KeptTargets(xrefs + [x]) ==
            if x.kind == "" || x.target == "" || Target(x.kind, x.target) in m then m
            else m[Target(x.kind, x.target) := x.description]
  {
    assert (xrefs + [x])[..|xrefs|] == xrefs;
  }

  /** A name's row comes from the first symbol that has it. */
  lemma {:induction false} FirstSymbolWins(symbols: seq<Symbol>, name: string)
    ensures name in KeptSymbols(symbols) <==> name != "" && exists i :: 0 <= i < |symbols| && symbols[i].name == name
    ensures forall i :: 0 <= i < |symbols| && symbols[i].name == name != ""
              && (forall j :: 0 <= j < i ==> symbols[j].name != name)
              ==> name in KeptSymbols(symbols) && KeptSymbols(symbols)[name] == RowOf(symbols[i])
    decreases |symbols|
  {
    if symbols != [] {
      var n := |symbols| - 1;
      FirstSymbolWins(symbols[..n], name);
      assert forall i :: 0 <= i < n ==> symbols[..n][i] == symbols[i];
      assert name in KeptSymbols(symbols) <==>
        name in KeptSymbols(symbols[..n]) || (name != "" && symbols[n].name == name);
    }
  }

  /** The i-th symbol has a name that no earlier one has. */
  predicate IsFirstSymbol(symbols: seq<Symbol>, i: int) {
    0 <= i < |symbols| && symbols[i].name != "" && forall j :: 0 <= j < i ==> symbols[j].name != symbols[i].name
  }

  lemma OneFirstSymbol(symbols: seq<Symbol>, i: int, k: int)
    requires IsFirstSymbol(symbols, i) && IsFirstSymbol(symbols, k) && symbols[i].name == symbols[k].name
    ensures i == k
  {
  }

  lemma SymbolsAreKept(symbols: seq<Symbol>, name: string, row: SymbolRow)
    ensures name in KeptSymbols(symbols) && KeptSymbols(symbols)[name] == row <==>
            exists i :: IsFirstSymbol(symbols, i) && symbols[i].name == name
                        && row == SymbolRow(if symbols[i].kind == "" then "function" else symbols[i].kind,
                                            symbols[i].signature, symbols[i].description)
  {
    FirstSymbolWins(symbols, name);
    if name in KeptSymbols(symbols) {
      var i := FirstWith(symbols, name);
      assert IsFirstSymbol(symbols, i);
      forall k | IsFirstSymbol(symbols, k) && symbols[k].name == name ensures k == i {
        OneFirstSymbol(symbols, k, i);
      }
    }
  }

  lemma {:induction false} FirstWith(symbols: seq<Symbol>, name: string) returns (i: nat)
    requires exists k :: 0 <= k < |symbols| && symbols[k].name == name
    ensures i < |symbols| && symbols[i].name == name && forall j :: 0 <= j < i ==> symbols[j].name != name
    decreases |symbols|
  {
    var n := |symbols| - 1;
    if exists k :: 0 <= k < n && symbols[k].name == name {
      var k :| 0 <= k < n && symbols[k].name == name;
      assert symbols[..n][k].name == name;
      i := FirstWith(symbols[..n], name);
      assert forall j :: 0 <= j < i ==> symbols[..n][j] == symbols[j];
    } else {
      i := n;
    }
  }

  /** The i-th reference has a kind and a target that no earlier one has together. */
  predicate IsFirstTarget(xrefs: seq<ExternalRef>, i: int) {
    && 0 <= i < |xrefs| && xrefs[i].kind != "" && xrefs[i].target != ""
    && forall j :: 0 <= j < i ==> xrefs[j].kind != xrefs[i].kind || xrefs[j].target != xrefs[i].target
  }

  lemma OneFirstTarget(xrefs: seq<ExternalRef>, i: int, k: int)
    requires IsFirstTarget(xrefs, i) && IsFirstTarget(xrefs, k)
    requires xrefs[i].kind == xrefs[k].kind && xrefs[i].target == xrefs[k].target
    ensures i == k
  {
  }

  lemma {:induction false} TargetIsFirst(xrefs: seq<ExternalRef>, t: Target) returns (i: int)
    requires t in KeptTargets(xrefs)
    ensures IsFirstTarget(xrefs, i) && Target(xrefs[i].kind, xrefs[i].target) == t && KeptTargets(xrefs)[t] == xrefs[i].description
    decreases |xrefs|
  {
    var n := |xrefs| - 1;
    var front := xrefs[..n];
    if t in KeptTargets(front) {
      i := TargetIsFirst(front, t);
      assert forall j :: 0 <= j < n ==> front[j] == xrefs[j];
    } else {
      i := n;
      forall j | 0 <= j < n ensures xrefs[j].kind != t.kind || xrefs[j].target != t.target {
        if xrefs[j].kind == t.kind && xrefs[j].target == t.target {
          TargetIsKept(front, j);
        }
      }
    }
  }

  lemma {:induction false} TargetIsKept(xrefs: seq<ExternalRef>, i: nat)
    requires i < |xrefs| && xrefs[i].kind != "" && xrefs[i].target != ""
    ensures Target(xrefs[i].kind, xrefs[i].target) in KeptTargets(xrefs)
    decreases |xrefs|
  {
    var n := |xrefs| - 1;
    if i < n {
      TargetIsKept(xrefs[..n], i);
    }
  }

  /** Of external references with one kind and target the first is kept, with its description. */
  lemma TargetsAreKept(xrefs: seq<ExternalRef>, x: ExternalRef)
    ensures var m, t := KeptTargets(xrefs), Target(x.kind, x.target);
            t in m && m[t] == x.description <==> exists i :: IsFirstTarget(xrefs, i) && xrefs[i] == x
  {
    hide KeptTargets;
    var m, t := KeptTargets(xrefs), Target(x.kind, x.target);
    if exists k :: IsFirstTarget(xrefs, k) && xrefs[k] == x {
      var k :| IsFirstTarget(xrefs, k) && xrefs[k] == x;
      TargetIsKept(xrefs, k);
      var i := TargetIsFirst(xrefs, t);
      OneFirstTarget(xrefs, i, k);
    } else if t in m {
      var i := TargetIsFirst(xrefs, t);
    }
  }

  // ---------------------------------------------------------------- child tables

  /** The rows of one file in a child table. */
  function KeysOf<K(!new,==)>(t: set<(Path, K)>, p: Path): (r: set<K>)
    ensures forall k :: k in r <==> (p, k) in t
  {
    set e: (Path, K) | e in t && e.0 == p :: e.1
  }

  function RowsOf<K(!new,==), V>(t: map<(Path, K), V>, p: Path): (r: map<K, V>)
    ensures forall k :: k in r <==> (p, k) in t
    ensures forall k :: k in r ==> r[k] == t[(p, k)]
  {
    map k | k in KeysOf(t.Keys, p) :: t[(p, k)]
  }

  function KeysWithout<K(!new,==)>(t: set<(Path, K)>, gone: set<Path>): set<(Path, K)> {
    set e: (Path, K) | e in t && e.0 !in gone
  }

  function RowsWithout<K(!new,==), V>(t: map<(Path, K), V>, gone: set<Path>): map<(Path, K), V> {
    map e: (Path, K) | e in t && e.0 !in gone :: t[e]
  }

  lemma OtherKeys<K(!new)>(t: set<(Path, K)>, u: set<(Path, K)>, gone: set<Path>, q: Path)
    requires KeysWithout(t, gone) == KeysWithout(u, gone) && q !in gone
    ensures KeysOf(t, q) == KeysOf(u, q)
  {
    forall k: K ensures (q, k) in t <==> (q, k) in u {
      assert (q, k) in t <==> (q, k) in KeysWithout(t, gone);
      assert (q, k) in u <==> (q, k) in KeysWithout(u, gone);
    }
  }

  lemma OtherRows<K(!new), V>(t: map<(Path, K), V>, u: map<(Path, K), V>, gone: set<Path>, q: Path)
    requires RowsWithout(t, gone) == RowsWithout(u, gone) && q !in gone
    ensures RowsOf(t, q) == RowsOf(u, q)
  {
    forall k: K ensures (q, k) in t <==> (q, k) in u {
      assert (q, k) in t <==> (q, k) in RowsWithout(t, gone);
      assert (q, k) in u <==> (q, k) in RowsWithout(u, gone);
    }
    forall k: K | (q, k) in t ensures t[(q, k)] == u[(q, k)] {
      assert RowsWithout(t, gone)[(q, k)] == RowsWithout(u, gone)[(q, k)];
    }
  }

  lemma RowsCleared<K(!new), V>(t: map<(Path, K), V>, p: Path)
    ensures RowsOf(RowsWithout(t, {p}), p) == map[]
    ensures RowsWithout(RowsWithout(t, {p}), {p}) == RowsWithout(t, {p})
  {
  }

  lemma RowInserted<K(!new), V>(t: map<(Path, K), V>, p: Path, k: K, v: V)
    ensures RowsOf(t[(p, k) := v], p) == RowsOf(t, p)[k := v]
    ensures RowsWithout(t[(p, k) := v], {p}) == RowsWithout(t, {p})
  {
  }

  /** All five tables at one time. */
  datatype Tables = Tables(
    files: map<Path, FileRow>, symbols: map<(Path, string), SymbolRow>, imports: set<(Path, Path)>,
    calls: set<(Path, Call)>, targets: map<(Path, Target), string>)
  {
    /** The foreign keys: every child row belongs to a live file. */
    ghost predicate Valid() {
      && (forall e :: e in symbols ==> e.0 in files)
      && (forall e :: e in imports ==> e.0 in files)
      && (forall e :: e in calls ==> e.0 in files)
      && (forall e :: e in targets ==> e.0 in files)
    }

    function KeptAt(p: Path): Kept
      requires p in files
    {
      Kept(files[p], RowsOf(symbols, p), KeysOf(imports, p), KeysOf(calls, p), RowsOf(targets, p))
    }

    function View(): map<Path, Kept> {
      map p | p in files :: KeptAt(p)
    }

    /** The child tables agree except for the rows of the files in `gone`. */
    ghost predicate SameBut(t: Tables, gone: set<Path>) {
      && RowsWithout(symbols, gone) == RowsWithout(t.symbols, gone)
      && KeysWithout(imports, gone) == KeysWithout(t.imports, gone)
      && KeysWithout(calls, gone) == KeysWithout(t.calls, gone)
      && RowsWithout(targets, gone) == RowsWithout(t.targets, gone)
    }
  }

  lemma OtherFile(t: Tables, u: Tables, gone: set<Path>, q: Path)
    requires t.SameBut(u, gone) && q !in gone && q in t.files && q in u.files && t.files[q] == u.files[q]
    ensures t.KeptAt(q) == u.KeptAt(q)
  {
    OtherRows(t.symbols, u.symbols, gone, q);
    OtherKeys(t.imports, u.imports, gone, q);
    OtherKeys(t.calls, u.calls, gone, q);
    OtherRows(t.targets, u.targets, gone, q);
  }

  lemma OtherChildren(t: Tables, u: Tables, gone: set<Path>)
    requires t.Valid() && t.SameBut(u, gone) && t.files.Keys - gone <= u.files.Keys
    ensures forall e :: e in u.symbols && e.0 !in gone ==> e.0 in u.files
    ensures forall e :: e in u.imports && e.0 !in gone ==> e.0 in u.files
    ensures forall e :: e in u.calls && e.0 !in gone ==> e.0 in u.files
    ensures forall e :: e in u.targets && e.0 !in gone ==> e.0 in u.files
  {
    assert forall e :: e in u.symbols && e.0 !in gone ==> e in RowsWithout(u.symbols, gone);
    assert forall e :: e in u.imports && e.0 !in gone ==> e in KeysWithout(u.imports, gone);
    assert forall e :: e in u.calls && e.0 !in gone ==> e in KeysWithout(u.calls, gone);
    assert forall e :: e in u.targets && e.0 !in gone ==> e in RowsWithout(u.targets, gone);
  }

  lemma UpsertedIsValid(t: Tables, u: Tables, p: Path)
    requires t.Valid() && t.SameBut(u, {p}) && u.files.Keys == t.files.Keys + {p}
    ensures u.Valid()
  {
    hide RowsWithout, KeysWithout;
    OtherChildren(t, u, {p});
  }

  /** New rows for one file leave every other file as it was. */
  lemma UpsertedView(t: Tables, u: Tables, fs: FileSummary)
    requires t.Valid() && t.SameBut(u, {fs.path}) && u.files == t.files[fs.path := fs.row]
    requires u.KeptAt(fs.path) == KeptOf(fs)
    ensures u.Valid() && u.View() == t.View()[fs.path := KeptOf(fs)]
  {
    hide RowsWithout, KeysWithout, RowsOf, KeysOf, Tables.KeptAt, Tables.SameBut, KeptOf;
    UpsertedIsValid(t, u, fs.path);
    forall q | q in t.files && q != fs.path ensures u.KeptAt(q) == t.KeptAt(q) {
      OtherFile(t, u, {fs.path}, q);
    }
  }

  lemma RemovedIsValid(t: Tables, u: Tables, gone: set<Path>)
    requires t.Valid() && u.files == t.files - gone
    requires u.symbols == RowsWithout(t.symbols, gone) && u.imports == KeysWithout(t.imports, gone)
    requires u.calls == KeysWithout(t.calls, gone) && u.targets == RowsWithout(t.targets, gone)
    ensures u.Valid() && t.SameBut(u, gone)
  {
  }

  lemma RemovedView(t: Tables, u: Tables, gone: set<Path>)
    requires t.Valid() && u.files == t.files - gone
    requires u.symbols == RowsWithout(t.symbols, gone) && u.imports == KeysWithout(t.imports, gone)
    requires u.calls == KeysWithout(t.calls, gone) && u.targets == RowsWithout(t.targets, gone)
    ensures u.Valid() && u.View() == t.View() - gone
  {
    hide RowsWithout, KeysWithout, RowsOf, KeysOf, Tables.KeptAt, Tables.SameBut;
    RemovedIsValid(t, u, gone);
    forall q | q in u.files ensures u.KeptAt(q) == t.KeptAt(q) {
      OtherFile(t, u, gone, q);
    }
  }

  // ---------------------------------------------------------------- transactions

  /** DELETE and the INSERT loop over the symbols, in a transaction's own copy of the table. */
  method InsertSymbols(table: map<(Path, string), SymbolRow>, p: Path, symbols: seq<Symbol>)
    returns (t: map<(Path, string), SymbolRow>)
    ensures RowsOf(t, p) == KeptSymbols(symbols)
    ensures RowsWithout(t, {p}) == RowsWithout(table, {p})
  {
    hide RowsOf, RowsWithout;
    t := RowsWithout(table, {p});
    RowsCleared(table, p);
    var seen: set<string> := {};
    for i := 0 to |symbols|
      invariant seen == KeptSymbols(symbols[..i]).Keys
      invariant RowsOf(t, p) == KeptSymbols(symbols[..i])
      invariant RowsWithout(t, {p}) == RowsWithout(table, {p})
    {
      var sym := symbols[i];
      assert symbols[..i + 1][..i] == symbols[..i];
      if sym.name == "" {
        continue;
      }
      if sym.name in seen {
        continue;
      }
      seen := seen + {sym.name};
      var kind := sym.kind;
      if kind == "" {
        kind := DEFAULT_KIND;
      }
      RowInserted(t, p, sym.name, SymbolRow(kind, sym.signature, sym.description));
      t := t[(p, sym.name) := SymbolRow(kind, sym.signature, sym.description)];
    }
    assert symbols[..|symbols|] == symbols;
  }

  method InsertImports(table: set<(Path, Path)>, p: Path, imports: seq<Path>) returns (t: set<(Path, Path)>)
    ensures KeysOf(t, p) == KeptImports(imports)
    ensures KeysWithout(t, {p}) == KeysWithout(table, {p})
  {
    t := KeysWithout(table, {p});
    var seen: set<Path> := {};
    for i := 0 to |imports|
      invariant seen == KeptImports(imports[..i]) == KeysOf(t, p)
      invariant KeysWithout(t, {p}) == KeysWithout(table, {p})
    {
      var imp := imports[i];
      assert imports[..i + 1] == imports[..i] + [imp];
      if imp == "" {
        continue;
      }
      if imp in seen {
        continue;
      }
      seen := seen + {imp};
      t := t + {(p, imp)};
    }
    assert imports[..|imports|] == imports;
  }

  method InsertRefs(table: set<(Path, Call)>, p: Path, refs: seq<SymbolRef>) returns (t: set<(Path, Call)>)
    ensures KeysOf(t, p) == KeptCalls(refs)
    ensures KeysWithout(t, {p}) == KeysWithout(table, {p})
  {
    t := KeysWithout(table, {p});
    var seen: set<Call> := {};
    for i := 0 to |refs|
      invariant seen == KeptCalls(refs[..i]) == KeysOf(t, p)
      invariant KeysWithout(t, {p}) == KeysWithout(table, {p})
    {
      var ref := refs[i];
      KeptCallsStep(refs[..i], ref);
      assert refs[..i + 1] == refs[..i] + [ref];
      if ref.sourceSymbol == "" || ref.targetPath == "" || ref.targetSymbol == "" {
        continue;
      }
      var key := Call(ref.sourceSymbol, ref.targetPath, ref.targetSymbol);
      if key in seen {
        continue;
      }
      seen := seen + {key};
      t := t + {(p, key)};
    }
    assert refs[..|refs|] == refs;
  }

  lemma KeptCallsStep(refs: seq<SymbolRef>, r: SymbolRef)
    ensures KeptCalls(refs + [r]) == KeptCalls(refs) + if IsComplete(r) then {CallOf(r)} else {}
  {
    assert forall x :: x in refs + [r] <==> x in refs || x == r;
  }

  method InsertXrefs(table: map<(Path, Target), string>, p: Path, xrefs: seq<ExternalRef>)
    returns (t: map<(Path, Target), string>)
    ensures RowsOf(t, p) == KeptTargets(xrefs)
    ensures RowsWithout(t, {p}) == RowsWithout(table, {p})
  {
    hide RowsOf, RowsWithout;
    t := RowsWithout(table, {p});
    RowsCleared(table, p);
    var seen: set<Target> := {};
    for i := 0 to |xrefs|
      invariant seen == KeptTargets(xrefs[..i]).Keys
      invariant RowsOf(t, p) == KeptTargets(xrefs[..i])
      invariant RowsWithout(t, {p}) == RowsWithout(table, {p})
    {
      var xr := xrefs[i];
      assert xrefs[..i + 1][..i] == xrefs[..i];
      if xr.kind == "" || xr.target == "" {
        continue;
      }
      var key := Target(xr.kind, xr.target);
      if key in seen {
        continue;
      }
      seen := seen + {key};
      RowInserted(t, p, key, xr.description);
      t := t[(p, key) := xr.description];
    }
    assert xrefs[..|xrefs|] == xrefs;
  }

  // ---------------------------------------------------------------- reading back

  function NameKey(name: string): seq<string> { [name] }

  function CallKey(c: Call): seq<string> { [c.symbol, c.targetPath] }

  function TargetKey(t: Target): seq<string> { [t.kind, t.target] }

  function Names(symbols: seq<Symbol>): seq<string> {
    seq(|symbols|, i requires 0 <= i < |symbols| => symbols[i].name)
  }

  function Calls(refs: seq<SymbolRef>): seq<Call> {
    seq(|refs|, i requires 0 <= i < |refs| => CallOf(refs[i]))
  }

  function Targets(xrefs: seq<ExternalRef>): seq<Target> {
    seq(|xrefs|, i requires 0 <= i < |xrefs| => Target(xrefs[i].kind, xrefs[i].target))
  }

  /** `fs` lists what is kept: symbols by name, imports by path, references by their first two columns,
      external ones by kind and target. */
  ghost predicate Reads(k: Kept, fs: FileSummary) {
    && fs.row == k.row
    && Lists(Names(fs.symbols), k.symbols.Keys, NameKey)
    && (forall s :: s in fs.symbols ==> s.name in k.symbols && k.symbols[s.name] == SymbolRow(s.kind, s.signature, s.description))
    && Lists(fs.imports, k.imports, NameKey)
    && Lists(Calls(fs.refs), k.calls, CallKey)
    && (forall r :: r in fs.refs ==> r.sourcePath == fs.path)
    && Lists(Targets(fs.xrefs), k.targets.Keys, TargetKey)
    && (forall x :: x in fs.xrefs ==> Target(x.kind, x.target) in k.targets && k.targets[Target(x.kind, x.target)] == x.description)
  }

  method ListSymbols(rows: map<string, SymbolRow>) returns (r: seq<Symbol>)
    ensures Lists(Names(r), rows.Keys, NameKey)
    ensures forall s :: s in r ==> s.name in rows && rows[s.name] == SymbolRow(s.kind, s.signature, s.description)
  {
    var names := OrderBy(rows.Keys, NameKey);
    r := seq(|names|, i requires 0 <= i < |names| =>
      var row := rows[names[i]]; Symbol(names[i], row.kind, row.signature, row.description));
    assert Names(r) == names;
  }

  method ListRefs(path: Path, calls: set<Call>) returns (r: seq<SymbolRef>)
    ensures Lists(Calls(r), calls, CallKey) && forall x :: x in r ==> x.sourcePath == path
  {
    var cs := OrderBy(calls, CallKey);
    r := seq(|cs|, i requires 0 <= i < |cs| => SymbolRef(path, cs[i].symbol, cs[i].targetPath, cs[i].targetSymbol));
    assert Calls(r) == cs;
  }

  method ListXrefs(rows: map<Target, string>) returns (r: seq<ExternalRef>)
    ensures Lists(Targets(r), rows.Keys, TargetKey)
    ensures forall x :: x in r ==> Target(x.kind, x.target) in rows && rows[Target(x.kind, x.target)] == x.description
  {
    var ts := OrderBy(rows.Keys, TargetKey);
    r := seq(|ts|, i requires 0 <= i < |ts| => ExternalRef(ts[i].kind, ts[i].target, rows[ts[i]]));
    assert Targets(r) == ts;
  }

  /** What is read back is determined by what is kept, up to the order of references that agree in their
      first two columns. */
  lemma ReadingIsUnique(k: Kept, a: FileSummary, b: FileSummary)
    requires Reads(k, a) && Reads(k, b)
    ensures a.row == b.row && a.symbols == b.symbols && a.imports == b.imports && a.xrefs == b.xrefs
    ensures forall c :: c in Calls(a.refs) <==> c in Calls(b.refs)
  {
    SameNames(k, a, b);
    SameTargets(k, a, b);
    NamesAreKeys(k.imports);
    OneList(a.imports, b.imports, k.imports, NameKey);
  }

  /** What is read of a written summary: the first symbol of each name, "function" standing for a missing
      kind; the imports with a path; the references with all their parts; the first external reference of
      each kind and target with both. */
  lemma ReadsAsWritten(fs: FileSummary, got: FileSummary)
    requires Reads(KeptOf(fs), got)
    ensures got.row == fs.row
    ensures forall s :: s in got.symbols <==>
              exists i :: IsFirstSymbol(fs.symbols, i)
                          && s == fs.symbols[i].(kind := if fs.symbols[i].kind == "" then "function" else fs.symbols[i].kind)
    ensures forall p :: p in got.imports <==> p in fs.imports && p != ""
    ensures forall a, b, c :: SymbolRef(got.path, a, b, c) in got.refs <==>
              a != "" && b != "" && c != "" && exists r :: r in fs.refs && r == SymbolRef(r.sourcePath, a, b, c)
    ensures forall r :: r in got.refs ==> r.sourcePath == got.path
    ensures forall x :: x in got.xrefs <==> exists i :: IsFirstTarget(fs.xrefs, i) && x == fs.xrefs[i]
  {
    var k := KeptOf(fs);
    SymbolsReadAsWritten(k, fs, got);
    CallsReadAsWritten(k, fs, got);
    TargetsReadAsWritten(k, fs, got);
  }

  lemma SymbolsReadAsWritten(k: Kept, fs: FileSummary, got: FileSummary)
    requires k.symbols == KeptSymbols(fs.symbols) && Reads(k, got)
    ensures forall s :: s in got.symbols <==>
              exists i :: IsFirstSymbol(fs.symbols, i)
                          && s == fs.symbols[i].(kind := if fs.symbols[i].kind == "" then "function" else fs.symbols[i].kind)
  {
    hide KeptSymbols;
    forall s: Symbol
      ensures s in got.symbols <==> s.name in k.symbols && k.symbols[s.name] == SymbolRow(s.kind, s.signature, s.description)
    {
      if s.name in k.symbols {
        assert s.name in Names(got.symbols);
        var i :| 0 <= i < |got.symbols| && Names(got.symbols)[i] == s.name;
        assert got.symbols[i] in got.symbols;
      }
    }
    forall s: Symbol
      ensures s in got.symbols <==>
              exists i :: IsFirstSymbol(fs.symbols, i)
                          && s == fs.symbols[i].(kind := if fs.symbols[i].kind == "" then "function" else fs.symbols[i].kind)
    {
      SymbolsAreKept(fs.symbols, s.name, SymbolRow(s.kind, s.signature, s.description));
    }
  }

  lemma CallsReadAsWritten(k: Kept, fs: FileSummary, got: FileSummary)
    requires k.calls == KeptCalls(fs.refs) && Reads(k, got)
    ensures forall a, b, c :: SymbolRef(got.path, a, b, c) in got.refs <==>
              a != "" && b != "" && c != "" && exists r :: r in fs.refs && r == SymbolRef(r.sourcePath, a, b, c)
  {
    forall a, b, c
      ensures SymbolRef(got.path, a, b, c) in got.refs <==>
              a != "" && b != "" && c != "" && exists r :: r in fs.refs && r == SymbolRef(r.sourcePath, a, b, c)
    {
      var call := Call(a, b, c);
      assert call in Calls(got.refs) <==> call in k.calls;
      if call in Calls(got.refs) {
        var i :| 0 <= i < |got.refs| && Calls(got.refs)[i] == call;
        assert got.refs[i] in got.refs;
      }
      if SymbolRef(got.path, a, b, c) in got.refs {
        var i :| 0 <= i < |got.refs| && got.refs[i] == SymbolRef(got.path, a, b, c);
        assert Calls(got.refs)[i] == call;
      }
    }
  }

  lemma TargetsReadAsWritten(k: Kept, fs: FileSummary, got: FileSummary)
    requires k.targets == KeptTargets(fs.xrefs) && Reads(k, got)
    ensures forall x :: x in got.xrefs <==> exists i :: IsFirstTarget(fs.xrefs, i) && x == fs.xrefs[i]
  {
    hide KeptTargets;
    forall x: ExternalRef
      ensures x in got.xrefs <==> Target(x.kind, x.target) in k.targets && k.targets[Target(x.kind, x.target)] == x.description
    {
      var t := Target(x.kind, x.target);
      if t in k.targets {
        assert t in Targets(got.xrefs);
        var i :| 0 <= i < |got.xrefs| && Targets(got.xrefs)[i] == t;
        assert got.xrefs[i] in got.xrefs;
      }
    }
    forall x: ExternalRef ensures x in got.xrefs <==> exists i :: IsFirstTarget(fs.xrefs, i) && x == fs.xrefs[i] {
      TargetsAreKept(fs.xrefs, x);
    }
  }

  /** The lists come by name, by path, by source symbol and then target path, and by kind and then target, and
      no symbol, import or external reference comes twice. */
  lemma ReadingIsOrdered(k: Kept, got: FileSummary, i: nat, j: nat)
    requires Reads(k, got) && i < j
    ensures j < |got.symbols| ==> Below(got.symbols[i].name, got.symbols[j].name)
    ensures j < |got.imports| ==> Below(got.imports[i], got.imports[j])
    ensures j < |got.refs| ==>
              || Below(got.refs[i].sourceSymbol, got.refs[j].sourceSymbol)
              || (got.refs[i].sourceSymbol == got.refs[j].sourceSymbol && !Below(got.refs[j].targetPath, got.refs[i].targetPath))
    ensures j < |got.xrefs| ==>
              || Below(got.xrefs[i].kind, got.xrefs[j].kind)
              || (got.xrefs[i].kind == got.xrefs[j].kind && Below(got.xrefs[i].target, got.xrefs[j].target))
  {
    if j < |got.symbols| {
      assert Names(got.symbols)[i] == got.symbols[i].name && Names(got.symbols)[j] == got.symbols[j].name;
      NamesAreOrdered(got.symbols[i].name, got.symbols[j].name);
    }
    if j < |got.imports| {
      NamesAreOrdered(got.imports[i], got.imports[j]);
    }
    if j < |got.refs| {
      assert Calls(got.refs)[i] == CallOf(got.refs[i]) && Calls(got.refs)[j] == CallOf(got.refs[j]);
      PairsAreOrdered(got.refs[i].sourceSymbol, got.refs[i].targetPath, got.refs[j].sourceSymbol, got.refs[j].targetPath);
    }
    if j < |got.xrefs| {
      var a, b := Targets(got.xrefs)[i], Targets(got.xrefs)[j];
      assert a != b;
      PairsAreOrdered(a.kind, a.target, b.kind, b.target);
      if a.kind == b.kind {
        NamesAreOrdered(a.target, b.target);
      }
    }
  }

  lemma NamesAreOrdered(a: string, b: string)
    ensures !KeyBelow(NameKey(b), NameKey(a)) <==> !Below(b, a)
    ensures a != b && !Below(b, a) ==> Below(a, b)
  {
    assert NameKey(b)[1..] == [] && NameKey(a)[1..] == [];
    if a != b {
      BelowIsTotal(a, b);
    }
  }

  lemma PairsAreOrdered(a: string, x: string, b: string, y: string)
    requires !KeyBelow([b, y], [a, x])
    ensures Below(a, b) || (a == b && !Below(y, x))
  {
    assert [b, y][1..] == [y] && [a, x][1..] == [x];
    if a != b {
      BelowIsTotal(a, b);
    }
  }

  lemma NamesAreKeys(s: set<string>)
    ensures IsKey(s, NameKey)
  {
    forall x, y | x in s && y in s && NameKey(x) == NameKey(y) ensures x == y {
      assert NameKey(x)[0] == NameKey(y)[0];
    }
  }

  lemma TargetsAreKeys(s: set<Target>)
    ensures IsKey(s, TargetKey)
  {
    forall x, y | x in s && y in s && TargetKey(x) == TargetKey(y) ensures x == y {
      assert TargetKey(x)[0] == TargetKey(y)[0] && TargetKey(x)[1] == TargetKey(y)[1];
    }
  }

  lemma SameNames(k: Kept, a: FileSummary, b: FileSummary)
    requires Reads(k, a) && Reads(k, b)
    ensures a.symbols == b.symbols
  {
    var m, n := Names(a.symbols), Names(b.symbols);
    NamesAreKeys(k.symbols.Keys);
    OneList(m, n, k.symbols.Keys, NameKey);
    forall i | 0 <= i < |a.symbols| ensures a.symbols[i] == b.symbols[i] {
      assert m[i] == n[i] && a.symbols[i] in a.symbols && b.symbols[i] in b.symbols;
    }
  }

  lemma SameTargets(k: Kept, a: FileSummary, b: FileSummary)
    requires Reads(k, a) && Reads(k, b)
    ensures a.xrefs == b.xrefs
  {
    var m, n := Targets(a.xrefs), Targets(b.xrefs);
    TargetsAreKeys(k.targets.Keys);
    OneList(m, n, k.targets.Keys, TargetKey);
    forall i | 0 <= i < |a.xrefs| ensures a.xrefs[i] == b.xrefs[i] {
      assert m[i] == n[i] && a.xrefs[i] in a.xrefs && b.xrefs[i] in b.xrefs;
    }
  }

  // ---------------------------------------------------------------- writing what was read

  /** No symbol that is kept lacks a name or a kind. */
  lemma {:induction false} KeptSymbolsAreNamed(symbols: seq<Symbol>)
    ensures forall n :: n in KeptSymbols(symbols) ==> n != "" && KeptSymbols(symbols)[n].kind != ""
  {
    if symbols != [] {
      KeptSymbolsAreNamed(symbols[..|symbols| - 1]);
    }
  }

  lemma {:induction false} KeptTargetsAreNamed(xrefs: seq<ExternalRef>)
    ensures forall t :: t in KeptTargets(xrefs) ==> t.kind != "" && t.target != ""
  {
    if xrefs != [] {
      KeptTargetsAreNamed(xrefs[..|xrefs| - 1]);
    }
  }

  lemma {:induction false} DistinctSymbolsAreKept(symbols: seq<Symbol>)
    requires forall i, j :: 0 <= i < j < |symbols| ==> symbols[i].name != symbols[j].name
    requires forall s :: s in symbols ==> s.name != "" && s.kind != ""
    ensures KeptSymbols(symbols).Keys == set s | s in symbols :: s.name
    ensures forall s :: s in symbols ==> KeptSymbols(symbols)[s.name] == SymbolRow(s.kind, s.signature, s.description)
  {
    if symbols != [] {
      var n := |symbols| - 1;
      DistinctSymbolsAreKept(symbols[..n]);
      assert forall s :: s in symbols <==> s in symbols[..n] || s == symbols[n];
    }
  }

  lemma {:induction false} DistinctTargetsAreKept(xrefs: seq<ExternalRef>)
    requires forall i, j :: 0 <= i < j < |xrefs| ==> Target(xrefs[i].kind, xrefs[i].target) != Target(xrefs[j].kind, xrefs[j].target)
    requires forall x :: x in xrefs ==> x.kind != "" && x.target != ""
    ensures KeptTargets(xrefs).Keys == set x | x in xrefs :: Target(x.kind, x.target)
    ensures forall x :: x in xrefs ==> KeptTargets(xrefs)[Target(x.kind, x.target)] == x.description
  {
    if xrefs != [] {
      var n := |xrefs| - 1;
      DistinctTargetsAreKept(xrefs[..n]);
      assert forall x :: x in xrefs <==> x in xrefs[..n] || x == xrefs[n];
    }
  }

  lemma ListedSymbolsAreDistinct(symbols: seq<Symbol>, s: set<string>)
    requires Lists(Names(symbols), s, NameKey)
    ensures forall i, j :: 0 <= i < j < |symbols| ==> symbols[i].name != symbols[j].name
  {
    var names := Names(symbols);
    forall i, j | 0 <= i < j < |symbols| ensures symbols[i].name != symbols[j].name {
      assert names[i] != names[j];
    }
  }

  lemma SymbolsSurvive(fs: FileSummary, got: FileSummary)
    requires Reads(KeptOf(fs), got)
    ensures KeptSymbols(got.symbols) == KeptSymbols(fs.symbols)
  {
    hide KeptSymbols;
    var k, names := KeptSymbols(fs.symbols), Names(got.symbols);
    KeptSymbolsAreNamed(fs.symbols);
    ListedSymbolsAreDistinct(got.symbols, k.Keys);
    DistinctSymbolsAreKept(got.symbols);
    forall n | n in k ensures n in KeptSymbols(got.symbols) {
      assert n in names;
      var i :| 0 <= i < |names| && names[i] == n;
      assert got.symbols[i] in got.symbols;
    }
  }

  lemma ListedTargetsAreDistinct(xrefs: seq<ExternalRef>, s: set<Target>)
    requires Lists(Targets(xrefs), s, TargetKey)
    ensures forall i, j :: 0 <= i < j < |xrefs|
              ==> Target(xrefs[i].kind, xrefs[i].target) != Target(xrefs[j].kind, xrefs[j].target)
  {
    var ts := Targets(xrefs);
    forall i, j | 0 <= i < j < |xrefs|
      ensures Target(xrefs[i].kind, xrefs[i].target) != Target(xrefs[j].kind, xrefs[j].target)
    {
      assert ts[i] != ts[j];
    }
  }

  lemma TargetsSurvive(fs: FileSummary, got: FileSummary)
    requires Reads(KeptOf(fs), got)
    ensures KeptTargets(got.xrefs) == KeptTargets(fs.xrefs)
  {
    hide KeptTargets;
    var k, ts := KeptTargets(fs.xrefs), Targets(got.xrefs);
    KeptTargetsAreNamed(fs.xrefs);
    ListedTargetsAreDistinct(got.xrefs, k.Keys);
    DistinctTargetsAreKept(got.xrefs);
    forall t | t in k ensures t in KeptTargets(got.xrefs) {
      assert t in ts;
      var i :| 0 <= i < |ts| && ts[i] == t;
      assert got.xrefs[i] in got.xrefs;
    }
  }

  lemma CallsSurvive(fs: FileSummary, got: FileSummary)
    requires Reads(KeptOf(fs), got)
    ensures KeptCalls(got.refs) == KeptCalls(fs.refs)
  {
    var k, cs := KeptCalls(fs.refs), Calls(got.refs);
    forall r | r in got.refs ensures IsComplete(r) && CallOf(r) in k {
      var i :| 0 <= i < |got.refs| && got.refs[i] == r;
      assert cs[i] == CallOf(r) && cs[i] in cs;
    }
    forall c | c in k ensures c in KeptCalls(got.refs) {
      assert c in cs;
      var i :| 0 <= i < |cs| && cs[i] == c;
      assert got.refs[i] in got.refs;
    }
  }

  /** Writing back what was read of a written summary changes nothing. */
  lemma WriteReadWrite(fs: FileSummary, got: FileSummary)
    requires Reads(KeptOf(fs), got)
    ensures KeptOf(got) == KeptOf(fs)
  {
    SymbolsSurvive(fs, got);
    CallsSurvive(fs, got);
    TargetsSurvive(fs, got);
  }

  // ---------------------------------------------------------------- sequences of operations

  datatype Operation = Upsert(fs: FileSummary) | Remove(paths: seq<Path>)

  predicate Touches(op: Operation, p: Path) {
    match op case Upsert(fs) => fs.path == p case Remove(paths) => p in paths
  }

  function After(view: map<Path, Kept>, ops: seq<Operation>): map<Path, Kept> {
    if ops == [] then view
    else
      var v := After(view, ops[..|ops| - 1]);
      match ops[|ops| - 1]
      case Upsert(fs) => v[fs.path := KeptOf(fs)]
      case Remove(paths) => v - SetOf(paths)
  }

  /** A path reads as the last operation on it left it, whatever happened to other paths. */
  lemma {:induction false} LastOperationDecides(view: map<Path, Kept>, ops: seq<Operation>, p: Path, i: nat)
    requires i < |ops| && Touches(ops[i], p) && forall j :: i < j < |ops| ==> !Touches(ops[j], p)
    ensures p in After(view, ops) <==> ops[i].Upsert?
    ensures ops[i].Upsert? ==> After(view, ops)[p] == KeptOf(ops[i].fs)
  {
    var n := |ops| - 1;
    if i < n {
      assert !Touches(ops[n], p);
      LastOperationDecides(view, ops[..n], p, i);
    }
  }

  lemma {:induction false} UntouchedPathStays(view: map<Path, Kept>, ops: seq<Operation>, p: Path)
    requires forall j :: 0 <= j < |ops| ==> !Touches(ops[j], p)
    ensures p in After(view, ops) <==> p in view
    ensures p in view ==> After(view, ops)[p] == view[p]
  {
    if ops != [] {
      var n := |ops| - 1;
      assert !Touches(ops[n], p);
      UntouchedPathStays(view, ops[..n], p);
    }
  }

  // ---------------------------------------------------------------- the store

  /** `view` holds exactly what the tables hold. */
  class Store {
    var files: map<Path, FileRow>
    var symbols: map<(Path, string), SymbolRow>
    var imports: set<(Path, Path)>
    var calls: set<(Path, Call)>
    var targets: map<(Path, Target), string>

    function Now(): Tables
      reads this
    {
      Tables(files, symbols, imports, calls, targets)
    }

    ghost predicate Valid()
      reads this
    {
      Now().Valid()
    }

    function View(): map<Path, Kept>
      reads this
    {
      Now().View()
    }

    constructor ()
      ensures Valid() && View() == map[]
    {
      files, symbols, imports, calls, targets := map[], map[], {}, {}, map[];
    }

    /** Writes one file and its children in a transaction that may be rolled back on any error. */
    method UpsertSummary(fs: FileSummary) returns (ok: bool)
      requires Valid()
      modifies this
      ensures Valid()
      ensures View() == if ok then old(View())[fs.path := KeptOf(fs)] else old(View())
    {
      hide KeptSymbols, KeptImports, KeptCalls, KeptTargets, RowsOf, RowsWithout, KeysOf, KeysWithout;
      var syms := InsertSymbols(symbols, fs.path, fs.symbols);
      var imps := InsertImports(imports, fs.path, fs.imports);
      var refs := InsertRefs(calls, fs.path, fs.refs);
      var xrs := InsertXrefs(targets, fs.path, fs.xrefs);
      ok := *;
      if ok {
        ghost var before := Now();
        files := files[fs.path := fs.row];
        symbols, imports, calls, targets := syms, imps, refs, xrs;
        UpsertedView(before, Now(), fs);
      }
    }

    /** Deletes files; the foreign keys cascade. */
    method RemovePaths(paths: seq<Path>) returns (ok: bool)
      requires Valid()
      modifies this
      ensures Valid()
      ensures View() == if ok then old(View()) - SetOf(paths) else old(View())
    {
      var fs, syms, imps, refs, xrs := files, symbols, imports, calls, targets;
      for i := 0 to |paths|
        invariant fs == files - SetOf(paths[..i])
        invariant syms == RowsWithout(symbols, SetOf(paths[..i]))
        invariant imps == KeysWithout(imports, SetOf(paths[..i]))
        invariant refs == KeysWithout(calls, SetOf(paths[..i]))
        invariant xrs == RowsWithout(targets, SetOf(paths[..i]))
      {
        var p := paths[i];
        assert SetOf(paths[..i + 1]) == SetOf(paths[..i]) + {p} by {
          assert paths[..i + 1] == paths[..i] + [p];
        }
        fs := fs - {p};
        syms, imps, refs, xrs := RowsWithout(syms, {p}), KeysWithout(imps, {p}), KeysWithout(refs, {p}), RowsWithout(xrs, {p});
      }
      assert paths[..|paths|] == paths;
      ok := *;
      if ok {
        ghost var before := Now();
        files, symbols, imports, calls, targets := fs, syms, imps, refs, xrs;
        RemovedView(before, Now(), SetOf(paths));
      }
    }

    /** GetSummary: the row with its children in the order of their keys. */
    method GetSummary(path: Path) returns (r: Option<FileSummary>)
      requires Valid()
      ensures r.Some? <==> path in View()
      ensures r.Some? ==> r.value.path == path && Reads(View()[path], r.value)
    {
      if path !in files {
        return None;
      }
      var syms := ListSymbols(RowsOf(symbols, path));
      var imps := OrderBy(KeysOf(imports, path), NameKey);
      var refs := ListRefs(path, KeysOf(calls, path));
      var xrs := ListXrefs(RowsOf(targets, path));
      return Some(FileSummary(path, files[path], syms, imps, refs, xrs));
    }

    /** A sequence of operations that all commit. */
    method Perform(ops: seq<Operation>) returns (done: nat)
      requires Valid()
      modifies this
      ensures Valid() && done <= |ops| && View() == After(old(View()), ops[..done])
    {
      done := 0;
      while done < |ops|
        invariant done <= |ops| && Valid() && View() == After(old(View()), ops[..done])
      {
        var ok := false;
        match ops[done] {
          case Upsert(fs) => ok := UpsertSummary(fs);
          case Remove(paths) => ok := RemovePaths(paths);
        }
        if !ok {
          return;
        }
        assert ops[..done + 1][..done] == ops[..done];
        done := done + 1;
      }
    }
  }
}
