/** Flattening the use-trees of Rust sources (internal/extract/rust.go). */
module RustUse {
  import opened Options
  import opened Strings

  const SCOPE := "::"
  const STAR := "::*"
  const AS := " as "

  // ---------------------------------------------------------------- counting braces

  function Opens(s: string): nat {
    if s == "" then 0 else Opens(s[..|s| - 1]) + if s[|s| - 1] == '{' then 1 else 0
  }

  lemma {:induction false} OpensConcat(a: string, b: string)
    ensures Opens(a + b) == Opens(a) + Opens(b)
    decreases |b|
  {
    if b == "" {
      assert a + b == a;
    } else {
      OpensConcat(a, b[..|b| - 1]);
      assert (a + b)[..|a + b| - 1] == a + b[..|b| - 1];
    }
  }

  lemma OpensSlice(s: string, i: nat, j: nat)
    requires i <= j <= |s|
    ensures Opens(s[i..j]) <= Opens(s)
  {
    OpensConcat(s[..i], s[i..j]);
    OpensConcat(s[..i] + s[i..j], s[j..]);
    assert s == s[..i] + s[i..j] + s[j..];
  }

  lemma {:induction false} NoOpens(s: string)
    ensures Opens(s) == 0 <==> '{' !in s
    decreases |s|
  {
    if s != "" {
      NoOpens(s[..|s| - 1]);
      assert s == s[..|s| - 1] + [s[|s| - 1]];
    }
  }

  lemma OpensTrim(s: string)
    ensures Opens(TrimSpace(s)) <= Opens(s)
  {
    var i, j := TrimIsSlice(s);
    OpensSlice(s, i, j);
  }

  // ---------------------------------------------------------------- the pieces of the parser

  function FirstOpen(s: string): (i: nat)
    requires '{' in s
    ensures i < |s| && s[i] == '{' && '{' !in s[..i]
  {
    if s[0] == '{' then 0
    else
      var k := FirstOpen(s[1..]);
      assert s[..k + 1] == [s[0]] + s[1..][..k];
      k + 1
  }

  /** The closing brace that takes the depth back to zero. */
  function MatchClose(s: string, i: nat, depth: int): (r: Option<nat>)
    requires i <= |s|
    ensures r.Some? ==> i <= r.value < |s|
    decreases |s| - i
  {
    if i == |s| then None
    else if s[i] == '{' then MatchClose(s, i + 1, depth + 1)
    else if s[i] == '}' then if depth - 1 == 0 then Some(i) else MatchClose(s, i + 1, depth - 1)
    else MatchClose(s, i + 1, depth)
  }

  function Deeper(c: char, depth: int): int {
    if c == '{' then depth + 1 else if c == '}' then depth - 1 else depth
  }

  /** The text cut at its commas of depth zero, when it begins at `depth`. */
  function Parts(s: string, depth: int): (r: seq<string>)
    ensures r != []
    decreases |s|
  {
    if s == "" then [""]
    else if s[0] == ',' && depth == 0 then [""] + Parts(s[1..], depth)
    else
      var rest := Parts(s[1..], Deeper(s[0], depth));
      [[s[0]] + rest[0]] + rest[1..]
  }

  lemma {:induction false} PartsAreSlices(s: string, depth: int, k: nat) returns (i: nat, j: nat)
    requires k < |Parts(s, depth)|
    ensures i <= j <= |s| && Parts(s, depth)[k] == s[i..j] && (k == 0 ==> i == 0)
    decreases |s|
  {
    if s == "" {
      i, j := 0, 0;
    } else if s[0] == ',' && depth == 0 {
      if k == 0 {
        i, j := 0, 0;
      } else {
        i, j := PartsAreSlices(s[1..], depth, k - 1);
        assert s[1..][i..j] == s[i + 1..j + 1];
        i, j := i + 1, j + 1;
      }
    } else {
      i, j := PartsAreSlices(s[1..], Deeper(s[0], depth), k);
      assert s[1..][i..j] == s[i + 1..j + 1];
      if k == 0 {
        assert s[0..j + 1] == [s[0]] + s[1..][0..j];
        i, j := 0, j + 1;
      } else {
        i, j := i + 1, j + 1;
      }
    }
  }

  lemma OpensOfParts(s: string, n: nat)
    requires Opens(s) <= n
    ensures forall k :: 0 <= k < |Parts(s, 0)| ==> Opens(Parts(s, 0)[k]) <= n
  {
    forall k | 0 <= k < |Parts(s, 0)| ensures Opens(Parts(s, 0)[k]) <= n {
      var i, j := PartsAreSlices(s, 0, k);
      OpensSlice(s, i, j);
    }
  }

  /** The parts when `done` are cut off already and `open` is what has been read of the next one. */
  function PartsBehind(done: seq<string>, open: string, s: string, depth: int): seq<string> {
    done + [open + Parts(s, depth)[0]] + Parts(s, depth)[1..]
  }

  lemma PartsStep(done: seq<string>, open: string, s: string, depth: int)
    requires s != ""
    ensures PartsBehind(done, open, s, depth) ==
            if s[0] == ',' && depth == 0 then PartsBehind(done + [open], "", s[1..], depth)
            else PartsBehind(done, open + [s[0]], s[1..], Deeper(s[0], depth))
  {
    if s[0] == ',' && depth == 0 {
      var rest := Parts(s[1..], depth);
      assert open + "" == open && "" + rest[0] == rest[0];
      assert rest == [rest[0]] + rest[1..];
    } else {
      var rest := Parts(s[1..], Deeper(s[0], depth));
      assert open + ([s[0]] + rest[0]) == open + [s[0]] + rest[0];
    }
  }

  method SplitTopLevelCommas(s: string) returns (out: seq<string>)
    ensures out == Parts(s, 0)
  {
    hide Parts, PartsBehind;
    out := [];
    var depth := 0;
    var start := 0;
    PartsAtStart(s);
    for i := 0 to |s|
      invariant start <= i
      invariant PartsBehind([], "", s, 0) == PartsBehind(out, s[start..i], s[i..], depth)
    {
      PartsStep(out, s[start..i], s[i..], depth);
      assert s[i..][1..] == s[i + 1..] && s[start..i] + [s[i]] == s[start..i + 1] && s[i + 1..i + 1] == "";
      match s[i] {
        case '{' => depth := depth + 1;
        case '}' => depth := depth - 1;
        case ',' =>
          if depth == 0 {
            out := out + [s[start..i]];
            start := i + 1;
          }
        case _ =>
      }
    }
    PartsAtEnd(out, s[start..]);
    assert s[start..|s|] == s[start..] && s[|s|..] == "";
    out := out + [s[start..]];
  }

  lemma PartsAtStart(s: string)
    ensures PartsBehind([], "", s, 0) == Parts(s, 0) && s[0..0] == "" && s[0..] == s
  {
    assert "" + Parts(s, 0)[0] == Parts(s, 0)[0];
  }

  lemma PartsAtEnd(done: seq<string>, open: string)
    ensures forall depth :: PartsBehind(done, open, "", depth) == done + [open]
  {
    assert open + "" == open;
  }

  /** A clause without braces: no trailing glob, no alias. */
  function Single(clause: string): seq<string> {
    var c := TrimSuffix(TrimSpace(clause), STAR);
    var d := match Index(c, AS, 0) case Some(i) => TrimSpace(c[..i]) case None => c;
    if d == "" then [] else [d]
  }

  function Join(prefix: string, part: string): string {
    if prefix != "" then prefix + SCOPE + part else part
  }

  lemma OpensJoin(prefix: string, part: string)
    requires '{' !in prefix
    ensures Opens(Join(prefix, TrimSpace(part))) <= Opens(part)
  {
    OpensTrim(part);
    NoOpens(prefix);
    NoOpens(SCOPE);
    OpensConcat(prefix, SCOPE);
    OpensConcat(prefix + SCOPE, TrimSpace(part));
  }

  /** What stands in front of the first brace. */
  function Front(clause: string): (p: string)
    requires '{' in clause
    ensures '{' !in p
  {
    var open := FirstOpen(clause);
    FrontHasNoBrace(clause[..open]);
    TrimSuffix(TrimSpace(clause[..open]), SCOPE)
  }

  lemma FrontHasNoBrace(s: string)
    requires '{' !in s
    ensures '{' !in TrimSuffix(TrimSpace(s), SCOPE)
  {
    var i, j := TrimIsSlice(s);
    assert forall c :: c in s[i..j] ==> c in s;
    assert forall c :: c in TrimSuffix(s[i..j], SCOPE) ==> c in s[i..j];
  }

  lemma InnerOpens(clause: string, open: nat, close: nat)
    requires open < close <= |clause| && clause[open] == '{'
    ensures Opens(clause[open + 1..close]) < Opens(clause)
  {
    OpensConcat(clause[..open], clause[open..open + 1]);
    OpensConcat(clause[..open + 1], clause[open + 1..close]);
    OpensConcat(clause[..close], clause[close..]);
    assert clause[..open + 1] == clause[..open] + clause[open..open + 1];
    assert clause[..close] == clause[..open + 1] + clause[open + 1..close];
    assert clause == clause[..close] + clause[close..];
    assert clause[open..open + 1][..0] == "";
  }

  lemma CloseIsBehind(clause: string, open: nat)
    requires open < |clause| && clause[open] == '{' && MatchClose(clause, open, 0).Some?
    ensures open < MatchClose(clause, open, 0).value
  {
  }

  /** The number of opening braces falls with every level, so the recursion ends. */
  function Expand(clause: string): seq<string>
    decreases Opens(clause), 0
  {
    if '{' !in clause then Single(clause)
    else
      var open := FirstOpen(clause);
      match MatchClose(clause, open, 0)
      case None => [Front(clause)]
      case Some(close) =>
        CloseIsBehind(clause, open);
        InnerOpens(clause, open, close);
        var inner := clause[open + 1..close];
        OpensOfParts(inner, Opens(inner));
        ExpandParts(Front(clause), Parts(inner, 0), Opens(inner))
  }

  function ExpandParts(prefix: string, parts: seq<string>, ghost n: nat): seq<string>
    requires '{' !in prefix && forall k :: 0 <= k < |parts| ==> Opens(parts[k]) <= n
    decreases n, |parts| + 1
  {
    if parts == [] then []
    else
      var m := |parts| - 1;
      var part := TrimSpace(parts[m]);
      OpensJoin(prefix, parts[m]);
      ExpandParts(prefix, parts[..m], n)
      + if part == "self" then (if prefix != "" then [prefix] else []) else Expand(Join(prefix, part))
  }

  method ExpandSingle(clause: string) returns (out: seq<string>)
    ensures out == Single(clause)
  {
    var c := TrimSpace(clause);
    if |c| >= |STAR| && c[|c| - |STAR|..] == STAR {
      c := c[..|c| - |STAR|];
    }
    var idx := Index(c, AS, 0);
    if idx.Some? {
      c := TrimSpace(c[..idx.value]);
    }
    if c == "" {
      return [];
    }
    return [c];
  }

  method FindClose(clause: string, open: nat) returns (close: Option<nat>)
    requires open <= |clause|
    ensures close == MatchClose(clause, open, 0)
  {
    var depth := 0;
    for i := open to |clause|
      invariant MatchClose(clause, open, 0) == MatchClose(clause, i, depth)
    {
      match clause[i] {
        case '{' => depth := depth + 1;
        case '}' =>
          depth := depth - 1;
          if depth == 0 {
            return Some(i);
          }
        case _ =>
      }
    }
    return None;
  }

  method ExpandRustUse(clause: string) returns (out: seq<string>)
    ensures out == Expand(clause)
    decreases Opens(clause)
  {
    if '{' !in clause {
      out := ExpandSingle(clause);
      return;
    }
    var open := FirstOpen(clause);
    var prefix := TrimSuffix(TrimSpace(clause[..open]), SCOPE);
    FrontHasNoBrace(clause[..open]);
    var close := FindClose(clause, open);
    if close.None? {
      return [prefix];
    }
    CloseIsBehind(clause, open);
    InnerOpens(clause, open, close.value);
    var inner := clause[open + 1..close.value];
    var parts := SplitTopLevelCommas(inner);
    OpensOfParts(inner, Opens(inner));
    out := [];
    for i := 0 to |parts|
      invariant out == ExpandParts(prefix, parts[..i], Opens(inner))
    {
      var part := TrimSpace(parts[i]);
      assert parts[..i + 1][..i] == parts[..i];
      if part == "self" {
        if prefix != "" {
          out := out + [prefix];
        }
        continue;
      }
      var joined := part;
      if prefix != "" {
        joined := prefix + SCOPE + part;
      }
      OpensJoin(prefix, parts[i]);
      var more := ExpandRustUse(joined);
      out := out + more;
    }
    assert parts[..|parts|] == parts;
  }
}
