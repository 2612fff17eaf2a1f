/** What it means for a line of a file to be a quoted one, said of the lines as they are written, and that
    comments land on such lines. */
module LineQuotes {
  import opened Options
  import opened TextLines
  import opened DiffHunks
  import opened LineResolver
  import opened LineAddresses
  import opened Strings

  /** `s` is `r` with white space and a diff mark `m` around it, the longest mark there is. */
  predicate Strips(s: string, a: string, m: string, b: string, r: string, c: string) {
    && s == a + m + b + r + c
    && IsPad(a) && IsPad(b) && IsPad(c) && IsBare(r)
    && (m == "" || m == "+" || m == "-" || m == "+-")
    && (m == "" && r != "" ==> r[0] != '+' && r[0] != '-')
    && (m == "+" && b == "" && r != "" ==> r[0] != '-')
  }

  ghost predicate StripsTo(s: string, r: string) {
    exists a, m, b, c :: Strips(s, a, m, b, r, c)
  }

  lemma MarkIsNoSpace()
    ensures !IsSpace('+') && !IsSpace('-')
  {
  }

  lemma CutMark(core: string) returns (m: string, rest: string)
    requires IsBare(core)
    ensures core == m + rest && TrimPrefix(TrimPrefix(core, "+"), "-") == rest
    ensures m == "" || m == "+" || m == "-" || m == "+-"
    ensures m == "" && rest != "" ==> rest[0] != '+' && rest[0] != '-'
    ensures m == "+" && rest != "" ==> rest[0] != '-'
    ensures m == "" ==> rest == core
  {
    if "+" <= core {
      rest := core[1..];
      m := "+";
      if "-" <= rest {
        rest := rest[1..];
        m := "+-";
      }
    } else if "-" <= core {
      rest := core[1..];
      m := "-";
    } else {
      rest := core;
      m := "";
    }
  }

  /** Normalising a line takes off exactly that. */
  lemma NormalizeStrips(s: string)
    ensures StripsTo(s, Normalize(s))
  {
    hide TrimSpace, IsSpace;
    var a, c := TrimMeans(s);
    var core := TrimSpace(s);
    var m, rest := CutMark(core);
    var b, d := TrimMeans(rest);
    var r := TrimSpace(rest);
    if m == "" {
      NoPad();
      BareStays(core);
      assert "" + core == core && a + "" + "" + core + c == a + core + c;
      assert Strips(s, a, "", "", core, c);
    } else {
      assert a + (m + (b + r + d)) + c == a + m + b + r + (d + c);
      assert Strips(s, a, m, b, r, d + c);
    }
  }

  lemma BareStays(s: string)
    requires IsBare(s)
    ensures TrimSpace(s) == s
  {
    hide IsSpace;
    if s == "" {
      NoPad();
      PadIsTrimmed("");
    } else {
      hide TrimSpace;
      TrimSolid(s);
    }
  }

  lemma BetweenPads(a: string, r: string, c: string)
    requires IsPad(a) && IsPad(c) && IsBare(r)
    ensures TrimSpace(a + r + c) == r
  {
    hide TrimSpace, IsSpace;
    if r == "" {
      assert a + "" + c == a + c;
      PadIsTrimmed(a + c);
    } else {
      TrimPadded(a, r, c);
    }
  }

  lemma MarksAreCut(m: string, rest: string)
    requires m == "+" || m == "-" || m == "+-"
    requires m == "+" && rest != "" ==> rest[0] != '-'
    ensures TrimPrefix(TrimPrefix(m + rest, "+"), "-") == rest
  {
    var core := m + rest;
    assert m == "+-" ==> core[1..] == "-" + rest;
    assert m != "+-" ==> core[1..] == rest;
    assert m == "-" ==> core[0] == '-';
  }

  lemma MarkedIsBare(m: string, rest: string)
    requires (m == "+" || m == "-" || m == "+-") && (rest != "" ==> !IsSpace(rest[|rest| - 1]))
    ensures IsBare(m + rest)
  {
    MarkIsNoSpace();
  }

  lemma MarkedCore(m: string, b: string, r: string)
    requires (m == "+" || m == "-" || m == "+-") && IsPad(b) && IsBare(r)
    requires m == "+" && b == "" && r != "" ==> r[0] != '-'
    ensures var core := if r == "" then m else m + (b + r);
            IsBare(core) && TrimSpace(TrimPrefix(TrimPrefix(core, "+"), "-")) == r
  {
    MarkIsNoSpace();
    hide TrimSpace, IsSpace, TrimPrefix;
    assert b != "" ==> b[0] in b && IsSpace(b[0]);
    if r == "" {
      assert m + "" == m;
      MarksAreCut(m, "");
      BareStays("");
      MarkedIsBare(m, "");
    } else {
      assert (b + r)[|b + r| - 1] == r[|r| - 1];
      MarksAreCut(m, b + r);
      MarkedIsBare(m, b + r);
      NoPad();
      BetweenPads(b, r, "");
      assert b + r + "" == b + r;
    }
  }

  /** There is one way to take it off. */
  lemma StripsIsUnique(s: string, r: string)
    requires StripsTo(s, r)
    ensures r == Normalize(s)
  {
    hide TrimSpace, IsSpace;
    var a, m, b, c :| Strips(s, a, m, b, r, c);
    if m == "" {
      assert s == (a + b) + r + c;
      BetweenPads(a + b, r, c);
      BareStays(r);
    } else {
      var core := if r == "" then m else m + (b + r);
      MarkedCore(m, b, r);
      if r == "" {
        assert s == a + core + (b + c);
        BetweenPads(a, core, b + c);
      } else {
        assert s == a + core + c;
        BetweenPads(a, core, c);
      }
    }
  }

  /** A line without white space at its ends and without a mark in front stays as it is. */
  lemma PlainLineStays(s: string)
    requires IsBare(s) && (s != "" ==> s[0] != '+' && s[0] != '-')
    ensures Normalize(s) == s
  {
    hide Normalize, IsSpace;
    NoPad();
    assert "" + "" + "" + s + "" == s;
    assert Strips(s, "", "", "", s, "");
    StripsIsUnique(s, s);
  }

  // ---------------------------------------------------------------- quoted lines

  /** The two lines have the same text between such ends. */
  ghost predicate SameLine(x: string, y: string) {
    exists r :: StripsTo(x, r) && StripsTo(y, r)
  }

  lemma SameLineIff(x: string, y: string)
    ensures SameLine(x, y) <==> Normalize(x) == Normalize(y)
  {
    hide StripsTo, Normalize;
    NormalizeStrips(x);
    NormalizeStrips(y);
    if SameLine(x, y) {
      var r :| StripsTo(x, r) && StripsTo(y, r);
      StripsIsUnique(x, r);
      StripsIsUnique(y, r);
    }
  }

  lemma BlankIff(x: string)
    ensures StripsTo(x, "") <==> Normalize(x) == ""
  {
    hide StripsTo, Normalize;
    NormalizeStrips(x);
    if StripsTo(x, "") {
      StripsIsUnique(x, "");
    }
  }

  /** The lines that are not blank, as they are written. */
  ghost function Written(lines: seq<string>): seq<string> {
    if lines == [] then []
    else
      var n := |lines| - 1;
      Written(lines[..n]) + if StripsTo(lines[n], "") then [] else [lines[n]]
  }

  lemma {:induction false} WrittenStrips(lines: seq<string>)
    ensures |Written(lines)| == |NonBlank(lines)|
    ensures forall k :: 0 <= k < |NonBlank(lines)| ==> Normalize(Written(lines)[k]) == NonBlank(lines)[k]
    decreases |lines|
  {
    hide StripsTo, Normalize;
    if lines != [] {
      WrittenStrips(lines[..|lines| - 1]);
      BlankIff(lines[|lines| - 1]);
    }
  }

  /** The quoted lines of a comment's code. */
  ghost function QuotedLines(code: string): seq<string> {
    Written(Split(code))
  }

  /** The lines of the span are the quoted lines, one by one. */
  ghost predicate Shows(file: seq<string>, span: Span, quoted: seq<string>) {
    && 1 <= span.start && span.end <= |file| && span.end - span.start + 1 == |quoted|
    && forall j :: 0 <= j < |quoted| ==> SameLine(file[span.start - 1 + j], quoted[j])
  }

  lemma QuotesShow(file: seq<string>, span: Span, code: string)
    requires Quotes(file, span, Target(code))
    ensures Shows(file, span, QuotedLines(code))
  {
    hide Normalize, SameLine;
    var q := QuotedLines(code);
    WrittenStrips(Split(code));
    forall j | 0 <= j < |q| ensures SameLine(file[span.start - 1 + j], q[j]) {
      SameLineIff(file[span.start - 1 + j], q[j]);
    }
  }

  /** The quoted lines stand somewhere on that side of the hunk. */
  ghost predicate ShownAt(text: seq<string>, quoted: seq<string>, w: nat) {
    w + |quoted| <= |text| && forall j :: 0 <= j < |quoted| ==> SameLine(text[w + j], quoted[j])
  }

  lemma ShownIsWindow(h: Hunk, newSide: bool, code: string, w: nat)
    requires ShownAt(SideText(h.lines, newSide), QuotedLines(code), w)
    ensures WindowAt(Side(h, newSide), Target(code), w)
  {
    hide Normalize, SameLine, SideText;
    var text, q, target := SideText(h.lines, newSide), QuotedLines(code), Target(code);
    WrittenStrips(Split(code));
    forall j | 0 <= j < |target| ensures Side(h, newSide)[w + j].content == target[j] {
      SameLineIff(text[w + j], q[j]);
    }
  }

  /** Of hunks that turn the old file into the new one, a comment that quotes anything lands on lines of the
      new file that are its quoted lines, or of the old file if no hunk's new side holds them; and it is
      left without lines only if no side of any hunk holds them. */
  lemma HunksShowTheQuote(d: Diff, code: string, old_: seq<string>, new_: seq<string>)
    requires Transforms(HunksOf(Split(d.diff)), old_, new_) && QuotedLines(code) != []
    ensures var hunks, q := HunksOf(Split(d.diff)), QuotedLines(code);
            match FromHunks(d, code)
            case Some(span) =>
              || Shows(new_, span, q)
              || (Shows(old_, span, q) && forall i, w: nat :: 0 <= i < |hunks| ==> !ShownAt(SideText(hunks[i].lines, true), q, w))
            case None =>
              forall i, w: nat, newSide :: 0 <= i < |hunks| ==> !ShownAt(SideText(hunks[i].lines, newSide), q, w)
  {
    hide Normalize, SameLine, Transforms, Quotes, Shows, ShownAt, Match, WindowAt, SideText;
    var hunks, q := HunksOf(Split(d.diff)), QuotedLines(code);
    WrittenStrips(Split(code));
    HunkResolutionQuotes(d, code, old_, new_);
    match FromHunks(d, code)
    case Some(span) =>
      if MatchHunks(hunks, true, Target(code)).Some? {
        QuotesShow(new_, span, code);
      } else {
        QuotesShow(old_, span, code);
        forall i, w: nat | 0 <= i < |hunks| ensures !ShownAt(SideText(hunks[i].lines, true), q, w) {
          UnmatchedHunks(hunks, true, Target(code), i, w);
          if ShownAt(SideText(hunks[i].lines, true), q, w) {
            ShownIsWindow(hunks[i], true, code, w);
          }
        }
      }
    case None =>
      forall i, w: nat, newSide | 0 <= i < |hunks| ensures !ShownAt(SideText(hunks[i].lines, newSide), q, w) {
        if ShownAt(SideText(hunks[i].lines, newSide), q, w) {
          ShownIsWindow(hunks[i], newSide, code, w);
        }
      }
  }

  // ---------------------------------------------------------------- the file

  /** The span begins and ends on a line that is not blank, and its lines that are not blank are the quoted
      ones, one by one. */
  ghost predicate Spans(lines: seq<string>, span: Span, quoted: seq<string>) {
    && 1 <= span.start <= span.end <= |lines|
    && !StripsTo(lines[span.start - 1], "") && !StripsTo(lines[span.end - 1], "")
    && ShownAt(Written(lines[span.start - 1..span.end]), quoted, 0)
    && |Written(lines[span.start - 1..span.end])| == |quoted|
  }

  lemma FileShowsTheQuote(d: Diff, code: string)
    ensures var lines, q := Split(d.newFileContent), QuotedLines(code);
            match FromFile(d, code)
            case Some(span) => q != [] && Spans(lines, span, q)
            case None => d.newFileContent == "" || q == [] || forall w: nat :: !ShownAt(Written(lines), q, w)
  {
    hide Normalize, SameLine, Match, StripsTo, Written, ShownAt, NonBlank;
    var lines, q := Split(d.newFileContent), QuotedLines(code);
    WrittenStrips(Split(code));
    match FromFile(d, code)
    case Some(span) =>
      FileResolutionQuotes(d, code, span);
      SpanShows(lines, span, code);
    case None =>
      if d.newFileContent != "" && q != [] {
        forall w: nat ensures !ShownAt(Written(lines), q, w) {
          if ShownAt(Written(lines), q, w) {
            ShownInFile(lines, code, w);
            MatchFinds(FileLines(lines), Target(code), w);
          }
        }
      }
  }

  lemma MatchFinds(side: seq<IndexedLine>, target: seq<string>, w: nat)
    requires WindowAt(side, target, w) && target != []
    ensures Match(side, target).Some?
  {
    FirstWindowIsFirst(side, target, 0, w);
  }

  lemma ShownInFile(lines: seq<string>, code: string, w: nat)
    requires ShownAt(Written(lines), QuotedLines(code), w)
    ensures WindowAt(FileLines(lines), Target(code), w)
  {
    hide Normalize, SameLine, StripsTo, Written, NonBlank, FileLines;
    WrittenStrips(lines);
    WrittenStrips(Split(code));
    FileLinesCount(lines);
    var text, q, target := Written(lines), QuotedLines(code), Target(code);
    forall j | 0 <= j < |target| ensures FileLines(lines)[w + j].content == target[j] {
      SameLineIff(text[w + j], q[j]);
    }
  }

  lemma SpanShows(lines: seq<string>, span: Span, code: string)
    requires IsText(lines, span) && NonBlank(lines[span.start - 1..span.end]) == Target(code)
    ensures Spans(lines, span, QuotedLines(code))
  {
    hide Normalize, SameLine, StripsTo, Written, NonBlank;
    var some, q := lines[span.start - 1..span.end], QuotedLines(code);
    BlankIff(lines[span.start - 1]);
    BlankIff(lines[span.end - 1]);
    WrittenStrips(some);
    WrittenStrips(Split(code));
    forall j | 0 <= j < |q| ensures SameLine(Written(some)[0 + j], q[j]) {
      SameLineIff(Written(some)[j], q[j]);
    }
  }

  /** A comment is resolved from the hunks, or from the file where they hold nothing. */
  lemma ResolvedFromEither(d: Diff, code: string)
    ensures Resolve(d, code) ==
            if FromHunks(d, code).Some? then FromHunks(d, code) else FromFile(d, code)
  {
    hide Normalize;
    if code == "" {
      assert Split("") == [""];
      BlankIsBlank();
      assert [""][..0] == [];
      assert NonBlank([""]) == [];
      NothingMatches(HunksOf(Split(d.diff)), true);
      NothingMatches(HunksOf(Split(d.diff)), false);
    }
  }

  // ---------------------------------------------------------------- other files

  /** The hits of a comment are the places its code has in the diffs of other paths. */
  lemma {:induction false} HitsAreElsewhere(diffs: seq<Diff>, path: string, code: string, h: Hit)
    ensures h in Hits(diffs, path, code) <==>
            exists i :: 0 <= i < |diffs| && diffs[i].newPath != path && diffs[i].oldPath != path
                        && Resolve(diffs[i], code) == Some(h.span)
                        && h.path == if diffs[i].newPath == "" then diffs[i].oldPath else diffs[i].newPath
    decreases |diffs|
  {
    hide Resolve;
    if diffs != [] {
      HitsAreElsewhere(diffs[1..], path, code, h);
      assert forall i :: 1 <= i < |diffs| ==> diffs[i] == diffs[1..][i - 1];
      assert forall i :: 0 <= i < |diffs| - 1 ==> diffs[1..][i] == diffs[i + 1];
    }
  }
}
