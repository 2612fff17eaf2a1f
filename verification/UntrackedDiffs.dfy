/** The diffs synthesised for untracked files (untrackedFileDiffs and its use in GetDiff,
    internal/diff/git.go), and reading them back. */
module UntrackedDiffs {
  import opened Options
  import opened TextLines
  import opened DiffHunks
  import opened DiffParser
  import opened Strings

  /** An untracked file; `content` is missing when it could not be read. */
  datatype WorkFile = WorkFile(path: string, content: Option<string>)

  // ---------------------------------------------------------------- the printer

  /** The file's lines; a trailing newline ends the last one. */
  function ContentLines(content: string): seq<string> {
    var lines := Split(content);
    var n := |lines| - 1;
    if lines[n] == "" then lines[..n] else lines
  }

  function Plus(lines: seq<string>): (r: seq<string>)
    ensures |r| == |lines|
  {
    if lines == [] then [] else ["+" + lines[0]] + Plus(lines[1..])
  }

  function Heading(path: string, n: nat): seq<string> {
    [PrintDiffHeader(path), OLD_IS_NULL, "+++ b/" + path, PrintHeader(Header(0, 0, 1, n))]
  }

  function Printed(path: string, content: string): seq<string> {
    Heading(path, |ContentLines(content)|) + Plus(ContentLines(content))
  }

  function PrintedAll(files: seq<WorkFile>): seq<string> {
    if files == [] then []
    else
      match files[0].content
      case None => PrintedAll(files[1..])
      case Some(c) => [Unlines(Printed(files[0].path, c))] + PrintedAll(files[1..])
  }

  lemma {:induction false} SplitCounts(s: string)
    ensures |Split(s)| == Newlines(s) + 1
    ensures Split(s)[|Split(s)| - 1] == "" <==> s == "" || s[|s| - 1] == '\n'
    decreases |s|
  {
    if s != "" {
      SplitCounts(s[1..]);
    }
  }

  /** The count in the hunk header is the number of lines printed. */
  lemma LineCount(content: string)
    ensures |ContentLines(content)|
            == Newlines(content) + if content != "" && content[|content| - 1] != '\n' then 1 else 0
  {
    SplitCounts(content);
  }

  /** The printed lines are those of the file: each with a newline behind it, an unfinished last one included,
      they are its content. */
  lemma LinesAreContent(content: string)
    ensures AreLines(ContentLines(content))
    ensures Unlines(ContentLines(content))
            == content + if content != "" && content[|content| - 1] != '\n' then "\n" else ""
  {
    SplitCounts(content);
    SplitJoins(content);
    var lines := Split(content);
    var n := |lines| - 1;
    var front := Unlines(lines[..n]);
    assert lines == lines[..n] + [lines[n]];
    UnlinesAppend(lines[..n], lines[n]);
    hide Split, Unlines;
    if lines[n] == "" {
      assert (front + "" + "\n")[..|front|] == front && (content + "\n")[..|content|] == content;
      assert front == content;
      assert content + "" == content;
    }
  }

  lemma {:induction false} SplitJoins(s: string)
    ensures Unlines(Split(s)) == s + "\n"
    decreases |s|
  {
    if s == "" {
      UnlinesStep("", []);
    } else {
      SplitJoins(s[1..]);
      var rest := Split(s[1..]);
      UnlinesStep(rest[0], rest[1..]);
      assert [rest[0]] + rest[1..] == rest;
      if s[0] == '\n' {
        UnlinesStep("", rest);
        hide Split, Unlines;
        assert s + "\n" == "" + "\n" + (s[1..] + "\n");
      } else {
        UnlinesStep([s[0]] + rest[0], rest[1..]);
        hide Split, Unlines;
        assert s + "\n" == [s[0]] + (s[1..] + "\n");
        assert [s[0]] + rest[0] + "\n" + Unlines(rest[1..]) == [s[0]] + (rest[0] + "\n" + Unlines(rest[1..]));
      }
    }
  }

  lemma UnlinesStep(line: string, lines: seq<string>)
    ensures Unlines([line] + lines) == line + "\n" + Unlines(lines) && Unlines([]) == ""
  {
    assert ([line] + lines)[1..] == lines;
  }

  lemma SmallDecimals()
    ensures Decimal(0) == "0" && Decimal(1) == "1"
  {
  }

  lemma HunkHeadingText(n: nat)
    ensures PrintHeader(Header(0, 0, 1, n)) == "@@ -0,0 +1," + Decimal(n) + " @@"
  {
    hide Decimal;
    SmallDecimals();
  }

  lemma HeadingText(path: string, n: nat)
    ensures Unlines(Heading(path, n))
            == PrintDiffHeader(path) + "\n" + (OLD_IS_NULL + "\n") + ("+++ b/" + path + "\n")
               + ("@@ -0,0 +1," + Decimal(n) + " @@\n")
  {
    hide Unlines, Decimal, PrintDiffHeader, PrintHeader;
    var h := Heading(path, n);
    NoUnlines();
    UnlinesAppend([], h[0]);
    UnlinesAppend([h[0]], h[1]);
    UnlinesAppend([h[0], h[1]], h[2]);
    UnlinesAppend([h[0], h[1], h[2]], h[3]);
    assert [] + [h[0]] == [h[0]] && [h[0]] + [h[1]] == [h[0], h[1]];
    assert [h[0], h[1]] + [h[2]] == [h[0], h[1], h[2]] && [h[0], h[1], h[2]] + [h[3]] == h;
    HunkHeadingText(n);
  }

  lemma {:induction false} PlusIs(lines: seq<string>, k: nat)
    requires k < |lines|
    ensures Plus(lines)[k] == "+" + lines[k]
    decreases |lines|
  {
    if k > 0 {
      PlusIs(lines[1..], k - 1);
    }
  }

  /** What is printed for a file: four lines of heading, and each line of the file behind a plus. */
  lemma PrintedIs(path: string, content: string)
    ensures var printed, lines := Printed(path, content), ContentLines(content);
            && |printed| == 4 + |lines|
            && printed[0] == "diff --git a/" + path + " b/" + path
            && printed[1] == "--- /dev/null" && printed[2] == "+++ b/" + path
            && printed[3] == "@@ -0,0 +1," + Decimal(|lines|) + " @@"
            && forall k :: 0 <= k < |lines| ==> printed[4 + k] == "+" + lines[k]
  {
    var lines := ContentLines(content);
    assert DIFF_PREFIX + path + " b/" + path == "diff --git a/" + path + " b/" + path;
    HunkHeadingText(|lines|);
    hide PrintHeader, Decimal;
    forall k | 0 <= k < |lines| ensures Printed(path, content)[4 + k] == "+" + lines[k] {
      PlusIs(lines, k);
    }
  }

  method UntrackedFileDiff(path: string, content: string) returns (text: string)
    ensures text == Unlines(Printed(path, content))
  {
    var lineCount := CountNewlines(content);
    if |content| > 0 && content[|content| - 1] != '\n' {
      lineCount := lineCount + 1;
    }
    LineCount(content);
    HeadingText(path, lineCount);
    text := PrintDiffHeader(path) + "\n";
    text := text + (OLD_IS_NULL + "\n");
    text := text + ("+++ b/" + path + "\n");
    text := text + ("@@ -0,0 +1," + Decimal(lineCount) + " @@\n");
    var lines := Split(content);
    if |lines| > 0 && |lines[|lines| - 1]| == 0 {
      lines := lines[..|lines| - 1];
    }
    text := PrintLines(text, lines);
    UnlinesConcat(Heading(path, lineCount), Plus(lines));
  }

  method PrintLines(head: string, lines: seq<string>) returns (text: string)
    ensures text == head + Unlines(Plus(lines))
  {
    text := head;
    for i := 0 to |lines|
      invariant text + Unlines(Plus(lines[i..])) == head + Unlines(Plus(lines))
    {
      assert Plus(lines[i..])[1..] == Plus(lines[i + 1..]);
      text := text + "+" + lines[i] + "\n";
    }
  }

  method UntrackedFileDiffs(files: seq<WorkFile>) returns (results: seq<string>)
    ensures results == PrintedAll(files)
  {
    results := [];
    for i := 0 to |files|
      invariant results + PrintedAll(files[i..]) == PrintedAll(files)
    {
      assert files[i..][1..] == files[i + 1..];
      match files[i].content
      case None =>
      case Some(content) =>
        var text := UntrackedFileDiff(files[i].path, content);
        results := results + [text];
    }
  }

  // ---------------------------------------------------------------- what is read back

  /** The workspace diff: the tracked part, then each printed diff with two newlines behind it. */
  function Combined(tracked: string, printed: seq<string>): string
    decreases |printed|
  {
    if printed == [] then tracked else Combined(tracked + printed[0] + "\n\n", printed[1..])
  }

  function AddedLines(lines: seq<string>): seq<HunkLine> {
    if lines == [] then [] else [HunkLine(Added, lines[0])] + AddedLines(lines[1..])
  }

  function Blanks(n: nat): (b: seq<string>)
    ensures |b| == n && forall k :: 0 <= k < n ==> b[k] == ""
  {
    seq(n, _ => "")
  }

  function BlankLines(n: nat): seq<HunkLine> {
    if n == 0 then [] else [HunkLine(Context, "")] + BlankLines(n - 1)
  }

  /** The diff a file should come back as, `blanks` empty lines behind it. */
  function Expected(path: string, content: string, blanks: nat): FileDiff {
    FileDiff(path, path, TrimNewline(Unlines(Printed(path, content) + Blanks(blanks))),
             false, false, true, false, |ContentLines(content)|, 0)
  }

  /** The one hunk of that diff: every line of the file added, then the blanks as empty context. */
  function ExpectedHunk(content: string, blanks: nat): Hunk {
    Hunk(Header(0, 0, 1, |ContentLines(content)|), AddedLines(ContentLines(content)) + BlankLines(blanks))
  }

  lemma HeaderLine(path: string)
    ensures var h := PrintDiffHeader(path);
            && |h| > 12 && h[0] == 'd' && h[1] == 'i'
            && !(DELETED_FILE_MODE <= h) && !(HUNK_MARK <= h) && ParseHeader(h).None?
  {
    var h := PrintDiffHeader(path);
    assert h == DIFF_PREFIX + (path + " b/" + path);
    Heads(h);
  }

  lemma FirstHeadingLine(path: string, s: Section)
    requires !s.inHunk
    ensures Interpret(s, PrintDiffHeader(path)) == Section(s.file, s.kept + [PrintDiffHeader(path)], false)
  {
    HeaderLine(path);
    Heads(PrintDiffHeader(path));
  }

  lemma SecondHeadingLine(s: Section)
    requires !s.inHunk
    ensures Interpret(s, OLD_IS_NULL) == Section(s.file.(isNew := true), s.kept + [OLD_IS_NULL], false)
  {
    Heads(OLD_IS_NULL);
  }

  lemma ThirdHeadingLine(path: string, s: Section)
    requires !s.inHunk
    ensures Interpret(s, "+++ b/" + path) == Section(s.file, s.kept + ["+++ b/" + path], false)
  {
    var line := "+++ b/" + path;
    Heads(line);
    assert line[0] == '+' && line[4] == 'b' && NEW_IS_NULL[4] == '/' && OLD_IS_NULL[0] == '-';
  }

  lemma HeadingReads(path: string, n: nat)
    ensures var h := Heading(path, n);
            Fold(Open(Paths(path, path)), h) == Section(FileDiff(path, path, "", false, false, true, false, 0, 0), h, true)
  {
    var h := Heading(path, n);
    var s := Open(Paths(path, path));
    var new_ := s.file.(isNew := true);
    FirstHeadingLine(path, s);
    SecondHeadingLine(Section(s.file, [h[0]], false));
    ThirdHeadingLine(path, Section(new_, [h[0], h[1]], false));
    assert [] + [h[0]] == [h[0]] && [h[0]] + [h[1]] == [h[0], h[1]] && [h[0], h[1]] + [h[2]] == [h[0], h[1], h[2]];
    assert [h[0], h[1], h[2]] + [h[3]] == h;
    FoldFour(s, h);
  }

  lemma FoldOne(s: Section, line: string, rest: seq<string>)
    ensures Fold(s, [line] + rest) == Fold(Interpret(s, line), rest)
  {
    assert ([line] + rest)[1..] == rest;
  }

  lemma FoldFour(s: Section, h: seq<string>)
    requires |h| == 4
    ensures Fold(s, h) == Interpret(Interpret(Interpret(Interpret(s, h[0]), h[1]), h[2]), h[3])
  {
    assert h == [h[0]] + ([h[1]] + ([h[2]] + ([h[3]] + [])));
    FoldOne(s, h[0], [h[1]] + ([h[2]] + ([h[3]] + [])));
    var s1 := Interpret(s, h[0]);
    FoldOne(s1, h[1], [h[2]] + ([h[3]] + []));
    var s2 := Interpret(s1, h[1]);
    FoldOne(s2, h[2], [h[3]] + []);
    FoldOne(Interpret(s2, h[2]), h[3], []);
  }

  lemma {:induction false} FoldConcat(s: Section, a: seq<string>, b: seq<string>)
    ensures Fold(s, a + b) == Fold(Fold(s, a), b)
    decreases |a|
  {
    if a == [] {
      assert a + b == b;
    } else {
      FoldConcat(Interpret(s, a[0]), a[1..], b);
      assert (a + b)[1..] == a[1..] + b;
    }
  }

  lemma PlusLineReads(s: Section, line: string, rest: seq<string>)
    requires s.inHunk
    ensures Fold(s, ["+" + line] + rest)
            == Fold(Section(s.file.(insertions := s.file.insertions + 1), s.kept + ["+" + line], true), rest)
  {
    hide Fold, Interpret;
    PlusIsCounted(s, line);
    FoldOne(s, "+" + line, rest);
  }

  lemma PlusIsCounted(s: Section, line: string)
    requires s.inHunk
    ensures Interpret(s, "+" + line)
            == Section(s.file.(insertions := s.file.insertions + 1), s.kept + ["+" + line], true)
  {
    Heads("+" + line);
    assert ("+" + line)[0] == '+';
  }

  lemma {:induction false} PlusReads(s: Section, lines: seq<string>)
    requires s.inHunk
    ensures Fold(s, Plus(lines))
            == Section(s.file.(insertions := s.file.insertions + |lines|), s.kept + Plus(lines), true)
    decreases |lines|
  {
    if lines == [] {
      assert s.kept + [] == s.kept;
    } else {
      var line := "+" + lines[0];
      PlusLineReads(s, lines[0], Plus(lines[1..]));
      PlusReads(Section(s.file.(insertions := s.file.insertions + 1), s.kept + [line], true), lines[1..]);
      assert s.kept + [line] + Plus(lines[1..]) == s.kept + Plus(lines);
    }
  }

  lemma BlankReads(s: Section)
    ensures Interpret(s, "") == Section(s.file, s.kept + [""], s.inHunk)
  {
  }

  lemma {:induction false} BlanksRead(s: Section, n: nat)
    requires s.inHunk
    ensures Fold(s, Blanks(n)) == Section(s.file, s.kept + Blanks(n), true)
    decreases n
  {
    if n == 0 {
      assert s.kept + [] == s.kept;
    } else {
      assert Blanks(n) == [""] + Blanks(n - 1);
      BlankReads(s);
      FoldOne(s, "", Blanks(n - 1));
      BlanksRead(Interpret(s, ""), n - 1);
      assert s.kept + [""] + Blanks(n - 1) == s.kept + Blanks(n);
    }
  }

  /** One printed file, with blanks behind it, is read as one new file with all its lines inserted. */
  lemma PrintedReads(path: string, content: string, blanks: nat)
    requires PlainPath(path)
    ensures Finish(Fold(Open(Paths(path, path)), Printed(path, content) + Blanks(blanks))) == Expected(path, content, blanks)
  {
    var lines := ContentLines(content);
    var h, n := Heading(path, |lines|), |lines|;
    var s0 := Open(Paths(path, path));
    FoldConcat(s0, h + Plus(lines), Blanks(blanks));
    FoldConcat(s0, h, Plus(lines));
    HeadingReads(path, n);
    var s1 := Fold(s0, h);
    PlusReads(s1, lines);
    BlanksRead(Fold(s1, Plus(lines)), blanks);
  }

  lemma {:induction false} PlusIsAdded(lines: seq<string>, blanks: nat)
    ensures HunkBody(Plus(lines) + Blanks(blanks)) == AddedLines(lines) + BlankLines(blanks)
    ensures AfterBody(Plus(lines) + Blanks(blanks)) == []
    decreases |lines| + blanks
  {
    var all := Plus(lines) + Blanks(blanks);
    if lines != [] {
      var line := "+" + lines[0];
      Heads(line);
      assert line[0] == '+' && line[1..] == lines[0];
      assert all[1..] == Plus(lines[1..]) + Blanks(blanks);
      PlusIsAdded(lines[1..], blanks);
    } else if blanks > 0 {
      assert all[1..] == Plus(lines) + Blanks(blanks - 1);
      PlusIsAdded(lines, blanks - 1);
      assert AddedLines(lines) + BlankLines(blanks) == BlankLines(blanks);
      assert AddedLines(lines) + BlankLines(blanks - 1) == BlankLines(blanks - 1);
    }
  }

  lemma SkipLine(line: string, rest: seq<string>)
    requires ParseHeader(line).None?
    ensures HunksOf([line] + rest) == HunksOf(rest)
  {
    assert ([line] + rest)[1..] == rest;
  }

  lemma HunkBehindHeading(h: seq<string>, tail: seq<string>)
    requires |h| == 4 && ParseHeader(h[0]).None? && ParseHeader(h[1]).None? && ParseHeader(h[2]).None?
    requires ParseHeader(h[3]).Some? && AfterBody(tail) == []
    ensures HunksOf(h + tail) == [Hunk(ParseHeader(h[3]).value, HunkBody(tail))]
  {
    hide HunkBody, ParseHeader;
    var l3 := [h[3]] + tail;
    SkipLine(h[2], l3);
    SkipLine(h[1], [h[2]] + l3);
    SkipLine(h[0], [h[1]] + ([h[2]] + l3));
    assert h + tail == [h[0]] + ([h[1]] + ([h[2]] + l3));
    assert l3[1..] == tail;
  }

  lemma PrintedHunks(path: string, content: string, blanks: nat)
    ensures HunksOf(Printed(path, content) + Blanks(blanks)) == [ExpectedHunk(content, blanks)]
  {
    var lines := ContentLines(content);
    hide HunksOf, HunkBody, AfterBody, Plus, Blanks, ParseHeader, PrintHeader, PrintDiffHeader, AddedLines, BlankLines, ContentLines;
    var h := Heading(path, |lines|);
    var tail := Plus(lines) + Blanks(blanks);
    HeaderLine(path);
    Heads(h[1]);
    Heads(h[2]);
    ParsePrintedHeader(Header(0, 0, 1, |lines|));
    PlusIsAdded(lines, blanks);
    HunkBehindHeading(h, tail);
    assert h + tail == Printed(path, content) + Blanks(blanks);
  }

  // ---------------------------------------------------------------- the round trip

  lemma PrintedIsText(path: string, content: string, blanks: nat)
    requires PlainPath(path)
    ensures var lines := Printed(path, content) + Blanks(blanks);
            AreLines(lines) && NoHeaders(lines[1..]) && ParseDiffHeader(lines[0]) == Some(Paths(path, path))
  {
    var lines := ContentLines(content);
    var h := Heading(path, |lines|);
    PrintedDiffHeader(path);
    HeadingIsText(path, |lines|);
    PlusIsText(lines);
    var all := Printed(path, content) + Blanks(blanks);
    forall k | 1 <= k < |all| ensures ParseDiffHeader(all[k]).None? {
      if 4 <= k < 4 + |lines| {
        assert all[k] == Plus(lines)[k - 4];
      }
    }
    assert forall k :: 0 <= k < |all[1..]| ==> all[1..][k] == all[k + 1];
  }

  lemma NotAHeader(line: string)
    requires line == "" || line[0] != 'd'
    ensures ParseDiffHeader(line).None?
  {
  }

  lemma HeadingIsText(path: string, n: nat)
    requires NoNewline(path)
    ensures AreLines(Heading(path, n))
    ensures forall k :: 1 <= k < 4 ==> ParseDiffHeader(Heading(path, n)[k]).None?
  {
    var h := Heading(path, n);
    NotAHeader(h[1]);
    NotAHeader(h[2]);
    NotAHeader(h[3]);
  }

  lemma {:induction false} PlusIsText(lines: seq<string>)
    requires AreLines(lines)
    ensures AreLines(Plus(lines)) && forall k :: 0 <= k < |lines| ==> ParseDiffHeader(Plus(lines)[k]).None?
    decreases |lines|
  {
    if lines != [] {
      PlusIsText(lines[1..]);
      NotAHeader("+" + lines[0]);
    }
  }

  /** GetDiff in workspace mode: git's diff of the tracked files, then the untracked ones, all parsed. */
  method WorkspaceDiff(tracked: string, files: seq<WorkFile>) returns (diffs: seq<FileDiff>)
    ensures diffs == Files(Split(Combined(tracked, PrintedAll(files))), None)
  {
    var combined := tracked;
    var untracked := UntrackedFileDiffs(files);
    for i := 0 to |untracked|
      invariant Combined(combined, untracked[i..]) == Combined(tracked, untracked)
    {
      combined := combined + untracked[i] + "\n\n";
    }
    diffs := ParseDiffText(combined);
  }

  /** The lines of the printed files, each file with two empty lines behind it. */
  function BlockLines(files: seq<WorkFile>): seq<string> {
    if files == [] then []
    else
      match files[0].content
      case None => BlockLines(files[1..])
      case Some(c) => Printed(files[0].path, c) + Blanks(2) + BlockLines(files[1..])
  }

  /** One new-file diff per readable file, in order; the end of the text is one more empty line. */
  function ExpectedAll(files: seq<WorkFile>): seq<FileDiff> {
    if files == [] then []
    else
      match files[0].content
      case None => ExpectedAll(files[1..])
      case Some(c) =>
        [Expected(files[0].path, c, if PrintedAll(files[1..]) == [] then 3 else 2)] + ExpectedAll(files[1..])
  }

  predicate PathsOk(files: seq<WorkFile>) {
    forall k :: 0 <= k < |files| ==> PlainPath(files[k].path)
  }

  lemma UnlinesBlanks(lines: seq<string>)
    ensures Unlines(lines + Blanks(2)) == Unlines(lines) + "\n\n"
  {
    UnlinesAppend(lines, "");
    UnlinesAppend(lines + [""], "");
    assert lines + [""] + [""] == lines + Blanks(2);
  }

  lemma CombinedStep(before: seq<string>, block: seq<string>, printed: seq<string>, rest: seq<string>)
    requires Combined(Unlines(before + (block + Blanks(2))), printed) == Unlines(before + (block + Blanks(2)) + rest)
    ensures Combined(Unlines(before), [Unlines(block)] + printed) == Unlines(before + (block + Blanks(2) + rest))
  {
    assert before + (block + Blanks(2)) + rest == before + (block + Blanks(2) + rest);
    assert ([Unlines(block)] + printed)[1..] == printed;
    UnlinesBlanks(block);
    UnlinesConcat(before, block + Blanks(2));
    assert Unlines(before) + Unlines(block) + "\n\n" == Unlines(before) + (Unlines(block) + "\n\n");
  }

  lemma {:induction false} CombinedIsText(before: seq<string>, files: seq<WorkFile>)
    ensures Combined(Unlines(before), PrintedAll(files)) == Unlines(before + BlockLines(files))
    decreases |files|
  {
    if files == [] {
      assert before + [] == before;
    } else {
      match files[0].content
      case None => CombinedIsText(before, files[1..]);
      case Some(c) =>
        var block := Printed(files[0].path, c);
        CombinedIsText(before + (block + Blanks(2)), files[1..]);
        CombinedStep(before, block, PrintedAll(files[1..]), BlockLines(files[1..]));
    }
  }

  /** What stands in front of a file header is read as if the text ended there. */
  lemma {:induction false} FilesConcat(a: seq<string>, b: seq<string>, current: Option<Section>)
    requires b != [] && ParseDiffHeader(b[0]).Some?
    ensures Files(a + b, current) == Files(a, current) + Files(b, None)
    decreases |a|
  {
    if a == [] {
      assert a + b == b;
      assert Flush(None) + Files(b[1..], Some(Interpret(Open(ParseDiffHeader(b[0]).value), b[0]))) == Files(b, None);
    } else {
      assert (a + b)[1..] == a[1..] + b;
      match ParseDiffHeader(a[0])
      case Some(p) =>
        var s := Some(Interpret(Open(p), a[0]));
        FilesConcat(a[1..], b, s);
        assert Flush(current) + (Files(a[1..], s) + Files(b, None)) == Flush(current) + Files(a[1..], s) + Files(b, None);
      case None =>
        FilesConcat(a[1..], b, if current.Some? then Some(Interpret(current.value, a[0])) else None);
    }
  }

  lemma BlockReads(path: string, content: string, blanks: nat)
    requires PlainPath(path)
    ensures Files(Printed(path, content) + Blanks(blanks), None) == [Expected(path, content, blanks)]
  {
    var lines := Printed(path, content) + Blanks(blanks);
    PrintedIsText(path, content, blanks);
    PrintedReads(path, content, blanks);
    var s := Open(Paths(path, path));
    SectionEnds(Interpret(s, lines[0]), lines[1..], []);
    assert lines[1..] + [] == lines[1..];
    assert Fold(s, lines) == Fold(Interpret(s, lines[0]), lines[1..]);
  }

  lemma {:induction false} BlocksStart(files: seq<WorkFile>)
    requires PathsOk(files) && PrintedAll(files) != []
    ensures BlockLines(files) != [] && ParseDiffHeader(BlockLines(files)[0]).Some?
    decreases |files|
  {
    if files[0].content.None? {
      BlocksStart(files[1..]);
    } else {
      PrintedDiffHeader(files[0].path);
    }
  }

  lemma {:induction false} NoBlocks(files: seq<WorkFile>)
    requires PrintedAll(files) == []
    ensures BlockLines(files) == [] && ExpectedAll(files) == []
    decreases |files|
  {
    if files != [] {
      NoBlocks(files[1..]);
    }
  }

  lemma {:induction false} BlocksRead(files: seq<WorkFile>)
    requires PathsOk(files) && PrintedAll(files) != []
    ensures Files(BlockLines(files) + [""], None) == ExpectedAll(files)
    decreases |files|
  {
    hide Files, Printed, Expected, Unlines, PlainPath, ParseDiffHeader;
    var rest := files[1..];
    match files[0].content
    case None => BlocksRead(rest);
    case Some(c) =>
      var block := Printed(files[0].path, c);
      if PrintedAll(rest) == [] {
        NoBlocks(rest);
        assert BlockLines(files) + [""] == block + Blanks(3);
        BlockReads(files[0].path, c, 3);
      } else {
        BlocksStart(rest);
        BlocksRead(rest);
        BlockReads(files[0].path, c, 2);
        FilesConcat(block + Blanks(2), BlockLines(rest) + [""], None);
        assert block + Blanks(2) + (BlockLines(rest) + [""]) == BlockLines(files) + [""];
      }
  }

  /** The same files, with one newline more at the end of the last one's text. */
  function Lengthened(files: seq<FileDiff>): (r: seq<FileDiff>)
    ensures Shortened(r) == files
  {
    if files == [] then []
    else
      var n := |files| - 1;
      files[..n] + [files[n].(diff := files[n].diff + "\n")]
  }

  /** The same files, without the newline the last one's text ends in. */
  function Shortened(files: seq<FileDiff>): seq<FileDiff> {
    if files == [] then []
    else
      var n := |files| - 1;
      files[..n] + [files[n].(diff := TrimNewline(files[n].diff))]
  }

  lemma LengthenedBehind(a: seq<FileDiff>, b: seq<FileDiff>)
    requires b != []
    ensures Lengthened(a + b) == a + Lengthened(b)
  {
    assert (a + b)[..|a + b| - 1] == a + b[..|b| - 1];
  }

  /** The empty line at the end of a text is one more line of the last section. */
  lemma LastLineEmpty(s: Section)
    requires s.kept != []
    ensures Finish(Interpret(s, "")) == Finish(s).(diff := Finish(s).diff + "\n")
  {
    hide Interpret, Unlines;
    var n := |s.kept| - 1;
    BlankReads(s);
    UnlinesAppend(s.kept, "");
    UnlinesAppend(s.kept[..n], s.kept[n]);
    assert s.kept[..n] + [s.kept[n]] == s.kept;
    assert Unlines(s.kept) == TrimNewline(Unlines(s.kept)) + "\n";
    assert TrimNewline(Unlines(s.kept) + "\n") == Unlines(s.kept);
    assert Unlines(s.kept) + "" + "\n" == Unlines(s.kept) + "\n";
  }

  lemma {:induction false} EmptyLineBehind(lines: seq<string>, current: Option<Section>)
    requires current.Some? ==> current.value.kept != []
    ensures Files(lines + [""], current) == Lengthened(Files(lines, current))
    ensures current.Some? ==> Files(lines, current) != []
    decreases |lines|
  {
    hide Interpret, Finish, Lengthened;
    if lines == [] {
      assert lines + [""] == [""] && [""][1..] == [];
      NotAHeader("");
      if current.Some? {
        LastLineEmpty(current.value);
        LengthenedOne(Finish(current.value));
      } else {
        LengthenedNone();
      }
    } else {
      assert (lines + [""])[1..] == lines[1..] + [""];
      match ParseDiffHeader(lines[0])
      case Some(p) =>
        HeaderIsKept(p, lines[0]);
        var s := Interpret(Open(p), lines[0]);
        EmptyLineBehind(lines[1..], Some(s));
        LengthenedBehind(Flush(current), Files(lines[1..], Some(s)));
      case None =>
        if current.Some? {
          InterpretKeeps(current.value, lines[0]);
          EmptyLineBehind(lines[1..], Some(Interpret(current.value, lines[0])));
        } else {
          EmptyLineBehind(lines[1..], None);
        }
    }
  }

  lemma HeaderIsKept(p: Paths, header: string)
    requires ParseDiffHeader(header) == Some(p)
    ensures Interpret(Open(p), header).kept == [header]
  {
    Heads(header);
    Head(DIFF_PREFIX, header);
    InterpretKeeps(Open(p), header);
  }

  lemma LengthenedOne(f: FileDiff)
    ensures Lengthened([f]) == [f.(diff := f.diff + "\n")]
  {
  }

  lemma LengthenedNone()
    ensures Lengthened([]) == []
  {
  }

  lemma CombinedLines(tracked: seq<string>, files: seq<WorkFile>)
    requires AreLines(tracked) && PathsOk(files)
    ensures Split(Combined(Unlines(tracked), PrintedAll(files))) == tracked + (BlockLines(files) + [""])
  {
    assert Split("") == [""];
    hide Combined, PrintedAll, Unlines, Split, PathsOk;
    CombinedIsText(tracked, files);
    BlocksAreText(files);
    var lines := tracked + BlockLines(files);
    SplitUnlines(lines, "");
    assert Unlines(lines) + "" == Unlines(lines);
    assert lines + [""] == tracked + (BlockLines(files) + [""]);
  }

  /** Printing untracked files behind any complete tracked diff and parsing the whole gives the files that
      parsing the tracked text alone gives, but for the newline the last of these then ends in, and behind
      them one new-file diff for each readable file, in order. */
  lemma UntrackedRoundTrip(tracked: seq<string>, files: seq<WorkFile>)
    requires AreLines(tracked) && PathsOk(files) && PrintedAll(files) != []
    ensures var alone := Files(Split(Unlines(tracked)), None);
            && alone == Lengthened(Shortened(alone))
            && Files(Split(Combined(Unlines(tracked), PrintedAll(files))), None) == Shortened(alone) + ExpectedAll(files)
  {
    assert Split("") == [""];
    hide Files, Lengthened, Shortened, Combined, ExpectedAll, PrintedAll, Unlines, Split, PathsOk;
    SplitUnlines(tracked, "");
    assert Unlines(tracked) + "" == Unlines(tracked);
    EmptyLineBehind(tracked, None);
    CombinedLines(tracked, files);
    BlocksStart(files);
    BlocksRead(files);
    FilesConcat(tracked, BlockLines(files) + [""], None);
  }

  lemma {:induction false} BlocksAreText(files: seq<WorkFile>)
    requires PathsOk(files)
    ensures AreLines(BlockLines(files))
    decreases |files|
  {
    if files != [] {
      BlocksAreText(files[1..]);
      if files[0].content.Some? {
        PrintedIsText(files[0].path, files[0].content.value, 2);
      }
    }
  }

  /** The text of such a diff is one hunk that adds exactly the lines of the file. */
  lemma UntrackedHunk(path: string, content: string, blanks: nat)
    requires PlainPath(path)
    ensures HunksOf(Split(Expected(path, content, blanks).diff)) == [ExpectedHunk(content, blanks)]
  {
    PrintedIsText(path, content, blanks);
    SplitTrimmed(Printed(path, content) + Blanks(blanks));
    PrintedHunks(path, content, blanks);
  }
}
