/** Splitting a unified diff into files (the line machine of ParseDiffText, internal/diff/parser.go). */
module DiffParser {
  import opened Options
  import opened TextLines
  import opened DiffHunks
  import opened Sequences

  /** A file's diff without its content, which is read from disk or git. */
  datatype FileDiff = FileDiff(
    oldPath: string, newPath: string, diff: string, isBinary: bool, isDeleted: bool, isNew: bool, isRenamed: bool,
    insertions: nat, deletions: nat)

  /** A section being read: `kept` are the lines written to its text so far. */
  datatype Section = Section(file: FileDiff, kept: seq<string>, inHunk: bool)

  const DEV_NULL := "/dev/null"
  const HUNK_MARK := "@@"
  const INDEX := "index "
  const BINARY := "Binary files "
  const NEW_FILE_MODE := "new file mode "
  const DELETED_FILE_MODE := "deleted file mode "
  const RENAME_FROM := "rename from "
  const RENAME_TO := "rename to "
  const OLD_IS_NULL := "--- /dev/null"
  const NEW_IS_NULL := "+++ /dev/null"

  function Open(p: Paths): Section {
    Section(FileDiff(p.oldPath, p.newPath, "", false, false, false, false, 0, 0), [], false)
  }

  /** The object-id line of the extended header is not kept. */
  predicate IsIndexLine(line: string, inHunk: bool) {
    !inHunk && INDEX <= line
  }

  function Interpret(s: Section, line: string): Section {
    var f, inHunk := s.file, s.inHunk;
    if HUNK_MARK <= line then Section(f, s.kept + [line], true)
    else if IsIndexLine(line, inHunk) then s
    else
      var g :=
        if !inHunk && BINARY <= line then f.(isBinary := true)
        else if NEW_FILE_MODE <= line then f.(isNew := true)
        else if DELETED_FILE_MODE <= line then f.(isDeleted := true)
        else if RENAME_FROM <= line then f.(oldPath := line[|RENAME_FROM|..], isRenamed := true)
        else if RENAME_TO <= line then f.(newPath := line[|RENAME_TO|..], isRenamed := true)
        else if !inHunk && line == OLD_IS_NULL then f.(isNew := true)
        else if !inHunk && line == NEW_IS_NULL then f.(isDeleted := true)
        else if inHunk && "+" <= line then f.(insertions := f.insertions + 1)
        else if inHunk && "-" <= line then f.(deletions := f.deletions + 1)
        else f;
      Section(g, s.kept + [line], inHunk)
  }

  function Finish(s: Section): FileDiff {
    var f := s.file.(diff := TrimNewline(Unlines(s.kept)));
    if f.isDeleted || f.newPath == DEV_NULL then f.(newPath := DEV_NULL) else f
  }

  function Flush(current: Option<Section>): seq<FileDiff> {
    match current case None => [] case Some(s) => [Finish(s)]
  }

  /** The files of the remaining lines when `current` is open in front of them. */
  function Files(lines: seq<string>, current: Option<Section>): seq<FileDiff>
    decreases |lines|
  {
    if lines == [] then Flush(current)
    else
      match ParseDiffHeader(lines[0])
      case Some(p) => Flush(current) + Files(lines[1..], Some(Interpret(Open(p), lines[0])))
      case None =>
        Files(lines[1..], if current.Some? then Some(Interpret(current.value, lines[0])) else None)
  }

  // ---------------------------------------------------------------- the code

  method InterpretLine(f: FileDiff, inHunk: bool, line: string, ghost kept: seq<string>)
    returns (g: FileDiff, h: bool, keep: bool)
    ensures Section(g, kept + (if keep then [line] else []), h) == Interpret(Section(f, kept, inHunk), line)
  {
    g, h, keep := f, inHunk, true;
    assert kept + [] == kept;
    if HUNK_MARK <= line {
      h := true;
    } else if !inHunk && INDEX <= line {
      keep := false;
    } else if !inHunk && BINARY <= line {
      g := g.(isBinary := true);
    } else if NEW_FILE_MODE <= line {
      g := g.(isNew := true);
    } else if DELETED_FILE_MODE <= line {
      g := g.(isDeleted := true);
    } else if RENAME_FROM <= line {
      g := g.(oldPath := line[|RENAME_FROM|..], isRenamed := true);
    } else if RENAME_TO <= line {
      g := g.(newPath := line[|RENAME_TO|..], isRenamed := true);
    } else if !inHunk && line == OLD_IS_NULL {
      g := g.(isNew := true);
    } else if !inHunk && line == NEW_IS_NULL {
      g := g.(isDeleted := true);
    } else if inHunk && "+" <= line {
      g := g.(insertions := g.insertions + 1);
    } else if inHunk && "-" <= line {
      g := g.(deletions := g.deletions + 1);
    }
  }

  lemma NoUnlines()
    ensures Unlines([]) == ""
  {
  }

  lemma UnlinesAppend(lines: seq<string>, line: string)
    ensures Unlines(lines + [line]) == Unlines(lines) + line + "\n"
  {
    UnlinesConcat(lines, [line]);
    assert Unlines([line][1..]) == "";
    assert Unlines([line]) == line + "\n";
  }

  method Finalize(f: FileDiff, buf: string, ghost s: Section) returns (g: FileDiff)
    requires s.file == f && buf == Unlines(s.kept)
    ensures g == Finish(s)
  {
    g := f.(diff := TrimNewline(buf));
    if g.isDeleted || g.newPath == DEV_NULL {
      g := g.(newPath := DEV_NULL);
    }
  }

  /** The open section as the loop holds it. */
  ghost function Current(current: Option<FileDiff>, kept: seq<string>, inHunk: bool): Option<Section> {
    match current case None => None case Some(f) => Some(Section(f, kept, inHunk))
  }

  method ParseDiffText(diffText: string) returns (diffs: seq<FileDiff>)
    ensures diffs == Files(Split(diffText), None)
  {
    hide Files, Interpret, Unlines, Finish, ParseDiffHeader;
    var lines := Split(diffText);
    diffs := [];
    assert lines[0..] == lines;
    NoUnlines();
    var current: Option<FileDiff> := None;
    var buf := "";
    ghost var kept: seq<string> := [];
    var inHunk := false;
    var i := 0;
    while i < |lines|
      invariant 0 <= i <= |lines|
      invariant buf == Unlines(kept) && (current.None? ==> buf == "" && kept == [])
      invariant diffs + Files(lines[i..], Current(current, kept, inHunk)) == Files(lines, None)
    {
      var line := lines[i];
      ghost var before, diffs0 := Current(current, kept, inHunk), diffs;
      ghost var flushed: seq<FileDiff> := [];
      i := i + 1;
      var m := ParseDiffHeader(line);
      if m.Some? {
        if current.Some? {
          var done := Finalize(current.value, buf, before.value);
          diffs := diffs + [done];
          buf, kept, flushed := "", [], [done];
        }
        current := Some(FileDiff(m.value.oldPath, m.value.newPath, "", false, false, false, false, 0, 0));
        inHunk := false;
      }
      assert diffs == diffs0 + flushed;
      if current.None? {
        FilesBefore(line, lines[i..]);
        assert lines[i - 1..] == [line] + lines[i..];
        continue;
      }
      ghost var entered := Current(current, kept, inHunk);
      var g, h, keep := InterpretLine(current.value, inHunk, line, kept);
      current, inHunk := Some(g), h;
      assert kept + [] == kept;
      if keep {
        UnlinesAppend(kept, line);
        buf := buf + line + "\n";
        kept := kept + [line];
      }
      assert lines[i - 1..][1..] == lines[i..];
      FilesStep(lines[i - 1..], before, entered.value);
      Reassociate(diffs0, flushed, Files(lines[i..], Current(current, kept, inHunk)));
    }
    assert lines[i..] == [];
    FilesEnd(Current(current, kept, inHunk));
    if current.Some? {
      var done := Finalize(current.value, buf, Section(current.value, kept, inHunk));
      diffs := diffs + [done];
    }
  }

  lemma FilesStep(lines: seq<string>, current: Option<Section>, entered: Section)
    requires lines != []
    requires match ParseDiffHeader(lines[0])
             case Some(p) => entered == Open(p)
             case None => current == Some(entered)
    ensures Files(lines, current) ==
            (if ParseDiffHeader(lines[0]).Some? then Flush(current) else [])
            + Files(lines[1..], Some(Interpret(entered, lines[0])))
  {
    assert [] + Files(lines[1..], Some(Interpret(entered, lines[0]))) == Files(lines[1..], Some(Interpret(entered, lines[0])));
  }

  lemma FilesBefore(line: string, rest: seq<string>)
    requires ParseDiffHeader(line).None?
    ensures Files([line] + rest, None) == Files(rest, None)
  {
    assert ([line] + rest)[1..] == rest;
  }

  lemma FilesEnd(current: Option<Section>)
    ensures Files([], current) == Flush(current)
  {
  }

  // ---------------------------------------------------------------- sections

  function Fold(s: Section, lines: seq<string>): Section
    decreases |lines|
  {
    if lines == [] then s else Fold(Interpret(s, lines[0]), lines[1..])
  }

  predicate NoHeaders(lines: seq<string>) {
    forall k :: 0 <= k < |lines| ==> ParseDiffHeader(lines[k]).None?
  }

  /** A section runs to the next file header. */
  lemma {:induction false} SectionEnds(s: Section, body: seq<string>, rest: seq<string>)
    requires NoHeaders(body)
    ensures Files(body + rest, Some(s)) == Files(rest, Some(Fold(s, body)))
    decreases |body|
  {
    if body == [] {
      assert body + rest == rest;
    } else {
      SectionEnds(Interpret(s, body[0]), body[1..], rest);
      assert (body + rest)[1..] == body[1..] + rest;
    }
  }

  /** The lines of a section that stay in its text. */
  function Kept(lines: seq<string>, inHunk: bool): seq<string>
    decreases |lines|
  {
    if lines == [] then []
    else if HUNK_MARK <= lines[0] then [lines[0]] + Kept(lines[1..], true)
    else (if IsIndexLine(lines[0], inHunk) then [] else [lines[0]]) + Kept(lines[1..], inHunk)
  }

  lemma InterpretKeeps(s: Section, line: string)
    ensures Interpret(s, line).inHunk == (s.inHunk || HUNK_MARK <= line)
    ensures Interpret(s, line).kept
            == if !(HUNK_MARK <= line) && IsIndexLine(line, s.inHunk) then s.kept else s.kept + [line]
  {
  }

  lemma {:induction false} FoldKeeps(s: Section, lines: seq<string>)
    ensures Fold(s, lines).kept == s.kept + Kept(lines, s.inHunk)
    decreases |lines|
  {
    if lines != [] {
      var t := Interpret(s, lines[0]);
      InterpretKeeps(s, lines[0]);
      FoldKeeps(t, lines[1..]);
      assert t.kept + Kept(lines[1..], t.inHunk) == s.kept + Kept(lines, s.inHunk);
    }
  }

  // ---------------------------------------------------------------- counts

  predicate IsKind(line: string, kind: LineType) {
    match kind case Added => "+" <= line case Deleted => "-" <= line case Context => false
  }

  lemma Head(prefix: string, line: string)
    requires prefix != "" && prefix <= line
    ensures line != "" && line[0] == prefix[0]
  {
  }

  /** Lines of different kinds differ in their first character. */
  lemma Heads(line: string)
    ensures "+" <= line <==> line != "" && line[0] == '+'
    ensures "-" <= line <==> line != "" && line[0] == '-'
    ensures HUNK_MARK <= line ==> line[0] == '@'
    ensures NEW_FILE_MODE <= line ==> line[0] == 'n'
    ensures DELETED_FILE_MODE <= line ==> line[0] == 'd'
    ensures RENAME_FROM <= line ==> line[0] == 'r'
    ensures RENAME_TO <= line ==> line[0] == 'r'
    ensures INDEX <= line ==> line[0] == 'i'
    ensures NO_NEWLINE_MARK <= line ==> line[0] == '\\'
    ensures DIFF_GIT <= line ==> line[0] == 'd'
    ensures ParseHeader(line).Some? ==> HUNK_MARK <= line
  {
    assert "@@ -" <= line ==> HUNK_MARK <= line;
  }

  /** The lines the parser counts: the marked ones after the first line that starts with "@@". */
  function Counted(lines: seq<string>, inHunk: bool, kind: LineType): nat
    decreases |lines|
  {
    if lines == [] then 0
    else if HUNK_MARK <= lines[0] then Counted(lines[1..], true, kind)
    else (if inHunk && IsKind(lines[0], kind) then 1 else 0) + Counted(lines[1..], inHunk, kind)
  }

  function CountOf(f: FileDiff, kind: LineType): nat {
    match kind case Added => f.insertions case Deleted => f.deletions case Context => 0
  }

  lemma {:induction false} FoldCounts(s: Section, lines: seq<string>, kind: LineType)
    ensures CountOf(Fold(s, lines).file, kind) == CountOf(s.file, kind) + Counted(lines, s.inHunk, kind)
    decreases |lines|
  {
    if lines != [] {
      Heads(lines[0]);
      FoldCounts(Interpret(s, lines[0]), lines[1..], kind);
    }
  }

  /** Of those, the ones no hunk holds: behind an "@@" line that is no header while no hunk is open, or
      behind a stray file header inside a hunk. */
  function Stray(lines: seq<string>, inHunk: bool, open: bool, kind: LineType): nat
    decreases |lines|
  {
    if lines == [] then 0
    else if ParseHeader(lines[0]).Some? then Stray(lines[1..], true, true, kind)
    else if open && !IsMark(lines[0]) && DIFF_GIT <= lines[0] then Counted(lines[1..], inHunk, kind)
    else if HUNK_MARK <= lines[0] then Stray(lines[1..], true, open, kind)
    else (if inHunk && !open && IsKind(lines[0], kind) then 1 else 0) + Stray(lines[1..], inHunk, open, kind)
  }

  function InHunks(lines: seq<string>, open: bool, kind: LineType): nat {
    if open then CountKind(HunkBody(lines), kind) + CountInHunks(HunksOf(AfterBody(lines)), kind)
    else CountInHunks(HunksOf(lines), kind)
  }

  lemma InHunksStep(lines: seq<string>, open: bool, kind: LineType)
    requires lines != [] && !kind.Context?
    ensures InHunks(lines, open, kind) ==
            if ParseHeader(lines[0]).Some? then InHunks(lines[1..], true, kind)
            else if !open || IsMark(lines[0]) then InHunks(lines[1..], open, kind)
            else if DIFF_GIT <= lines[0] then 0
            else (if IsKind(lines[0], kind) then 1 else 0) + InHunks(lines[1..], true, kind)
  {
    Heads(lines[0]);
    if open && ParseHeader(lines[0]).None? && !IsMark(lines[0]) && !(DIFF_GIT <= lines[0]) {
      assert ([ToHunkLine(lines[0])] + HunkBody(lines[1..]))[1..] == HunkBody(lines[1..]);
    } else if ParseHeader(lines[0]).Some? {
      var h := Hunk(ParseHeader(lines[0]).value, HunkBody(lines[1..]));
      assert ([h] + HunksOf(AfterBody(lines[1..])))[1..] == HunksOf(AfterBody(lines[1..]));
    }
  }

  /** Leaving out the object-id lines changes no count. */
  lemma {:induction false} KeptCounts(lines: seq<string>, inHunk: bool, open: bool, kind: LineType)
    requires !kind.Context? && (open ==> inHunk)
    ensures Counted(lines, inHunk, kind) == InHunks(Kept(lines, inHunk), open, kind) + Stray(lines, inHunk, open, kind)
    decreases |lines|
  {
    if lines != [] {
      var line, rest := lines[0], lines[1..];
      Heads(line);
      var inHunk' := inHunk || HUNK_MARK <= line;
      var open' := open || ParseHeader(line).Some?;
      KeptCounts(rest, inHunk', open', kind);
      if IsIndexLine(line, inHunk) {
        assert [] + Kept(rest, inHunk) == Kept(rest, inHunk);
      } else {
        assert ([line] + Kept(rest, inHunk'))[1..] == Kept(rest, inHunk');
        InHunksStep(Kept(lines, inHunk), open, kind);
      }
    }
  }

  /** The text of a section holds the hunks of the lines it kept. */
  lemma SectionText(p: Paths, header: string, body: seq<string>)
    requires ParseDiffHeader(header) == Some(p) && NoNewline(header) && AreLines(body)
    ensures var f := Finish(Fold(Open(p), [header] + body));
            && Split(f.diff) == [header] + Kept(body, false)
            && HunksOf(Split(f.diff)) == HunksOf(Kept(body, false))
  {
    Heads(header);
    Head(DIFF_PREFIX, header);
    var s := Fold(Open(p), [header] + body);
    FoldKeeps(Open(p), [header] + body);
    assert ([header] + body)[1..] == body;
    assert s.kept == [header] + Kept(body, false);
    KeptAreLines(body, false);
    SplitTrimmed(s.kept);
    assert s.kept[1..] == Kept(body, false);
  }

  lemma {:induction false} KeptAreLines(lines: seq<string>, inHunk: bool)
    requires AreLines(lines)
    ensures AreLines(Kept(lines, inHunk))
    decreases |lines|
  {
    if lines != [] {
      KeptAreLines(lines[1..], inHunk || HUNK_MARK <= lines[0]);
    }
  }

  /** The parser's counts are those of the hunks in the same text, plus exactly the stray lines. */
  lemma CountsOfSection(p: Paths, header: string, body: seq<string>, kind: LineType)
    requires ParseDiffHeader(header) == Some(p) && NoNewline(header) && AreLines(body) && !kind.Context?
    ensures var f := Finish(Fold(Open(p), [header] + body));
            CountOf(f, kind) == CountInHunks(HunksOf(Split(f.diff)), kind) + Stray(body, false, false, kind)
  {
    Heads(header);
    Head(DIFF_PREFIX, header);
    SectionText(p, header, body);
    FoldCounts(Open(p), [header] + body, kind);
    assert ([header] + body)[1..] == body;
    KeptCounts(body, false, false, kind);
  }

  /** A section whose "@@" lines are all hunk headers and that holds no second file header. */
  predicate Regular(body: seq<string>) {
    forall k :: 0 <= k < |body| ==>
      (HUNK_MARK <= body[k] ==> ParseHeader(body[k]).Some?) && !(DIFF_GIT <= body[k])
  }

  lemma {:induction false} RegularHasNoStray(body: seq<string>, inHunk: bool, kind: LineType)
    requires Regular(body)
    ensures Stray(body, inHunk, inHunk, kind) == 0
    decreases |body|
  {
    if body != [] {
      Heads(body[0]);
      assert HUNK_MARK <= body[0] ==> ParseHeader(body[0]).Some?;
      assert Regular(body[1..]) by {
        assert forall k :: 0 <= k < |body| - 1 ==> body[1..][k] == body[k + 1];
      }
      RegularHasNoStray(body[1..], inHunk || ParseHeader(body[0]).Some?, kind);
    }
  }

  /** For such a section the parser's insertions and deletions are the added and deleted lines. */
  lemma RegularCountsAgree(p: Paths, header: string, body: seq<string>, kind: LineType)
    requires ParseDiffHeader(header) == Some(p) && NoNewline(header) && AreLines(body) && !kind.Context?
    requires Regular(body)
    ensures var f := Finish(Fold(Open(p), [header] + body));
            CountOf(f, kind) == CountInHunks(HunksOf(Split(f.diff)), kind)
  {
    CountsOfSection(p, header, body, kind);
    RegularHasNoStray(body, false, kind);
  }

  predicate HasHunk(lines: seq<string>) {
    exists k :: 0 <= k < |lines| && ParseHeader(lines[k]).Some?
  }

  lemma RegularTail(lines: seq<string>)
    requires Regular(lines) && lines != []
    ensures Regular(lines[1..])
    ensures HasHunk(lines) <==> ParseHeader(lines[0]).Some? || HasHunk(lines[1..])
  {
    hide ParseHeader;
    assert forall k :: 0 <= k < |lines| - 1 ==> lines[1..][k] == lines[k + 1];
    assert forall k :: 1 <= k < |lines| ==> lines[k] == lines[1..][k - 1];
  }

  lemma StrayStep(line: string, rest: seq<string>, inHunk: bool, kind: LineType)
    requires (HUNK_MARK <= line ==> ParseHeader(line).Some?) && !(DIFF_GIT <= line)
    ensures var h := inHunk || ParseHeader(line).Some?;
            Stray([line] + rest, inHunk, inHunk, kind) == Stray(rest, h, h, kind)
  {
    Heads(line);
    assert ([line] + rest)[1..] == rest;
  }

  lemma {:induction false} StrayBehind(front: seq<string>, rest: seq<string>, inHunk: bool, kind: LineType)
    requires Regular(front)
    ensures var h := inHunk || HasHunk(front);
            Stray(front + rest, inHunk, inHunk, kind) == Stray(rest, h, h, kind)
    decreases |front|
  {
    if front == [] {
      assert front + rest == rest;
    } else {
      StrayStep(front[0], front[1..] + rest, inHunk, kind);
      assert front + rest == [front[0]] + (front[1..] + rest);
      RegularTail(front);
      hide Stray, Regular, HasHunk;
      StrayBehind(front[1..], rest, inHunk || ParseHeader(front[0]).Some?, kind);
    }
  }

  /** A file header the parser's expression misses, behind a hunk: the lines of that file are counted in
      the file above, whose hunks hold none of them. */
  lemma MissedHeaderIsSwallowed(p: Paths, header: string, front: seq<string>, missed: string, tail: seq<string>, kind: LineType)
    requires ParseDiffHeader(header) == Some(p) && AreLines(front + [missed] + tail) && !kind.Context?
    requires Regular(front) && HasHunk(front) && DIFF_GIT <= missed && ParseDiffHeader(missed).None?
    ensures var f := Finish(Fold(Open(p), [header] + (front + [missed] + tail)));
            CountOf(f, kind) == CountInHunks(HunksOf(Split(f.diff)), kind) + Counted(tail, true, kind)
  {
    var rest := [missed] + tail;
    assert front + [missed] + tail == front + rest;
    CountsOfSection(p, header, front + rest, kind);
    StrayBehind(front, rest, false, kind);
    Heads(missed);
    assert rest[1..] == tail;
  }

  /** The program has git print paths that are not ASCII as they are (core.quotepath=false). git still quotes
      a path with a quote, a backslash or a control character in it, and the expression misses the quoted
      header: this one is of a file named q"x. */
  const QUOTED_HEADER := "diff --git \"a/q\\\"x\" \"b/q\\\"x\""

  /** One line changed. */
  const PLAIN_CHANGE := ["--- a/x", "+++ b/x", "@@ -1 +1 @@", "-a", "+b"]
  const QUOTED_CHANGE := ["--- \"a/q\\\"x\"", "+++ \"b/q\\\"x\"", "@@ -1 +1 @@", "-c", "+d"]

  lemma OtherLineIsMissed(line: string)
    requires |line| > 11 && line[11] != 'a'
    ensures ParseDiffHeader(line).None?
  {
    assert DIFF_PREFIX[11] == 'a';
  }

  lemma QuotedHeaderIsMissed()
    ensures DIFF_GIT <= QUOTED_HEADER && ParseDiffHeader(QUOTED_HEADER).None? && NoNewline(QUOTED_HEADER)
  {
    hide ParseDiffHeader;
    OtherLineIsMissed(QUOTED_HEADER);
  }

  lemma OneLineHeader()
    ensures ParseHeader("@@ -1 +1 @@") == Some(Header(1, 1, 1, 1))
  {
    var line := "@@ -1 +1 @@";
    assert Decimal(1) == "1";
    assert line[4..] == Decimal(1) + " +1 @@";
    ReadsNumber(1, " +1 @@");
    assert " +1 @@"[2..] == Decimal(1) + " @@";
    ReadsNumber(1, " @@");
  }

  lemma PlainChangeIsRegular()
    ensures Regular(PLAIN_CHANGE) && HasHunk(PLAIN_CHANGE) && AreLines(PLAIN_CHANGE) && AreLines(QUOTED_CHANGE)
  {
    hide ParseHeader;
    OneLineHeader();
    var t := PLAIN_CHANGE;
    assert ParseHeader(t[2]).Some?;
    assert t[0][0] == t[3][0] == '-' && t[1][0] == t[4][0] == '+' && t[2][0] == '@';
  }

  lemma PlainHeader()
    ensures ParseDiffHeader("diff --git a/x b/x") == Some(Paths("x", "x"))
  {
    hide ParseDiffHeader;
    PrintedDiffHeader("x");
    assert PrintDiffHeader("x") == "diff --git a/x b/x";
  }

  /** Two added lines as the parser counts: the heading of the new side is one. */
  lemma QuotedChangeCounts()
    ensures Counted(QUOTED_CHANGE, true, Added) == 2
  {
    var t := QUOTED_CHANGE;
    assert t[0][0] == t[3][0] == '-' && t[1][0] == t[4][0] == '+' && t[2][0] == '@';
    assert t[1..][1..] == t[2..] && t[2..][1..] == t[3..] && t[3..][1..] == t[4..] && t[4..][1..] == [];
    assert Counted(t[4..], true, Added) == 1;
    assert Counted(t[3..], true, Added) == 1;
    assert Counted(t[2..], true, Added) == 1;
    assert Counted(t[1..], true, Added) == 2;
  }

  /** So the two counts differ in the diff of a plain and a quoted file with one line changed in each. */
  lemma StrayLineIsCounted()
    ensures var body := PLAIN_CHANGE + [QUOTED_HEADER] + QUOTED_CHANGE;
            var f := Finish(Fold(Open(Paths("x", "x")), ["diff --git a/x b/x"] + body));
            CountOf(f, Added) == CountInHunks(HunksOf(Split(f.diff)), Added) + 2
  {
    hide *;
    PlainHeader();
    PlainChangeIsRegular();
    QuotedHeaderIsMissed();
    QuotedChangeCounts();
    LinesAround(PLAIN_CHANGE, QUOTED_HEADER, QUOTED_CHANGE);
    MissedHeaderIsSwallowed(Paths("x", "x"), "diff --git a/x b/x", PLAIN_CHANGE, QUOTED_HEADER, QUOTED_CHANGE, Added);
  }

  lemma LinesAround(front: seq<string>, line: string, tail: seq<string>)
    requires AreLines(front) && NoNewline(line) && AreLines(tail)
    ensures AreLines(front + [line] + tail)
  {
  }
}
