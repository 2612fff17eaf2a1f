/** A diff as git prints it, and what the two parsers make of it: every file with its paths, flags and
    counts, and in each file's text exactly its hunks. */
module GitDiffs {
  import opened Options
  import opened TextLines
  import opened DiffHunks
  import opened DiffParser
  import opened UntrackedDiffs

  // ---------------------------------------------------------------- how git prints

  /** A line of a hunk, and whether the file ends behind it without a newline. */
  datatype BodyLine = BodyLine(kind: LineType, content: string, last: bool)

  /** The numbers of the header as digits, a count that is left out as no digits, and the text behind it. */
  datatype GitHunk = GitHunk(
    oldStart: string, oldCount: string, newStart: string, newCount: string, heading: string, lines: seq<BodyLine>)

  datatype Extended =
    | Mode(text: string)
    | NewFile(mode: string)
    | DeletedFile(mode: string)
    | Similarity(text: string)
    | RenameFrom(path: string)
    | RenameTo(path: string)
    | Index(text: string)

  datatype Content = NoContent | Binary(text: string) | Text(fromNull: bool, toNull: bool, hunks: seq<GitHunk>)

  datatype GitFile = GitFile(oldPath: string, newPath: string, extended: seq<Extended>, content: Content)

  function HunkHeaderLine(h: GitHunk): string {
    "@@ -" + (h.oldStart + (CountText(h.oldCount) + (" +" + (h.newStart + (CountText(h.newCount) + (" @@" + h.heading))))))
  }

  function MarkedLine(l: BodyLine): string {
    (match l.kind case Added => "+" case Deleted => "-" case Context => " ") + l.content
  }

  function LineText(l: BodyLine): seq<string> {
    [MarkedLine(l)] + if l.last then ["\\ No newline at end of file"] else []
  }

  function BodyText(lines: seq<BodyLine>): seq<string> {
    if lines == [] then [] else LineText(lines[0]) + BodyText(lines[1..])
  }

  function HunkText(h: GitHunk): seq<string> {
    [HunkHeaderLine(h)] + BodyText(h.lines)
  }

  function HunksText(hunks: seq<GitHunk>): seq<string> {
    if hunks == [] then [] else HunkText(hunks[0]) + HunksText(hunks[1..])
  }

  function ExtendedLine(e: Extended): string {
    match e
    case Mode(text) => "old mode " + text
    case NewFile(mode) => "new file mode " + mode
    case DeletedFile(mode) => "deleted file mode " + mode
    case Similarity(text) => "similarity index " + text
    case RenameFrom(path) => "rename from " + path
    case RenameTo(path) => "rename to " + path
    case Index(text) => "index " + text
  }

  function ExtendedText(es: seq<Extended>): seq<string> {
    if es == [] then [] else [ExtendedLine(es[0])] + ExtendedText(es[1..])
  }

  function ContentText(f: GitFile): seq<string> {
    match f.content
    case NoContent => []
    case Binary(text) => ["Binary files " + text]
    case Text(fromNull, toNull, hunks) =>
      [if fromNull then "--- /dev/null" else "--- a/" + f.oldPath, if toNull then "+++ /dev/null" else "+++ b/" + f.newPath]
      + HunksText(hunks)
  }

  function GitHeader(f: GitFile): string {
    "diff --git a/" + f.oldPath + " b/" + f.newPath
  }

  function FileText(f: GitFile): seq<string> {
    [GitHeader(f)] + (ExtendedText(f.extended) + ContentText(f))
  }

  function DiffText(files: seq<GitFile>): seq<string> {
    if files == [] then [] else FileText(files[0]) + DiffText(files[1..])
  }

  /** The header of such a file reads back with its two paths: the first separator is the printed one. */
  predicate HeaderIsPlain(f: GitFile) {
    && f.oldPath != "" && f.newPath != "" && NoNewline(GitHeader(f))
    && forall i :: 1 <= i < |f.oldPath| ==> !SeparatorAt(f.oldPath + " b/" + f.newPath, i)
  }

  predicate IsGitHunk(h: GitHunk) {
    && AreDigits(h.oldStart) && AreDigits(h.newStart)
    && (h.oldCount == "" || AreDigits(h.oldCount)) && (h.newCount == "" || AreDigits(h.newCount))
  }

  predicate AreGitHunks(hunks: seq<GitHunk>) {
    forall k :: 0 <= k < |hunks| ==> IsGitHunk(hunks[k])
  }

  predicate IsGitFile(f: GitFile) {
    HeaderIsPlain(f) && (f.content.Text? ==> AreGitHunks(f.content.hunks))
  }

  // ---------------------------------------------------------------- what it means

  function HunkLines(lines: seq<BodyLine>): (r: seq<HunkLine>)
    ensures |r| == |lines|
    ensures forall k :: 0 <= k < |r| ==> r[k] == HunkLine(lines[k].kind, lines[k].content)
  {
    seq(|lines|, k requires 0 <= k < |lines| => HunkLine(lines[k].kind, lines[k].content))
  }

  function Meaning(h: GitHunk): Hunk
    requires IsGitHunk(h)
  {
    Hunk(Header(Number(h.oldStart), CountIn(h.oldCount), Number(h.newStart), CountIn(h.newCount)), HunkLines(h.lines))
  }

  function Meanings(hunks: seq<GitHunk>): (r: seq<Hunk>)
    requires AreGitHunks(hunks)
    ensures |r| == |hunks|
    ensures forall k :: 0 <= k < |r| ==> r[k] == Meaning(hunks[k])
  {
    seq(|hunks|, k requires 0 <= k < |hunks| => Meaning(hunks[k]))
  }

  // ---------------------------------------------------------------- hunks

  lemma MarkedLineReads(l: BodyLine)
    ensures var line := MarkedLine(l);
            && ParseHeader(line).None? && !IsMark(line) && !(DIFF_GIT <= line)
            && ToHunkLine(line) == HunkLine(l.kind, l.content)
  {
    Heads(MarkedLine(l));
    assert MarkedLine(l)[1..] == l.content;
  }

  lemma MarkReads()
    ensures var mark := "\\ No newline at end of file";
            ParseHeader(mark).None? && IsMark(mark)
  {
    Heads("\\ No newline at end of file");
  }

  lemma BodyStep(line: string, tail: seq<string>, l: HunkLine)
    requires ParseHeader(line).None? && !IsMark(line) && !(DIFF_GIT <= line) && ToHunkLine(line) == l
    ensures HunkBody([line] + tail) == [l] + HunkBody(tail) && AfterBody([line] + tail) == AfterBody(tail)
  {
    hide ParseHeader, ToHunkLine, IsMark;
    assert ([line] + tail)[1..] == tail;
  }

  lemma MarkStep(tail: seq<string>)
    ensures HunkBody(["\\ No newline at end of file"] + tail) == HunkBody(tail)
    ensures AfterBody(["\\ No newline at end of file"] + tail) == AfterBody(tail)
  {
    MarkReads();
    hide ParseHeader, IsMark;
    assert (["\\ No newline at end of file"] + tail)[1..] == tail;
  }

  lemma LineStep(l: BodyLine, tail: seq<string>)
    ensures HunkBody(LineText(l) + tail) == [HunkLine(l.kind, l.content)] + HunkBody(tail)
    ensures AfterBody(LineText(l) + tail) == AfterBody(tail)
  {
    MarkedLineReads(l);
    hide HunkBody, AfterBody, ToHunkLine, IsMark, ParseHeader, MarkedLine;
    var mark := ["\\ No newline at end of file"];
    if l.last {
      MarkStep(tail);
      BodyStep(MarkedLine(l), mark + tail, HunkLine(l.kind, l.content));
      assert LineText(l) + tail == [MarkedLine(l)] + (mark + tail);
    } else {
      BodyStep(MarkedLine(l), tail, HunkLine(l.kind, l.content));
      assert LineText(l) + tail == [MarkedLine(l)] + tail;
    }
  }

  lemma BodyEnds(rest: seq<string>)
    requires rest == [] || ParseHeader(rest[0]).Some?
    ensures HunkBody(rest) == [] && AfterBody(rest) == rest
  {
  }

  /** The body of a hunk runs to the next header or the end. */
  lemma {:induction false} BodyReads(lines: seq<BodyLine>, rest: seq<string>)
    requires rest == [] || ParseHeader(rest[0]).Some?
    ensures HunkBody(BodyText(lines) + rest) == HunkLines(lines)
    ensures AfterBody(BodyText(lines) + rest) == rest
    decreases |lines|
  {
    hide ParseHeader, HunkBody, AfterBody, LineText;
    if lines == [] {
      assert BodyText(lines) + rest == rest;
      BodyEnds(rest);
    } else {
      var l, more := lines[0], BodyText(lines[1..]) + rest;
      BodyReads(lines[1..], rest);
      LineStep(l, more);
      assert BodyText(lines) + rest == LineText(l) + more;
      assert HunkLines(lines) == [HunkLine(l.kind, l.content)] + HunkLines(lines[1..]);
    }
  }

  lemma HunkStep(h: GitHunk, more: seq<string>)
    requires IsGitHunk(h) && (more == [] || ParseHeader(more[0]).Some?)
    ensures HunksOf(HunkText(h) + more) == [Meaning(h)] + HunksOf(more)
    ensures HunkText(h) != [] && ParseHeader(HunkText(h)[0]).Some?
  {
    hide ParseHeader, IsGitHunk, HunkBody, AfterBody, BodyText, HunkHeaderLine;
    GitHunkHeader(h);
    BodyReads(h.lines, more);
    var body := BodyText(h.lines) + more;
    assert HunkText(h) + more == [HunkHeaderLine(h)] + body;
    assert ([HunkHeaderLine(h)] + body)[1..] == body;
  }

  lemma {:induction false} HunksRead(hunks: seq<GitHunk>)
    requires AreGitHunks(hunks)
    ensures HunksOf(HunksText(hunks)) == Meanings(hunks)
    ensures hunks != [] ==> HunksText(hunks) != [] && ParseHeader(HunksText(hunks)[0]).Some?
    decreases |hunks|
  {
    hide ParseHeader, IsGitHunk, HunkText, Meaning;
    if hunks == [] {
      NoHunksInNothing();
    } else {
      hide HunksOf;
      assert IsGitHunk(hunks[0]) && AreGitHunks(hunks[1..]);
      HunksRead(hunks[1..]);
      HunkStep(hunks[0], HunksText(hunks[1..]));
      assert Meanings(hunks) == [Meaning(hunks[0])] + Meanings(hunks[1..]);
    }
  }

  lemma NoHunksInNothing()
    ensures HunksOf([]) == []
  {
  }

  lemma GitHunkHeader(h: GitHunk)
    requires IsGitHunk(h)
    ensures ParseHeader(HunkHeaderLine(h)) == Some(Meaning(h).header)
  {
    hide ParseHeader, Number;
    HeaderReads(HunkHeaderLine(h), h.oldStart, h.oldCount, h.newStart, h.newCount, h.heading);
  }

  predicate NoHunks(lines: seq<string>) {
    forall k :: 0 <= k < |lines| ==> ParseHeader(lines[k]).None?
  }

  lemma {:induction false} SkipLines(front: seq<string>, lines: seq<string>)
    requires NoHunks(front)
    ensures HunksOf(front + lines) == HunksOf(lines)
    decreases |front|
  {
    hide ParseHeader;
    if front == [] {
      assert front + lines == lines;
    } else {
      SkipLines(front[1..], lines);
      assert front + lines == [front[0]] + (front[1..] + lines);
      SkipLine(front[0], front[1..] + lines);
    }
  }

  // ---------------------------------------------------------------- one file

  predicate IsNewFile(es: seq<Extended>) {
    exists k :: 0 <= k < |es| && es[k].NewFile?
  }

  predicate IsDeletedFile(es: seq<Extended>) {
    exists k :: 0 <= k < |es| && es[k].DeletedFile?
  }

  predicate IsRename(es: seq<Extended>) {
    exists k :: 0 <= k < |es| && (es[k].RenameFrom? || es[k].RenameTo?)
  }

  /** The path a rename names last, or the one of the header. */
  function OldName(path: string, es: seq<Extended>): string
    decreases |es|
  {
    if es == [] then path else OldName(if es[0].RenameFrom? then es[0].path else path, es[1..])
  }

  function NewName(path: string, es: seq<Extended>): string
    decreases |es|
  {
    if es == [] then path else NewName(if es[0].RenameTo? then es[0].path else path, es[1..])
  }

  /** Everything but the object ids. */
  function KeptExtended(es: seq<Extended>): seq<string> {
    if es == [] then []
    else (if es[0].Index? then [] else [ExtendedLine(es[0])]) + KeptExtended(es[1..])
  }

  function Marked(lines: seq<BodyLine>, kind: LineType): nat {
    if lines == [] then 0 else (if lines[0].kind == kind then 1 else 0) + Marked(lines[1..], kind)
  }

  function AllMarked(hunks: seq<GitHunk>, kind: LineType): nat {
    if hunks == [] then 0 else Marked(hunks[0].lines, kind) + AllMarked(hunks[1..], kind)
  }

  function FileMarked(f: GitFile, kind: LineType): nat {
    if f.content.Text? then AllMarked(f.content.hunks, kind) else 0
  }

  function KeptText(f: GitFile): seq<string> {
    [GitHeader(f)] + (KeptExtended(f.extended) + ContentText(f))
  }

  /** The file as the program should list it. */
  function Listed(f: GitFile): FileDiff {
    var es, c := f.extended, f.content;
    var deleted := IsDeletedFile(es) || (c.Text? && c.toNull);
    var newPath := NewName(f.newPath, es);
    FileDiff(OldName(f.oldPath, es), if deleted then "/dev/null" else newPath, TrimNewline(Unlines(KeptText(f))),
             c.Binary?, deleted, IsNewFile(es) || (c.Text? && c.fromNull), IsRename(es),
             FileMarked(f, Added), FileMarked(f, Deleted))
  }

  function Extend(file: FileDiff, e: Extended): FileDiff {
    match e
    case NewFile(_) => file.(isNew := true)
    case DeletedFile(_) => file.(isDeleted := true)
    case RenameFrom(path) => file.(oldPath := path, isRenamed := true)
    case RenameTo(path) => file.(newPath := path, isRenamed := true)
    case _ => file
  }

  lemma RenameReads(s: Section, path: string)
    requires !s.inHunk
    ensures var line := "rename from " + path;
            Interpret(s, line) == Section(s.file.(oldPath := path, isRenamed := true), s.kept + [line], false)
    ensures var line := "rename to " + path;
            Interpret(s, line) == Section(s.file.(newPath := path, isRenamed := true), s.kept + [line], false)
  {
    var a, b := "rename from " + path, "rename to " + path;
    Heads(a);
    Heads(b);
    assert BINARY[0] == 'B' && a[|RENAME_FROM|..] == path && b[|RENAME_TO|..] == path;
    assert b[7] == 't' && RENAME_FROM[7] == 'f';
  }

  lemma ExtendedLineReads(s: Section, e: Extended)
    requires !s.inHunk
    ensures Interpret(s, ExtendedLine(e))
            == Section(Extend(s.file, e), s.kept + (if e.Index? then [] else [ExtendedLine(e)]), false)
  {
    match e
    case Mode(text) => QuietLineReads(s, "old mode " + text);
    case Similarity(text) => QuietLineReads(s, "similarity index " + text);
    case NewFile(mode) => ModeLineReads(s, mode);
    case DeletedFile(mode) => ModeLineReads(s, mode);
    case RenameFrom(path) => RenameReads(s, path);
    case RenameTo(path) => RenameReads(s, path);
    case Index(text) =>
      Heads("index " + text);
      assert s.kept + [] == s.kept;
  }

  lemma QuietLineReads(s: Section, line: string)
    requires !s.inHunk && line != "" && (line[0] == 'o' || line[0] == 's')
    ensures Interpret(s, line) == Section(s.file, s.kept + [line], false)
  {
    Heads(line);
    assert BINARY[0] == 'B' && OLD_IS_NULL[0] == '-' && NEW_IS_NULL[0] == '+';
  }

  lemma ModeLineReads(s: Section, mode: string)
    requires !s.inHunk
    ensures var line := "new file mode " + mode; Interpret(s, line) == Section(s.file.(isNew := true), s.kept + [line], false)
    ensures var line := "deleted file mode " + mode; Interpret(s, line) == Section(s.file.(isDeleted := true), s.kept + [line], false)
  {
    Heads("new file mode " + mode);
    Heads("deleted file mode " + mode);
    assert BINARY[0] == 'B';
  }

  lemma FoldNothing(s: Section)
    ensures Fold(s, []) == s
  {
  }

  function ExtendAll(f: FileDiff, es: seq<Extended>): FileDiff
    decreases |es|
  {
    if es == [] then f else ExtendAll(Extend(f, es[0]), es[1..])
  }

  lemma {:induction false} ExtendedReads(s: Section, es: seq<Extended>)
    requires !s.inHunk
    ensures Fold(s, ExtendedText(es)) == Section(ExtendAll(s.file, es), s.kept + KeptExtended(es), false)
    decreases |es|
  {
    hide Interpret, Fold, Extend, ExtendedLine;
    if es == [] {
      FoldNothing(s);
      assert s.kept + [] == s.kept;
    } else {
      var e := es[0];
      var t := Interpret(s, ExtendedLine(e));
      ExtendedLineReads(s, e);
      ExtendedReads(t, es[1..]);
      assert ExtendedText(es) == [ExtendedLine(e)] + ExtendedText(es[1..]);
      FoldOne(s, ExtendedLine(e), ExtendedText(es[1..]));
      assert t.kept + KeptExtended(es[1..]) == s.kept + KeptExtended(es);
    }
  }

  lemma {:induction false} ExtendedMeans(f: FileDiff, es: seq<Extended>)
    ensures ExtendAll(f, es) ==
            f.(oldPath := OldName(f.oldPath, es), newPath := NewName(f.newPath, es), isNew := f.isNew || IsNewFile(es),
               isDeleted := f.isDeleted || IsDeletedFile(es), isRenamed := f.isRenamed || IsRename(es))
    decreases |es|
  {
    if es != [] {
      ExtendedMeans(Extend(f, es[0]), es[1..]);
      ExtendedFlags(es);
      hide IsNewFile, IsDeletedFile, IsRename;
    }
  }

  lemma ExtendedFlags(es: seq<Extended>)
    requires es != []
    ensures IsNewFile(es) <==> es[0].NewFile? || IsNewFile(es[1..])
    ensures IsDeletedFile(es) <==> es[0].DeletedFile? || IsDeletedFile(es[1..])
    ensures IsRename(es) <==> es[0].RenameFrom? || es[0].RenameTo? || IsRename(es[1..])
  {
    assert es == [es[0]] + es[1..];
    assert forall k :: 1 <= k < |es| ==> es[k] == es[1..][k - 1];
    assert forall k :: 0 <= k < |es| - 1 ==> es[1..][k] == es[k + 1];
  }

  function Grown(f: FileDiff, added: nat, deleted: nat): FileDiff {
    f.(insertions := f.insertions + added, deletions := f.deletions + deleted)
  }

  lemma BodyLineReads(s: Section, l: BodyLine)
    requires s.inHunk
    ensures Interpret(s, MarkedLine(l))
            == Section(Grown(s.file, if l.kind.Added? then 1 else 0, if l.kind.Deleted? then 1 else 0), s.kept + [MarkedLine(l)], true)
  {
    Heads(MarkedLine(l));
  }

  lemma MarkIsKept(s: Section)
    requires s.inHunk
    ensures var mark := "\\ No newline at end of file"; Interpret(s, mark) == Section(s.file, s.kept + [mark], true)
  {
    Heads("\\ No newline at end of file");
  }

  lemma LineIsCounted(s: Section, l: BodyLine)
    requires s.inHunk
    ensures Fold(s, LineText(l))
            == Section(Grown(s.file, if l.kind.Added? then 1 else 0, if l.kind.Deleted? then 1 else 0), s.kept + LineText(l), true)
  {
    hide Interpret, Fold, MarkedLine, Grown;
    BodyLineReads(s, l);
    var t := Interpret(s, MarkedLine(l));
    var mark := "\\ No newline at end of file";
    FoldOne(s, MarkedLine(l), if l.last then [mark] else []);
    if l.last {
      MarkIsKept(t);
      assert [mark] + [] == [mark];
      FoldOne(t, mark, []);
      FoldNothing(Interpret(t, mark));
      assert s.kept + [MarkedLine(l)] + [mark] == s.kept + LineText(l);
    } else {
      FoldNothing(t);
      assert [MarkedLine(l)] + [] == LineText(l) == [MarkedLine(l)];
    }
  }

  lemma {:induction false} BodyIsCounted(s: Section, lines: seq<BodyLine>)
    requires s.inHunk
    ensures Fold(s, BodyText(lines))
            == Section(Grown(s.file, Marked(lines, Added), Marked(lines, Deleted)), s.kept + BodyText(lines), true)
    decreases |lines|
  {
    hide LineText, Fold;
    if lines == [] {
      FoldNothing(s);
      assert s.kept + [] == s.kept;
    } else {
      var l, more := lines[0], BodyText(lines[1..]);
      LineIsCounted(s, l);
      var t := Fold(s, LineText(l));
      BodyIsCounted(t, lines[1..]);
      FoldConcat(s, LineText(l), more);
      assert s.kept + LineText(l) + more == s.kept + BodyText(lines);
    }
  }

  lemma HunkHeaderIsKept(s: Section, h: GitHunk)
    ensures Interpret(s, HunkHeaderLine(h)) == Section(s.file, s.kept + [HunkHeaderLine(h)], true)
  {
  }

  lemma HunkIsCounted(s: Section, h: GitHunk)
    ensures Fold(s, HunkText(h))
            == Section(Grown(s.file, Marked(h.lines, Added), Marked(h.lines, Deleted)), s.kept + HunkText(h), true)
  {
    hide Interpret, HunkHeaderLine, Fold, Marked, BodyText, Grown;
    HunkHeaderIsKept(s, h);
    var line := HunkHeaderLine(h);
    BodyIsCounted(Interpret(s, line), h.lines);
    FoldOne(s, line, BodyText(h.lines));
    assert s.kept + [line] + BodyText(h.lines) == s.kept + HunkText(h);
  }

  lemma {:induction false} HunksAreCounted(s: Section, hunks: seq<GitHunk>)
    ensures var t := Fold(s, HunksText(hunks));
            t.file == Grown(s.file, AllMarked(hunks, Added), AllMarked(hunks, Deleted)) && t.kept == s.kept + HunksText(hunks)
    decreases |hunks|
  {
    hide HunkText, Fold, Marked;
    if hunks == [] {
      FoldNothing(s);
      assert s.kept + [] == s.kept;
    } else {
      var h, more := hunks[0], HunksText(hunks[1..]);
      HunkIsCounted(s, h);
      HunksAreCounted(Fold(s, HunkText(h)), hunks[1..]);
      FoldConcat(s, HunkText(h), more);
      assert s.kept + HunkText(h) + more == s.kept + HunksText(hunks);
    }
  }

  lemma OldSideReads(s: Section, f: GitFile, null_: bool)
    requires !s.inHunk
    ensures var a := if null_ then "--- /dev/null" else "--- a/" + f.oldPath;
            Interpret(s, a) == Section(s.file.(isNew := s.file.isNew || null_), s.kept + [a], false)
  {
    var a := if null_ then "--- /dev/null" else "--- a/" + f.oldPath;
    Heads(a);
    assert a[0] == '-' && (!null_ ==> a[4] == 'a') && NEW_IS_NULL[0] == '+';
  }

  lemma NewSideReads(s: Section, f: GitFile, null_: bool)
    requires !s.inHunk
    ensures var b := if null_ then "+++ /dev/null" else "+++ b/" + f.newPath;
            Interpret(s, b) == Section(s.file.(isDeleted := s.file.isDeleted || null_), s.kept + [b], false)
  {
    var b := if null_ then "+++ /dev/null" else "+++ b/" + f.newPath;
    Heads(b);
    assert b[0] == '+' && (!null_ ==> b[4] == 'b') && OLD_IS_NULL[0] == '-';
  }

  lemma TextReads(s: Section, f: GitFile)
    requires !s.inHunk && f.content.Text?
    ensures var t, c := Fold(s, ContentText(f)), f.content;
            && t.kept == s.kept + ContentText(f)
            && t.file == Grown(s.file, AllMarked(c.hunks, Added), AllMarked(c.hunks, Deleted))
                         .(isNew := s.file.isNew || c.fromNull, isDeleted := s.file.isDeleted || c.toNull)
  {
    hide Interpret, Fold, HunksText, AllMarked, Grown;
    var c := f.content;
    OldSideReads(s, f, c.fromNull);
    var a := if c.fromNull then "--- /dev/null" else "--- a/" + f.oldPath;
    var b := if c.toNull then "+++ /dev/null" else "+++ b/" + f.newPath;
    var s1 := Interpret(s, a);
    NewSideReads(s1, f, c.toNull);
    var more := HunksText(c.hunks);
    FoldTwo(s, a, b, more);
    HunksAreCounted(Interpret(s1, b), c.hunks);
    ThreeKept(s.kept, a, b, more);
    GrownKeepsFlags(s.file, c.fromNull, c.toNull, AllMarked(c.hunks, Added), AllMarked(c.hunks, Deleted));
  }

  lemma FoldTwo(s: Section, a: string, b: string, more: seq<string>)
    ensures Fold(s, [a, b] + more) == Fold(Interpret(Interpret(s, a), b), more)
  {
    hide Interpret, Fold;
    assert [a, b] + more == [a] + ([b] + more);
    FoldOne(s, a, [b] + more);
    FoldOne(Interpret(s, a), b, more);
  }

  lemma ThreeKept(kept: seq<string>, a: string, b: string, more: seq<string>)
    ensures kept + [a] + [b] + more == kept + ([a, b] + more)
  {
  }

  lemma GrownKeepsFlags(f: FileDiff, fromNull: bool, toNull: bool, added: nat, deleted: nat)
    ensures Grown(f.(isNew := f.isNew || fromNull).(isDeleted := f.isDeleted || toNull), added, deleted)
            == Grown(f, added, deleted).(isNew := f.isNew || fromNull, isDeleted := f.isDeleted || toNull)
  {
  }

  lemma ContentReads(s: Section, f: GitFile)
    requires !s.inHunk
    ensures var t, c := Fold(s, ContentText(f)), f.content;
            && t.kept == s.kept + ContentText(f)
            && t.file == Grown(s.file, FileMarked(f, Added), FileMarked(f, Deleted))
                         .(isBinary := s.file.isBinary || c.Binary?, isNew := s.file.isNew || (c.Text? && c.fromNull),
                           isDeleted := s.file.isDeleted || (c.Text? && c.toNull))
  {
    hide Interpret, Fold, AllMarked;
    match f.content
    case NoContent =>
      FoldNothing(s);
      assert s.kept + [] == s.kept;
    case Binary(text) =>
      BinaryLineReads(s, text);
      var line := "Binary files " + text;
      FoldOne(s, line, []);
      FoldNothing(Interpret(s, line));
      assert [line] + [] == [line];
    case Text(_, _, _) =>
      TextReads(s, f);
  }

  lemma BinaryLineReads(s: Section, text: string)
    requires !s.inHunk
    ensures var line := "Binary files " + text; Interpret(s, line) == Section(s.file.(isBinary := true), s.kept + [line], false)
  {
    Heads("Binary files " + text);
  }

  lemma GitHeaderReads(f: GitFile)
    requires HeaderIsPlain(f)
    ensures ParseDiffHeader(GitHeader(f)) == Some(Paths(f.oldPath, f.newPath))
  {
    var s := f.oldPath + " b/" + f.newPath;
    assert GitHeader(f) == DIFF_PREFIX + s;
    assert GitHeader(f)[|DIFF_PREFIX|..] == s;
    assert s[|f.oldPath|..|f.oldPath| + 3] == " b/";
    FindsFirst(s, 1, |f.oldPath|);
    assert s[..|f.oldPath|] == f.oldPath && s[|f.oldPath| + 3..] == f.newPath;
  }

  lemma FileReads(f: GitFile)
    requires IsGitFile(f)
    ensures Finish(Fold(Open(Paths(f.oldPath, f.newPath)), FileText(f))) == Listed(f)
  {
    hide ContentText, ExtendedText, KeptExtended, Fold, Interpret, ParseDiffHeader, Unlines, HeaderIsPlain;
    var s0 := Open(Paths(f.oldPath, f.newPath));
    var header := GitHeader(f);
    GitHeaderReads(f);
    GitHeaderIsKept(Paths(f.oldPath, f.newPath), header);
    var s1 := Interpret(s0, header);
    FoldOne(s0, header, ExtendedText(f.extended) + ContentText(f));
    FoldConcat(s1, ExtendedText(f.extended), ContentText(f));
    ExtendedReads(s1, f.extended);
    ExtendedMeans(s1.file, f.extended);
    ContentReads(Fold(s1, ExtendedText(f.extended)), f);
    assert [header] + KeptExtended(f.extended) + ContentText(f) == KeptText(f);
  }

  lemma GitHeaderIsKept(p: Paths, header: string)
    requires ParseDiffHeader(header) == Some(p)
    ensures Interpret(Open(p), header) == Section(Open(p).file, [header], false)
  {
    Heads(header);
    Head(DIFF_PREFIX, header);
    assert header[1] == DIFF_PREFIX[1] == 'i' && DELETED_FILE_MODE[1] == 'e';
  }

  // ---------------------------------------------------------------- the whole diff

  lemma ExtendedLineStays(e: Extended)
    ensures ParseDiffHeader(ExtendedLine(e)).None? && ParseHeader(ExtendedLine(e)).None?
  {
    var line := ExtendedLine(e);
    Heads(line);
    hide ParseHeader;
    if e.DeletedFile? {
      assert line[1] == 'e' && DIFF_PREFIX[1] == 'i';
    } else {
      NotAHeader(line);
    }
  }

  lemma {:induction false} ExtendedStays(es: seq<Extended>)
    ensures NoHeaders(ExtendedText(es)) && NoHunks(KeptExtended(es))
    ensures AreLines(ExtendedText(es)) ==> AreLines(KeptExtended(es))
    decreases |es|
  {
    hide ParseDiffHeader, ParseHeader, ExtendedLine;
    if es != [] {
      ExtendedLineStays(es[0]);
      ExtendedStays(es[1..]);
      TailIsLines(ExtendedLine(es[0]), ExtendedText(es[1..]));
    }
  }

  lemma TailIsLines(line: string, rest: seq<string>)
    ensures AreLines([line] + rest) <==> NoNewline(line) && AreLines(rest)
  {
    var all := [line] + rest;
    assert forall k :: 0 <= k < |rest| ==> all[k + 1] == rest[k];
    if AreLines(all) {
      assert NoNewline(all[0]);
      forall k | 0 <= k < |rest| ensures NoNewline(rest[k]) {
        assert NoNewline(all[k + 1]);
      }
    }
  }

  lemma LinesConcat(a: seq<string>, b: seq<string>)
    ensures AreLines(a + b) <==> AreLines(a) && AreLines(b)
    ensures NoHeaders(a + b) <==> NoHeaders(a) && NoHeaders(b)
    ensures NoHunks(a + b) <==> NoHunks(a) && NoHunks(b)
  {
    hide ParseDiffHeader, ParseHeader, NoNewline;
    assert forall k :: 0 <= k < |a| ==> (a + b)[k] == a[k];
    assert forall k :: 0 <= k < |b| ==> (a + b)[|a| + k] == b[k];
  }

  lemma LineStays(l: BodyLine)
    ensures NoHeaders(LineText(l))
  {
    NotAHeader(MarkedLine(l));
    NotAHeader("\\ No newline at end of file");
  }

  lemma {:induction false} BodyStays(lines: seq<BodyLine>)
    ensures NoHeaders(BodyText(lines))
    decreases |lines|
  {
    hide LineText, ParseDiffHeader;
    if lines != [] {
      LineStays(lines[0]);
      BodyStays(lines[1..]);
      LinesConcat(LineText(lines[0]), BodyText(lines[1..]));
    }
  }

  lemma {:induction false} HunksStay(hunks: seq<GitHunk>)
    ensures NoHeaders(HunksText(hunks))
    decreases |hunks|
  {
    hide ParseDiffHeader, BodyText, HunkHeaderLine, NoHeaders;
    if hunks == [] {
      NothingStays();
    } else {
      BodyStays(hunks[0].lines);
      HeaderLineStays(hunks[0]);
      LinesConcat([HunkHeaderLine(hunks[0])], BodyText(hunks[0].lines));
      HunksStay(hunks[1..]);
      LinesConcat(HunkText(hunks[0]), HunksText(hunks[1..]));
    }
  }

  lemma NothingStays()
    ensures NoHeaders([])
  {
  }

  lemma HeaderLineStays(h: GitHunk)
    ensures NoHeaders([HunkHeaderLine(h)])
  {
    NotAHeader(HunkHeaderLine(h));
  }

  lemma ContentStays(f: GitFile)
    ensures NoHeaders(ContentText(f))
  {
    match f.content
    case NoContent =>
    case Binary(text) => NotAHeader("Binary files " + text);
    case Text(_, _, hunks) =>
      var two := ContentText(f)[..2];
      NotAHeader(two[0]);
      NotAHeader(two[1]);
      HunksStay(hunks);
      hide ParseDiffHeader, HunksText;
      LinesConcat(two, HunksText(hunks));
  }

  lemma FileEnds(f: GitFile, rest: seq<string>)
    requires IsGitFile(f) && (rest == [] || ParseDiffHeader(rest[0]).Some?)
    ensures Files(FileText(f) + rest, None) == [Listed(f)] + Files(rest, None)
  {
    hide ParseDiffHeader, Interpret, Finish, IsGitFile, Listed, Open, HeaderIsPlain, ContentText, ExtendedText, Fold, Files, NoHeaders, NoHunks, AreLines, KeptExtended;
    var header, body := GitHeader(f), ExtendedText(f.extended) + ContentText(f);
    FileReads(f);
    assert HeaderIsPlain(f) by { IsPlainFile(f); }
    GitHeaderReads(f);
    ExtendedStays(f.extended);
    ContentStays(f);
    LinesConcat(ExtendedText(f.extended), ContentText(f));
    var s := Open(Paths(f.oldPath, f.newPath));
    FilesOne(header, body, Paths(f.oldPath, f.newPath));
    FoldOne(s, header, body);
    if rest == [] {
      assert FileText(f) + rest == FileText(f);
      FilesEnd(None);
    } else {
      FilesConcat(FileText(f), rest, None);
    }
  }

  lemma IsPlainFile(f: GitFile)
    requires IsGitFile(f)
    ensures HeaderIsPlain(f)
  {
  }

  /** A header and the lines behind it are one section. */
  lemma FilesOne(header: string, body: seq<string>, p: Paths)
    requires ParseDiffHeader(header) == Some(p) && NoHeaders(body)
    ensures Files([header] + body, None) == [Finish(Fold(Interpret(Open(p), header), body))]
  {
    hide ParseDiffHeader, Interpret, Finish, Open, Fold, NoHeaders;
    var s := Interpret(Open(p), header);
    assert ([header] + body)[1..] == body;
    SectionEnds(s, body, []);
    assert body + [] == body;
    FilesEnd(Some(Fold(s, body)));
  }

  function ListedAll(files: seq<GitFile>): seq<FileDiff> {
    if files == [] then [] else [Listed(files[0])] + ListedAll(files[1..])
  }

  predicate AreGitFiles(files: seq<GitFile>) {
    forall k :: 0 <= k < |files| ==> IsGitFile(files[k])
  }

  /** The line machine lists the files of any diff git prints, in order: their paths and flags, the added
      and deleted lines of their hunks, and their text. */
  lemma {:induction false} GitDiffReads(files: seq<GitFile>)
    requires AreGitFiles(files)
    ensures Files(DiffText(files), None) == ListedAll(files)
    ensures files != [] ==> DiffText(files) != [] && ParseDiffHeader(DiffText(files)[0]).Some?
    decreases |files|
  {
    hide IsGitFile, Listed, Files, ParseDiffHeader;
    if files == [] {
      FilesEnd(None);
    } else {
      assert IsGitFile(files[0]) && AreGitFiles(files[1..]);
      GitDiffReads(files[1..]);
      FileEnds(files[0], DiffText(files[1..]));
      IsPlainFile(files[0]);
      GitHeaderReads(files[0]);
    }
  }

  /** Of the printed text as a whole, the last file keeps one newline more. */
  lemma GitTextReads(files: seq<GitFile>)
    requires AreGitFiles(files) && AreLines(DiffText(files))
    ensures Files(Split(Unlines(DiffText(files))), None) == Lengthened(ListedAll(files))
  {
    hide Files, IsGitFile, Lengthened, ListedAll, DiffText, Unlines;
    GitDiffReads(files);
    SplitUnlines(DiffText(files), "");
    assert Unlines(DiffText(files)) + "" == Unlines(DiffText(files));
    assert Split("") == [""];
    EmptyLineBehind(DiffText(files), None);
  }

  lemma ContentHunks(f: GitFile)
    requires IsGitFile(f)
    ensures HunksOf(ContentText(f)) == if f.content.Text? then Meanings(f.content.hunks) else []
  {
    match f.content
    case NoContent => NoHunksInNothing();
    case Binary(text) =>
      var line := "Binary files " + text;
      Heads(line);
      NoHunksInNothing();
      SkipLine(line, []);
      assert [line] + [] == [line];
    case Text(_, _, hunks) =>
      var two := ContentText(f)[..2];
      Heads(two[0]);
      Heads(two[1]);
      assert NoHunks(two);
      HunksRead(hunks);
      hide ParseHeader, HunksText, IsGitHunk, HeaderIsPlain;
      SkipLines(two, HunksText(hunks));
  }

  /** The hunk parser finds in a listed file's text exactly its hunks, line by line. */
  lemma GitHunksRead(f: GitFile)
    requires IsGitFile(f) && AreLines(FileText(f))
    ensures HunksOf(Split(Listed(f).diff)) == if f.content.Text? then Meanings(f.content.hunks) else []
  {
    hide IsGitFile, ParseHeader, ContentText, ExtendedText, KeptExtended, Unlines, Meanings;
    var header := GitHeader(f);
    ExtendedStays(f.extended);
    TailIsLines(header, ExtendedText(f.extended) + ContentText(f));
    LinesConcat(ExtendedText(f.extended), ContentText(f));
    LinesConcat(KeptExtended(f.extended), ContentText(f));
    TailIsLines(header, KeptExtended(f.extended) + ContentText(f));
    SplitTrimmed(KeptText(f));
    assert NoHunks([header]) by { Heads(header); assert header[0] == 'd'; }
    SkipLines([header], KeptExtended(f.extended) + ContentText(f));
    SkipLines(KeptExtended(f.extended), ContentText(f));
    ContentHunks(f);
  }
}
