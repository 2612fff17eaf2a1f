/** Placing a comment on lines of a file by the code it quotes (internal/diff/resolver.go). */
module LineResolver {
  import opened Options
  import opened TextLines
  import opened DiffHunks
  import opened Strings

  // ---------------------------------------------------------------- normalised lines

  /** A line without surrounding white space and without one leading '+' and then one leading '-'. */
  function Normalize(s: string): string {
    TrimSpace(TrimPrefix(TrimPrefix(TrimSpace(s), "+"), "-"))
  }

  lemma BlankIsBlank()
    ensures Normalize("") == ""
  {
  }

  /** The normalised lines that are not blank. */
  function NonBlank(lines: seq<string>): (r: seq<string>)
    ensures forall k :: 0 <= k < |r| ==> r[k] != ""
  {
    if lines == [] then []
    else
      var n := |lines| - 1;
      NonBlank(lines[..n]) + if Normalize(lines[n]) == "" then [] else [Normalize(lines[n])]
  }

  function Target(code: string): seq<string> {
    NonBlank(Split(code))
  }

  method SplitAndNormalize(code: string) returns (result: seq<string>)
    ensures result == Target(code)
  {
    var raw := Split(code);
    result := [];
    for i := 0 to |raw|
      invariant result == NonBlank(raw[..i])
    {
      assert raw[..i + 1][..i] == raw[..i];
      var n := Normalize(raw[i]);
      if n == "" {
        continue;
      }
      result := result + [n];
    }
    assert raw[..|raw|] == raw;
  }

  // ---------------------------------------------------------------- one side of a hunk

  datatype IndexedLine = IndexedLine(lineNum: nat, content: string)

  predicate OnSide(l: HunkLine, newSide: bool) {
    if newSide then !l.kind.Deleted? else !l.kind.Added?
  }

  /** The lines of one side: context and added ones, or context and deleted ones. */
  function SideText(lines: seq<HunkLine>, newSide: bool): seq<string> {
    if lines == [] then []
    else
      var n := |lines| - 1;
      SideText(lines[..n], newSide) + if OnSide(lines[n], newSide) then [lines[n].content] else []
  }

  function SideStart(h: Header, newSide: bool): nat {
    if newSide then h.newStart else h.oldStart
  }

  /** `text` normalised and numbered from `start`. */
  function Numbered(text: seq<string>, start: nat): (r: seq<IndexedLine>)
    ensures |r| == |text|
    ensures forall k :: 0 <= k < |r| ==> r[k] == IndexedLine(start + k, Normalize(text[k]))
  {
    seq(|text|, k requires 0 <= k < |text| => IndexedLine(start + k, Normalize(text[k])))
  }

  function Side(h: Hunk, newSide: bool): seq<IndexedLine> {
    Numbered(SideText(h.lines, newSide), SideStart(h.header, newSide))
  }

  lemma NoSideText()
    ensures SideText([], true) == [] && SideText([], false) == []
  {
  }

  lemma SideTextStep(lines: seq<HunkLine>, i: nat, newSide: bool)
    requires i < |lines|
    ensures SideText(lines[..i + 1], newSide)
            == SideText(lines[..i], newSide) + if OnSide(lines[i], newSide) then [lines[i].content] else []
  {
    assert lines[..i + 1][..i] == lines[..i];
  }

  method ExtractSideLines(hunk: Hunk, newSide: bool) returns (result: seq<IndexedLine>)
    ensures result == Side(hunk, newSide)
  {
    hide Normalize, SideText;
    assert SideText(hunk.lines[..0], true) == [] && SideText(hunk.lines[..0], false) == [] by {
      NoSideText();
    }
    result := [];
    var oldLine := hunk.header.oldStart;
    var newLine := hunk.header.newStart;
    for i := 0 to |hunk.lines|
      invariant oldLine == hunk.header.oldStart + |SideText(hunk.lines[..i], false)|
      invariant newLine == hunk.header.newStart + |SideText(hunk.lines[..i], true)|
      invariant result == Numbered(SideText(hunk.lines[..i], newSide), SideStart(hunk.header, newSide))
    {
      var l := hunk.lines[i];
      SideTextStep(hunk.lines, i, true);
      SideTextStep(hunk.lines, i, false);
      match l.kind
      case Context =>
        if newSide {
          result := result + [IndexedLine(newLine, Normalize(l.content))];
        } else {
          result := result + [IndexedLine(oldLine, Normalize(l.content))];
        }
        oldLine := oldLine + 1;
        newLine := newLine + 1;
      case Added =>
        if newSide {
          result := result + [IndexedLine(newLine, Normalize(l.content))];
        }
        newLine := newLine + 1;
      case Deleted =>
        if !newSide {
          result := result + [IndexedLine(oldLine, Normalize(l.content))];
        }
        oldLine := oldLine + 1;
    }
    assert hunk.lines[..|hunk.lines|] == hunk.lines;
  }

  // ---------------------------------------------------------------- windows

  datatype Span = Span(start: nat, end: nat)

  predicate WindowAt(side: seq<IndexedLine>, target: seq<string>, i: nat) {
    i + |target| <= |side| && forall j :: 0 <= j < |target| ==> side[i + j].content == target[j]
  }

  /** The first window from `i` on. */
  function FirstWindow(side: seq<IndexedLine>, target: seq<string>, i: nat): (w: Option<nat>)
    ensures w.Some? ==> i <= w.value && w.value + |target| <= |side|
    decreases |side| - i
  {
    if i + |target| > |side| then None
    else if WindowAt(side, target, i) then Some(i)
    else FirstWindow(side, target, i + 1)
  }

  lemma {:induction false} FirstWindowIsWindow(side: seq<IndexedLine>, target: seq<string>, i: nat)
    requires FirstWindow(side, target, i).Some?
    ensures WindowAt(side, target, FirstWindow(side, target, i).value)
    decreases |side| - i
  {
    if !WindowAt(side, target, i) {
      FirstWindowIsWindow(side, target, i + 1);
    }
  }

  /** No window lies before the first one, and none at all where there is no first. */
  lemma {:induction false} FirstWindowIsFirst(side: seq<IndexedLine>, target: seq<string>, i: nat, k: nat)
    requires i <= k && WindowAt(side, target, k)
    ensures FirstWindow(side, target, i).Some? && FirstWindow(side, target, i).value <= k
    decreases k - i
  {
    if !WindowAt(side, target, i) {
      FirstWindowIsFirst(side, target, i + 1, k);
    }
  }

  /** The lines of the first window, if the target is not empty. */
  function Match(side: seq<IndexedLine>, target: seq<string>): Option<Span> {
    if target == [] then None
    else
      match FirstWindow(side, target, 0)
      case None => None
      case Some(i) => Some(Span(side[i].lineNum, side[i + |target| - 1].lineNum))
  }

  method WindowMatches(side: seq<IndexedLine>, target: seq<string>, i: nat) returns (matched: bool)
    requires i + |target| <= |side|
    ensures matched <==> WindowAt(side, target, i)
  {
    for j := 0 to |target|
      invariant forall k :: 0 <= k < j ==> side[i + k].content == target[k]
    {
      if side[i + j].content != target[j] {
        return false;
      }
    }
    return true;
  }

  method MatchConsecutive(sideLines: seq<IndexedLine>, targetLines: seq<string>)
    returns (startLine: nat, endLine: nat, found: bool)
    ensures Match(sideLines, targetLines) == if found then Some(Span(startLine, endLine)) else None
  {
    startLine, endLine, found := 0, 0, false;
    if |targetLines| == 0 || |sideLines| < |targetLines| {
      return;
    }
    var i := 0;
    while i <= |sideLines| - |targetLines|
      invariant i <= |sideLines| - |targetLines| + 1
      invariant FirstWindow(sideLines, targetLines, 0) == FirstWindow(sideLines, targetLines, i)
    {
      var matched := WindowMatches(sideLines, targetLines, i);
      if matched {
        return sideLines[i].lineNum, sideLines[i + |targetLines| - 1].lineNum, true;
      }
      i := i + 1;
    }
  }

  // ---------------------------------------------------------------- the resolvers

  datatype Diff = Diff(oldPath: string, newPath: string, diff: string, newFileContent: string)

  function MatchHunks(hunks: seq<Hunk>, newSide: bool, target: seq<string>): Option<Span> {
    if hunks == [] then None
    else
      var m := Match(Side(hunks[0], newSide), target);
      if m.Some? then m else MatchHunks(hunks[1..], newSide, target)
  }

  /** The first matching hunk on the new side, or else on the old side. */
  function FromHunks(d: Diff, code: string): Option<Span> {
    var m := MatchHunks(HunksOf(Split(d.diff)), true, Target(code));
    if m.Some? then m else MatchHunks(HunksOf(Split(d.diff)), false, Target(code))
  }

  /** The file's non-blank lines with their numbers. */
  function FileLines(lines: seq<string>): seq<IndexedLine> {
    if lines == [] then []
    else
      var n := |lines| - 1;
      FileLines(lines[..n]) + if Normalize(lines[n]) == "" then [] else [IndexedLine(n + 1, Normalize(lines[n]))]
  }

  function FromFile(d: Diff, code: string): Option<Span> {
    if d.newFileContent == "" then None else Match(FileLines(Split(d.newFileContent)), Target(code))
  }

  function Resolve(d: Diff, code: string): Option<Span> {
    if code == "" then None
    else
      var m := FromHunks(d, code);
      if m.Some? then m else FromFile(d, code)
  }

  class Comment {
    var path: string
    var existingCode: string
    var startLine: int
    var endLine: int

    constructor (path: string, existingCode: string, startLine: int, endLine: int)
      ensures this.path == path && this.existingCode == existingCode
      ensures this.startLine == startLine && this.endLine == endLine
    {
      this.path, this.existingCode, this.startLine, this.endLine := path, existingCode, startLine, endLine;
    }

    /** The lines become those of `m`, or stay. */
    twostate predicate Takes(m: Option<Span>)
      reads this
    {
      match m
      case Some(s) => startLine == s.start && endLine == s.end
      case None => startLine == old(startLine) && endLine == old(endLine)
    }
  }

  method MatchSide(hunks: seq<Hunk>, newSide: bool, target: seq<string>, cm: Comment) returns (ok: bool)
    modifies cm`startLine, cm`endLine
    ensures ok == MatchHunks(hunks, newSide, target).Some?
    ensures cm.Takes(MatchHunks(hunks, newSide, target))
  {
    for i := 0 to |hunks|
      invariant MatchHunks(hunks, newSide, target) == MatchHunks(hunks[i..], newSide, target)
      invariant cm.startLine == old(cm.startLine) && cm.endLine == old(cm.endLine)
    {
      var side := ExtractSideLines(hunks[i], newSide);
      var start, end, found := MatchConsecutive(side, target);
      if found {
        cm.startLine := start;
        cm.endLine := end;
        return true;
      }
    }
    return false;
  }

  method ResolveFromHunk(d: Diff, cm: Comment) returns (ok: bool)
    modifies cm`startLine, cm`endLine
    ensures ok == FromHunks(d, old(cm.existingCode)).Some?
    ensures cm.Takes(FromHunks(d, old(cm.existingCode)))
  {
    var hunks := ParseHunks(d.diff);
    if |hunks| == 0 {
      return false;
    }
    var target := SplitAndNormalize(cm.existingCode);
    if |target| == 0 {
      NothingMatches(hunks, true);
      NothingMatches(hunks, false);
      return false;
    }
    ok := MatchSide(hunks, true, target, cm);
    if !ok {
      ok := MatchSide(hunks, false, target, cm);
    }
  }

  lemma {:induction false} NothingMatches(hunks: seq<Hunk>, newSide: bool)
    ensures MatchHunks(hunks, newSide, []).None?
    decreases |hunks|
  {
    if hunks != [] {
      NothingMatches(hunks[1..], newSide);
    }
  }

  function TrimCarriageReturn(s: string): string {
    if s != "" && s[|s| - 1] == '\r' then TrimCarriageReturn(s[..|s| - 1]) else s
  }

  lemma {:induction false} LastSpaceIsTrimmed(s: string)
    requires s != "" && IsSpace(s[|s| - 1])
    ensures TrimSpace(s[..|s| - 1]) == TrimSpace(s)
    decreases |s|
  {
    var t := s[..|s| - 1];
    if |s| > 1 && IsSpace(s[0]) {
      LastSpaceIsTrimmed(s[1..]);
      assert s[1..][..|s| - 2] == t[1..];
    }
  }

  lemma {:induction false} CarriageReturnIsSpace(s: string)
    ensures Normalize(TrimCarriageReturn(s)) == Normalize(s)
    decreases |s|
  {
    if s != "" && s[|s| - 1] == '\r' {
      CarriageReturnIsSpace(s[..|s| - 1]);
      LastSpaceIsTrimmed(s);
    }
  }

  method ResolveFromFileContent(d: Diff, cm: Comment) returns (ok: bool)
    modifies cm`startLine, cm`endLine
    ensures ok == FromFile(d, old(cm.existingCode)).Some?
    ensures cm.Takes(FromFile(d, old(cm.existingCode)))
  {
    if d.newFileContent == "" {
      return false;
    }
    var fileLines := Split(d.newFileContent);
    var target := SplitAndNormalize(cm.existingCode);
    if |target| == 0 {
      return false;
    }
    var side := NonBlankFileLines(fileLines);
    var start, end, found := MatchConsecutive(side, target);
    if found {
      cm.startLine := start;
      cm.endLine := end;
    }
    return found;
  }

  method NonBlankFileLines(fileLines: seq<string>) returns (side: seq<IndexedLine>)
    ensures side == FileLines(fileLines)
  {
    side := [];
    for i := 0 to |fileLines|
      invariant side == FileLines(fileLines[..i])
    {
      assert fileLines[..i + 1][..i] == fileLines[..i];
      CarriageReturnIsSpace(fileLines[i]);
      var n := Normalize(TrimCarriageReturn(fileLines[i]));
      if n == "" {
        continue;
      }
      side := side + [IndexedLine(i + 1, n)];
    }
    assert fileLines[..|fileLines|] == fileLines;
  }

  method ResolveComment(cm: Comment, d: Diff) returns (ok: bool)
    modifies cm`startLine, cm`endLine
    ensures old(cm.startLine > 0 || cm.endLine > 0) ==>
              ok && cm.startLine == old(cm.startLine) && cm.endLine == old(cm.endLine)
    ensures !old(cm.startLine > 0 || cm.endLine > 0) ==>
              ok == Resolve(d, old(cm.existingCode)).Some? && cm.Takes(Resolve(d, old(cm.existingCode)))
  {
    if cm.startLine > 0 || cm.endLine > 0 {
      return true;
    }
    if cm.existingCode == "" {
      return false;
    }
    ok := ResolveFromHunk(d, cm);
    if !ok {
      ok := ResolveFromFileContent(d, cm);
    }
  }

  // ---------------------------------------------------------------- across files

  datatype Hit = Hit(path: string, span: Span)

  predicate IsOwn(d: Diff, path: string) {
    d.newPath == path || d.oldPath == path
  }

  function HitIn(d: Diff, path: string, code: string): Option<Hit> {
    if IsOwn(d, path) || Resolve(d, code).None? then None
    else Some(Hit(if d.newPath == "" then d.oldPath else d.newPath, Resolve(d, code).value))
  }

  /** Every other diff that holds the code, with the path and lines it puts it at. */
  function Hits(diffs: seq<Diff>, path: string, code: string): seq<Hit> {
    if diffs == [] then []
    else
      var h := HitIn(diffs[0], path, code);
      (if h.Some? then [h.value] else []) + Hits(diffs[1..], path, code)
  }

  /** Tries one diff on a copy of the comment, so that a failure leaves no line numbers behind. */
  method Probe(cm: Comment, d: Diff) returns (hit: Option<Hit>)
    ensures hit == HitIn(d, cm.path, cm.existingCode)
  {
    if d.newPath == cm.path || d.oldPath == cm.path {
      return None;
    }
    var probe := new Comment(cm.path, cm.existingCode, 0, 0);
    var resolved := ResolveComment(probe, d);
    if !resolved {
      return None;
    }
    var p := d.newPath;
    if p == "" {
      p := d.oldPath;
    }
    return Some(Hit(p, Span(probe.startLine, probe.endLine)));
  }

  lemma {:induction false} NoCodeNoHits(diffs: seq<Diff>, path: string, code: string)
    requires code == "" || diffs == []
    ensures Hits(diffs, path, code) == []
    decreases |diffs|
  {
    if diffs != [] {
      NoCodeNoHits(diffs[1..], path, code);
    }
  }

  lemma HitsStep(diffs: seq<Diff>, i: nat, path: string, code: string)
    requires i < |diffs|
    ensures Hits(diffs[i..], path, code) ==
            (if HitIn(diffs[i], path, code).Some? then [HitIn(diffs[i], path, code).value] else [])
            + Hits(diffs[i + 1..], path, code)
  {
    assert diffs[i..][1..] == diffs[i + 1..];
  }

  lemma TwoHits(a: seq<Hit>, b: seq<Hit>)
    requires |a| > 1
    ensures |a + b| > 1
  {
  }

  /** The hits up to the second, where the search gives up. */
  method FirstHits(cm: Comment, diffs: seq<Diff>) returns (hits: seq<Hit>)
    ensures var all := Hits(diffs, cm.path, cm.existingCode);
            if |all| <= 1 then hits == all else |hits| > 1
  {
    hide Hits, HitIn;
    hits := [];
    var i := 0;
    assert diffs[0..] == diffs;
    while i < |diffs|
      invariant 0 <= i <= |diffs| && |hits| <= 1
      invariant hits + Hits(diffs[i..], cm.path, cm.existingCode) == Hits(diffs, cm.path, cm.existingCode)
    {
      HitsStep(diffs, i, cm.path, cm.existingCode);
      ghost var rest := Hits(diffs[i + 1..], cm.path, cm.existingCode);
      var hit := Probe(cm, diffs[i]);
      i := i + 1;
      if hit.Some? {
        assert hits + ([hit.value] + rest) == hits + [hit.value] + rest;
        hits := hits + [hit.value];
        if |hits| > 1 {
          TwoHits(hits, rest);
          return;
        }
      }
    }
    assert diffs[i..] == [];
    NoCodeNoHits([], cm.path, cm.existingCode);
  }

  /** Re-files a comment exactly when one other diff holds its code; otherwise it is left alone. */
  method RelocateAcrossFiles(cm: Comment, diffs: seq<Diff>) returns (path: string, ok: bool)
    modifies cm`path, cm`startLine, cm`endLine
    ensures ok == (|Hits(diffs, old(cm.path), old(cm.existingCode))| == 1)
    ensures ok ==> var h := Hits(diffs, old(cm.path), old(cm.existingCode))[0];
                   path == h.path == cm.path && cm.startLine == h.span.start && cm.endLine == h.span.end
    ensures !ok ==> unchanged(cm)
  {
    path, ok := "", false;
    if cm.existingCode == "" || |diffs| == 0 {
      NoCodeNoHits(diffs, cm.path, cm.existingCode);
      return;
    }
    var hits := FirstHits(cm, diffs);
    if |hits| != 1 {
      return;
    }
    cm.path := hits[0].path;
    cm.startLine := hits[0].span.start;
    cm.endLine := hits[0].span.end;
    return hits[0].path, true;
  }


}
