/** The line numbers the resolver reports address the files the hunks transform. */
module LineAddresses {
  import opened Options
  import opened TextLines
  import opened DiffHunks
  import opened UntrackedDiffs
  import opened LineResolver

  // ---------------------------------------------------------------- applying hunks

  /** How many lines of a hunk its header counts: up to where both counts are used up. */
  function BodyLength(lines: seq<HunkLine>, oldLeft: int, newLeft: int): (n: nat)
    ensures n <= |lines|
  {
    if lines == [] || (oldLeft <= 0 && newLeft <= 0) then 0
    else
      1 + BodyLength(lines[1..], oldLeft - (if OnSide(lines[0], false) then 1 else 0),
                     newLeft - (if OnSide(lines[0], true) then 1 else 0))
  }

  function Body(h: Hunk): seq<HunkLine> {
    h.lines[..BodyLength(h.lines, h.header.oldCount, h.header.newCount)]
  }

  /** The header's counts are those of the body, and behind the body there is only blank context, as the
      newlines at the end of a section leave it. */
  predicate HunkOk(h: Hunk) {
    && |SideText(Body(h), false)| == h.header.oldCount
    && |SideText(Body(h), true)| == h.header.newCount
    && forall k :: |Body(h)| <= k < |h.lines| ==> h.lines[k] == HunkLine(Context, "")
  }

  /** The lines in front of a side's first line; a side without lines names the line before it. */
  function Before(start: nat, count: nat): int {
    if count == 0 then start else start - 1
  }

  /** Applies hunks to `old` from line `pos` on, when `made` lines of the new file are already there. */
  function Apply(old_: seq<string>, hunks: seq<Hunk>, pos: nat, made: nat): Option<seq<string>>
    requires pos <= |old_|
    decreases |hunks|
  {
    if hunks == [] then Some(old_[pos..])
    else
      var h := hunks[0];
      var at := Before(h.header.oldStart, h.header.oldCount);
      var end := at + h.header.oldCount;
      if !HunkOk(h) || at < pos || end > |old_| || old_[at..end] != SideText(Body(h), false)
         || Before(h.header.newStart, h.header.newCount) != made + (at - pos)
      then None
      else
        match Apply(old_, hunks[1..], end, made + (at - pos) + h.header.newCount)
        case None => None
        case Some(rest) => Some(old_[pos..at] + SideText(Body(h), true) + rest)
  }

  /** The hunks turn the old file into the new one. */
  predicate Transforms(hunks: seq<Hunk>, old_: seq<string>, new_: seq<string>) {
    Apply(old_, hunks, 0, 0) == Some(new_)
  }

  // ---------------------------------------------------------------- side lines are file lines

  lemma {:induction false} SideConcat(a: seq<HunkLine>, b: seq<HunkLine>, newSide: bool)
    ensures SideText(a + b, newSide) == SideText(a, newSide) + SideText(b, newSide)
    decreases |b|
  {
    if b == [] {
      assert a + b == a;
    } else {
      SideConcat(a, b[..|b| - 1], newSide);
      assert (a + b)[..|a + b| - 1] == a + b[..|b| - 1];
    }
  }

  lemma {:induction false} BlankSide(lines: seq<HunkLine>, newSide: bool, k: nat)
    requires forall j :: 0 <= j < |lines| ==> lines[j] == HunkLine(Context, "")
    requires k < |SideText(lines, newSide)|
    ensures SideText(lines, newSide)[k] == ""
    decreases |lines|
  {
    if k < |SideText(lines[..|lines| - 1], newSide)| {
      BlankSide(lines[..|lines| - 1], newSide, k);
    }
  }

  function Count(h: Header, newSide: bool): nat {
    if newSide then h.newCount else h.oldCount
  }

  /** A side of a hunk is the side of its body and then blanks. */
  lemma SideOfHunk(h: Hunk, newSide: bool, k: nat)
    requires HunkOk(h) && k < |SideText(h.lines, newSide)|
    ensures |SideText(Body(h), newSide)| == Count(h.header, newSide)
    ensures SideText(h.lines, newSide)[k]
            == if k < Count(h.header, newSide) then SideText(Body(h), newSide)[k] else ""
  {
    var pad := h.lines[|Body(h)|..];
    SideConcat(Body(h), pad, newSide);
    assert h.lines == Body(h) + pad;
    if k >= Count(h.header, newSide) {
      BlankSide(pad, newSide, k - Count(h.header, newSide));
    }
  }

  /** The hunk stands in both files where its header says; `made` new lines lie in front of `new_`. */
  predicate Stands(h: Hunk, old_: seq<string>, new_: seq<string>, pos: nat, made: nat) {
    var at := Before(h.header.newStart, h.header.newCount) - made;
    var from := Before(h.header.oldStart, h.header.oldCount);
    && HunkOk(h)
    && 0 <= at && at + h.header.newCount <= |new_|
    && new_[at..at + h.header.newCount] == SideText(Body(h), true)
    && pos <= from && from + h.header.oldCount <= |old_|
    && old_[from..from + h.header.oldCount] == SideText(Body(h), false)
  }

  lemma FirstStands(old_: seq<string>, hunks: seq<Hunk>, pos: nat, made: nat)
    requires pos <= |old_| && hunks != [] && Apply(old_, hunks, pos, made).Some?
    ensures Stands(hunks[0], old_, Apply(old_, hunks, pos, made).value, pos, made)
  {
    var h := hunks[0];
    var at := Before(h.header.oldStart, h.header.oldCount);
    var body := SideText(Body(h), true);
    var new_ := Apply(old_, hunks, pos, made).value;
    assert new_[at - pos..at - pos + |body|] == body;
  }

  lemma StandsBehind(h: Hunk, old_: seq<string>, front: seq<string>, rest: seq<string>, pos: nat, made: nat, pos': nat)
    requires Stands(h, old_, rest, pos', made + |front|) && pos <= pos'
    ensures Stands(h, old_, front + rest, pos, made)
  {
    var at := Before(h.header.newStart, h.header.newCount) - made;
    var n := h.header.newCount;
    assert (front + rest)[at..at + n] == rest[at - |front|..at - |front| + n];
  }

  /** Where the hunks apply, each of them stands. */
  lemma {:induction false} HunkStands(old_: seq<string>, hunks: seq<Hunk>, pos: nat, made: nat, i: nat)
    requires pos <= |old_| && Apply(old_, hunks, pos, made).Some? && i < |hunks|
    ensures Stands(hunks[i], old_, Apply(old_, hunks, pos, made).value, pos, made)
    decreases |hunks|
  {
    if i == 0 {
      FirstStands(old_, hunks, pos, made);
    } else {
      var h := hunks[0];
      var at := Before(h.header.oldStart, h.header.oldCount);
      var end := at + h.header.oldCount;
      var front := old_[pos..at] + SideText(Body(h), true);
      HunkStands(old_, hunks[1..], end, made + |front|, i - 1);
      StandsBehind(hunks[i], old_, front, Apply(old_, hunks[1..], end, made + |front|).value, pos, made, end);
    }
  }

  lemma StandingLine(h: Hunk, old_: seq<string>, new_: seq<string>, newSide: bool, k: nat)
    requires Stands(h, old_, new_, 0, 0) && k < Count(h.header, newSide)
    ensures var l := SideStart(h.header, newSide) + k;
            var file := if newSide then new_ else old_;
            1 <= l <= |file| && k < |SideText(Body(h), newSide)| && file[l - 1] == SideText(Body(h), newSide)[k]
  {
    var file := if newSide then new_ else old_;
    var at := SideStart(h.header, newSide) - 1;
    assert file[at..at + Count(h.header, newSide)][k] == file[at + k];
  }

  /** For hunks that turn `old_` into `new_`, a side line is either the normalised text of the very line it
      is numbered with, in the new or the old file, or blank. */
  lemma SideLinesAddressTheFiles(old_: seq<string>, new_: seq<string>, hunks: seq<Hunk>, i: nat, newSide: bool, k: nat)
    requires Transforms(hunks, old_, new_) && i < |hunks| && k < |Side(hunks[i], newSide)|
    ensures var l := Side(hunks[i], newSide)[k];
            var file := if newSide then new_ else old_;
            if k < Count(hunks[i].header, newSide)
            then 1 <= l.lineNum <= |file| && l.content == Normalize(file[l.lineNum - 1])
            else l.content == ""
  {
    var h := hunks[i];
    HunkStands(old_, hunks, 0, 0, i);
    SideOfHunk(h, newSide, k);
    if k < Count(h.header, newSide) {
      StandingLine(h, old_, new_, newSide, k);
    } else {
      BlankIsBlank();
    }
  }

  // ---------------------------------------------------------------- resolved hunks

  /** The match comes from the first hunk that has one. */
  lemma {:induction false} MatchedHunk(hunks: seq<Hunk>, newSide: bool, target: seq<string>) returns (i: nat)
    requires MatchHunks(hunks, newSide, target).Some?
    ensures i < |hunks| && Match(Side(hunks[i], newSide), target) == MatchHunks(hunks, newSide, target)
    ensures forall j :: 0 <= j < i ==> Match(Side(hunks[j], newSide), target).None?
    decreases |hunks|
  {
    if Match(Side(hunks[0], newSide), target).Some? {
      i := 0;
    } else {
      var k := MatchedHunk(hunks[1..], newSide, target);
      i := k + 1;
      forall j | 0 <= j < i ensures Match(Side(hunks[j], newSide), target).None? {
        if j > 0 {
          assert hunks[j] == hunks[1..][j - 1];
        }
      }
    }
  }

  lemma {:induction false} UnmatchedHunks(hunks: seq<Hunk>, newSide: bool, target: seq<string>, j: nat, v: nat)
    requires MatchHunks(hunks, newSide, target).None? && target != [] && j < |hunks|
    ensures !WindowAt(Side(hunks[j], newSide), target, v)
    decreases |hunks|
  {
    if j > 0 {
      UnmatchedHunks(hunks[1..], newSide, target, j - 1, v);
    } else if WindowAt(Side(hunks[0], newSide), target, v) {
      FirstWindowIsFirst(Side(hunks[0], newSide), target, 0, v);
    }
  }

  /** The lines `span` of `file` are, normalised, the quoted lines one by one. */
  predicate Quotes(file: seq<string>, span: Span, target: seq<string>) {
    && 1 <= span.start && span.end <= |file|
    && span.end - span.start + 1 == |target|
    && forall j :: 0 <= j < |target| ==> Normalize(file[span.start - 1 + j]) == target[j]
  }

  lemma WindowLineQuotes(
    old_: seq<string>, new_: seq<string>, hunks: seq<Hunk>, newSide: bool, target: seq<string>, i: nat, w: nat, j: nat)
    requires Transforms(hunks, old_, new_) && i < |hunks|
    requires WindowAt(Side(hunks[i], newSide), target, w) && j < |target| && target[j] != ""
    ensures var l := Side(hunks[i], newSide)[w + j].lineNum;
            var file := if newSide then new_ else old_;
            && 1 <= l <= |file| && Normalize(file[l - 1]) == target[j]
            && l == Side(hunks[i], newSide)[w].lineNum + j
  {
    assert Side(hunks[i], newSide)[w + j].content == target[j];
    SideLinesAddressTheFiles(old_, new_, hunks, i, newSide, w + j);
  }

  lemma WindowQuotes(
    old_: seq<string>, new_: seq<string>, hunks: seq<Hunk>, newSide: bool, target: seq<string>, i: nat, w: nat)
    requires Transforms(hunks, old_, new_) && i < |hunks| && target != []
    requires forall k :: 0 <= k < |target| ==> target[k] != ""
    requires WindowAt(Side(hunks[i], newSide), target, w)
    ensures var side := Side(hunks[i], newSide);
            Quotes(if newSide then new_ else old_, Span(side[w].lineNum, side[w + |target| - 1].lineNum), target)
  {
    hide Normalize, Transforms, SideText;
    var file := if newSide then new_ else old_;
    var start := Side(hunks[i], newSide)[w].lineNum;
    WindowLineQuotes(old_, new_, hunks, newSide, target, i, w, 0);
    WindowLineQuotes(old_, new_, hunks, newSide, target, i, w, |target| - 1);
    forall j | 0 <= j < |target| ensures start + j <= |file| && Normalize(file[start - 1 + j]) == target[j] {
      WindowLineQuotes(old_, new_, hunks, newSide, target, i, w, j);
    }
  }

  lemma MatchQuotes(
    old_: seq<string>, new_: seq<string>, hunks: seq<Hunk>, newSide: bool, target: seq<string>, i: nat)
    requires Transforms(hunks, old_, new_) && i < |hunks|
    requires forall k :: 0 <= k < |target| ==> target[k] != ""
    requires Match(Side(hunks[i], newSide), target).Some?
    ensures Quotes(if newSide then new_ else old_, Match(Side(hunks[i], newSide), target).value, target)
  {
    var w := FirstWindow(Side(hunks[i], newSide), target, 0).value;
    FirstWindowIsWindow(Side(hunks[i], newSide), target, 0);
    WindowQuotes(old_, new_, hunks, newSide, target, i, w);
  }

  /** A comment resolved from hunks that turn the old file into the new one lands on lines of the new file,
      or failing that of the old file, that are its quoted lines; unresolved, no window of either side of
      any hunk holds them. */
  lemma HunkResolutionQuotes(d: Diff, code: string, old_: seq<string>, new_: seq<string>)
    requires Transforms(HunksOf(Split(d.diff)), old_, new_) && Target(code) != []
    ensures var hunks, target := HunksOf(Split(d.diff)), Target(code);
            match FromHunks(d, code)
            case Some(span) => Quotes(if MatchHunks(hunks, true, target).Some? then new_ else old_, span, target)
            case None => forall i, w: nat, newSide :: 0 <= i < |hunks| ==> !WindowAt(Side(hunks[i], newSide), target, w)
  {
    var hunks, target := HunksOf(Split(d.diff)), Target(code);
    if MatchHunks(hunks, true, target).Some? {
      var i := MatchedHunk(hunks, true, target);
      MatchQuotes(old_, new_, hunks, true, target, i);
    } else if MatchHunks(hunks, false, target).Some? {
      var i := MatchedHunk(hunks, false, target);
      MatchQuotes(old_, new_, hunks, false, target, i);
    } else {
      forall i, w: nat, newSide | 0 <= i < |hunks| ensures !WindowAt(Side(hunks[i], newSide), target, w) {
        UnmatchedHunks(hunks, newSide, target, i, w);
      }
    }
  }

  // ---------------------------------------------------------------- resolved files

  lemma {:induction false} NonBlankConcat(a: seq<string>, b: seq<string>)
    ensures NonBlank(a + b) == NonBlank(a) + NonBlank(b)
    decreases |b|
  {
    if b == [] {
      assert a + b == a;
    } else {
      NonBlankConcat(a, b[..|b| - 1]);
      assert (a + b)[..|a + b| - 1] == a + b[..|b| - 1];
    }
  }

  /** The i-th listed line is the non-blank line with i non-blank lines before it. */
  lemma {:induction false} FileLineAt(lines: seq<string>, i: nat)
    requires i < |FileLines(lines)|
    ensures var l := FileLines(lines)[i];
            && 1 <= l.lineNum <= |lines| && l.content == Normalize(lines[l.lineNum - 1]) != ""
            && |NonBlank(lines[..l.lineNum - 1])| == i
    decreases |lines|
  {
    hide Normalize;
    var n := |lines| - 1;
    FileLinesCount(lines[..n]);
    if i < |FileLines(lines[..n])| {
      FileLineAt(lines[..n], i);
      var l := FileLines(lines)[i];
      assert lines[..n][..l.lineNum - 1] == lines[..l.lineNum - 1];
    }
  }

  lemma {:induction false} FileLinesCount(lines: seq<string>)
    ensures |FileLines(lines)| == |NonBlank(lines)|
    ensures forall k :: 0 <= k < |NonBlank(lines)| ==> FileLines(lines)[k].content == NonBlank(lines)[k]
    decreases |lines|
  {
    if lines != [] {
      FileLinesCount(lines[..|lines| - 1]);
    }
  }

  lemma MatchInFile(lines: seq<string>, target: seq<string>, span: Span)
    requires Match(FileLines(lines), target) == Some(span)
    ensures target != [] && IsText(lines, span) && NonBlank(lines[span.start - 1..span.end]) == target
  {
    hide NonBlank, Normalize, FileLines, Match;
    var w := MatchedWindow(lines, target, span);
    SpanText(lines, span, w, |target|);
  }

  /** The span lies in the file and begins and ends on a line that is not blank. */
  predicate IsText(lines: seq<string>, span: Span) {
    && 1 <= span.start <= span.end <= |lines|
    && Normalize(lines[span.start - 1]) != "" && Normalize(lines[span.end - 1]) != ""
  }

  lemma SpanText(lines: seq<string>, span: Span, w: nat, n: nat)
    requires n > 0 && w + n <= |FileLines(lines)|
    requires FileLines(lines)[w].lineNum == span.start && FileLines(lines)[w + n - 1].lineNum == span.end
    ensures IsText(lines, span) && w + n <= |NonBlank(lines)|
    ensures NonBlank(lines[span.start - 1..span.end]) == NonBlank(lines)[w..w + n]
  {
    hide NonBlank, Normalize, FileLines;
    SpanOfWindow(lines, span, w, n);
    WindowText(lines, span.start, span.end, w, n);
  }

  lemma SpanOfWindow(lines: seq<string>, span: Span, w: nat, n: nat)
    requires n > 0 && w + n <= |FileLines(lines)|
    requires FileLines(lines)[w].lineNum == span.start && FileLines(lines)[w + n - 1].lineNum == span.end
    ensures 1 <= span.start <= |lines| && 1 <= span.end <= |lines|
    ensures |NonBlank(lines[..span.start - 1])| == w && |NonBlank(lines[..span.end - 1])| == w + n - 1
    ensures Normalize(lines[span.start - 1]) != "" && Normalize(lines[span.end - 1]) != ""
  {
    hide Normalize;
    FileLineAt(lines, w);
    FileLineAt(lines, w + n - 1);
  }

  lemma MatchedWindow(lines: seq<string>, target: seq<string>, span: Span) returns (w: nat)
    requires Match(FileLines(lines), target) == Some(span)
    ensures target != [] && w + |target| <= |FileLines(lines)| == |NonBlank(lines)|
    ensures FileLines(lines)[w].lineNum == span.start && FileLines(lines)[w + |target| - 1].lineNum == span.end
    ensures NonBlank(lines)[w..w + |target|] == target
  {
    w := FirstWindow(FileLines(lines), target, 0).value;
    FirstWindowIsWindow(FileLines(lines), target, 0);
    WindowIsSlice(lines, target, w);
    FileLinesCount(lines);
  }

  /** A comment resolved from the file's content spans lines whose non-blank ones are exactly the quoted
      lines, beginning and ending on one. */
  lemma FileResolutionQuotes(d: Diff, code: string, span: Span)
    requires FromFile(d, code) == Some(span)
    ensures var lines := Split(d.newFileContent);
            Target(code) != [] && IsText(lines, span) && NonBlank(lines[span.start - 1..span.end]) == Target(code)
  {
    MatchInFile(Split(d.newFileContent), Target(code), span);
  }

  lemma WindowIsSlice(lines: seq<string>, target: seq<string>, w: nat)
    requires WindowAt(FileLines(lines), target, w)
    ensures w + |target| <= |NonBlank(lines)| && NonBlank(lines)[w..w + |target|] == target
  {
    FileLinesCount(lines);
    forall j | 0 <= j < |target| ensures NonBlank(lines)[w + j] == target[j] {
      assert FileLines(lines)[w + j].content == target[j];
    }
  }

  lemma NonBlankSlice(lines: seq<string>, from: nat, to: nat)
    requires from <= to <= |lines|
    ensures NonBlank(lines[..to]) == NonBlank(lines[..from]) + NonBlank(lines[from..to])
  {
    hide NonBlank;
    NonBlankConcat(lines[..from], lines[from..to]);
    assert lines[..from] + lines[from..to] == lines[..to];
  }

  lemma WindowText(lines: seq<string>, start: nat, end: nat, w: nat, n: nat)
    requires 1 <= start <= |lines| && 1 <= end <= |lines| && n > 0
    requires |NonBlank(lines[..start - 1])| == w && |NonBlank(lines[..end - 1])| == w + n - 1
    requires Normalize(lines[end - 1]) != ""
    ensures start <= end && w + n <= |NonBlank(lines)| && NonBlank(lines[start - 1..end]) == NonBlank(lines)[w..w + n]
  {
    hide Normalize;
    assert lines[..end][..end - 1] == lines[..end - 1];
    assert |NonBlank(lines[..end])| == w + n;
    assert start <= end by {
      if end < start {
        NonBlankSlice(lines, end, start - 1);
      }
    }
    NonBlankSlice(lines, start - 1, end);
    NonBlankSlice(lines, end, |lines|);
    assert lines[..|lines|] == lines;
    SliceOfConcat(NonBlank(lines[..start - 1]), NonBlank(lines[start - 1..end]), NonBlank(lines[end..]));
  }

  lemma SliceOfConcat(a: seq<string>, b: seq<string>, c: seq<string>)
    ensures (a + b + c)[|a|..|a| + |b|] == b
  {
  }

  // ---------------------------------------------------------------- untracked files

  lemma {:induction false} AddedSide(lines: seq<string>)
    ensures SideText(AddedLines(lines), true) == lines && SideText(AddedLines(lines), false) == []
    ensures |AddedLines(lines)| == |lines|
    decreases |lines|
  {
    if lines != [] {
      var first := [HunkLine(Added, lines[0])];
      AddedSide(lines[1..]);
      SideConcat(first, AddedLines(lines[1..]), true);
      SideConcat(first, AddedLines(lines[1..]), false);
      assert first[..0] == [];
      assert SideText(first, true) == [lines[0]] && SideText(first, false) == [];
    }
  }

  lemma {:induction false} BlankHunkLines(n: nat)
    ensures |BlankLines(n)| == n && forall k :: 0 <= k < n ==> BlankLines(n)[k] == HunkLine(Context, "")
  {
    if n > 0 {
      BlankHunkLines(n - 1);
    }
  }

  lemma {:induction false} AddedBody(lines: seq<string>, blanks: nat)
    ensures BodyLength(AddedLines(lines) + BlankLines(blanks), 0, |lines|) == |lines|
    decreases |lines|
  {
    var all := AddedLines(lines) + BlankLines(blanks);
    if lines != [] {
      AddedBody(lines[1..], blanks);
      assert all[1..] == AddedLines(lines[1..]) + BlankLines(blanks);
    }
  }

  lemma AddedHunk(content: string, blanks: nat)
    ensures var h, lines := ExpectedHunk(content, blanks), ContentLines(content);
            HunkOk(h) && SideText(Body(h), true) == lines && SideText(Body(h), false) == []
  {
    var lines, h := ContentLines(content), ExpectedHunk(content, blanks);
    AddedSide(lines);
    AddedBody(lines, blanks);
    BlankHunkLines(blanks);
    assert Body(h) == AddedLines(lines);
  }

  lemma ApplyToNothing(h: Hunk, lines: seq<string>)
    requires HunkOk(h) && SideText(Body(h), true) == lines && SideText(Body(h), false) == []
    requires h.header == Header(0, 0, 1, |lines|)
    ensures Transforms([h], [], lines) <==> lines != []
  {
    assert [h][1..] == [];
    var none: seq<string> := [];
    assert none + lines + none == lines;
    assert Apply(none, [], 0, |lines|) == Some(none);
  }

  /** The diff printed for an untracked file turns the empty file into it, except for an empty file, whose
      header names line 1 of a side without lines. */
  lemma UntrackedTransforms(content: string, blanks: nat)
    ensures Transforms([ExpectedHunk(content, blanks)], [], ContentLines(content)) <==> ContentLines(content) != []
  {
    AddedHunk(content, blanks);
    ApplyToNothing(ExpectedHunk(content, blanks), ContentLines(content));
  }
}
