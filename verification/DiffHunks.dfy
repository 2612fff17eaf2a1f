/** Parsing one file's unified diff into hunks (internal/diff/hunk.go). */
module DiffHunks {
  import opened Options
  import opened TextLines
  import opened Sequences

  datatype LineType = Context | Added | Deleted

  datatype HunkLine = HunkLine(kind: LineType, content: string)

  datatype Hunk = Hunk(header: Header, lines: seq<HunkLine>)

  const NO_NEWLINE_MARK := "\\ No newline at end of file"
  const DIFF_GIT := "diff --git "

  function ToHunkLine(line: string): HunkLine {
    if "+" <= line then HunkLine(Added, line[1..])
    else if "-" <= line then HunkLine(Deleted, line[1..])
    else HunkLine(Context, if " " <= line then line[1..] else line)
  }

  /** A line inside a hunk that carries no content. */
  predicate IsMark(line: string) {
    NO_NEWLINE_MARK <= line
  }

  /** The lines that belong to a hunk, from just behind its header: up to the next header, the next file or
      the end, without the no-newline marks. */
  function HunkBody(lines: seq<string>): seq<HunkLine> {
    if lines == [] || ParseHeader(lines[0]).Some? then []
    else if IsMark(lines[0]) then HunkBody(lines[1..])
    else if DIFF_GIT <= lines[0] then []
    else [ToHunkLine(lines[0])] + HunkBody(lines[1..])
  }

  /** What is left of the text when the hunk that starts at `lines` ends. */
  function AfterBody(lines: seq<string>): (rest: seq<string>)
    ensures |rest| <= |lines|
  {
    if lines == [] || ParseHeader(lines[0]).Some? then lines
    else if !IsMark(lines[0]) && DIFF_GIT <= lines[0] then []
    else AfterBody(lines[1..])
  }

  /** The hunks of a text: one for each header before the next file starts. */
  function HunksOf(lines: seq<string>): seq<Hunk>
    decreases |lines|
  {
    if lines == [] then []
    else
      match ParseHeader(lines[0])
      case None => HunksOf(lines[1..])
      case Some(h) => [Hunk(h, HunkBody(lines[1..]))] + HunksOf(AfterBody(lines[1..]))
  }

  /** The hunks still to come when `current` is open in front of `lines`. */
  function Pending(current: Option<Hunk>, lines: seq<string>): seq<Hunk> {
    match current
    case None => HunksOf(lines)
    case Some(h) => [Hunk(h.header, h.lines + HunkBody(lines))] + HunksOf(AfterBody(lines))
  }

  lemma PendingStep(current: Option<Hunk>, lines: seq<string>)
    requires lines != []
    ensures Pending(current, lines) ==
            match ParseHeader(lines[0])
            case Some(h) => (if current.Some? then [current.value] else []) + Pending(Some(Hunk(h, [])), lines[1..])
            case None =>
              if current.None? || IsMark(lines[0]) then Pending(current, lines[1..])
              else if DIFF_GIT <= lines[0] then [current.value]
              else Pending(Some(Hunk(current.value.header, current.value.lines + [ToHunkLine(lines[0])])), lines[1..])
  {
    if current.Some? {
      var h := current.value;
      assert h.lines + [] == h.lines;
      assert h.lines + ([ToHunkLine(lines[0])] + HunkBody(lines[1..]))
             == h.lines + [ToHunkLine(lines[0])] + HunkBody(lines[1..]);
    }
    assert [] + HunkBody(lines[1..]) == HunkBody(lines[1..]);
  }

  lemma PendingEnd(current: Option<Hunk>)
    ensures Pending(current, []) == if current.Some? then [current.value] else []
  {
    if current.Some? {
      assert current.value.lines + [] == current.value.lines;
    }
  }

  method AppendLine(h: Hunk, line: string) returns (r: Hunk)
    ensures r == Hunk(h.header, h.lines + [ToHunkLine(line)])
  {
    if "+" <= line {
      r := h.(lines := h.lines + [HunkLine(Added, line[1..])]);
    } else if "-" <= line {
      r := h.(lines := h.lines + [HunkLine(Deleted, line[1..])]);
    } else {
      var content := line;
      if |content| > 0 && content[0] == ' ' {
        content := content[1..];
      }
      r := h.(lines := h.lines + [HunkLine(Context, content)]);
    }
  }

  method ParseHunks(rawDiffText: string) returns (hunks: seq<Hunk>)
    ensures hunks == HunksOf(Split(rawDiffText))
  {
    var lines := Split(rawDiffText);
    hunks := [];
    var current: Option<Hunk> := None;
    var i := 0;
    while i < |lines|
      invariant 0 <= i <= |lines|
      invariant hunks + Pending(current, lines[i..]) == HunksOf(lines)
    {
      var line := lines[i];
      PendingStep(current, lines[i..]);
      i := i + 1;
      var m := ParseHeader(line);
      if m.Some? {
        ghost var next := Some(Hunk(m.value, []));
        if current.Some? {
          Reassociate(hunks, [current.value], Pending(next, lines[i..]));
          hunks := hunks + [current.value];
        }
        current := Some(Hunk(m.value, []));
        continue;
      }
      if current.None? || IsMark(line) {
        continue;
      }
      if DIFF_GIT <= line {
        return hunks + [current.value];
      }
      var h := AppendLine(current.value, line);
      current := Some(h);
    }
    PendingEnd(current);
    if current.Some? {
      hunks := hunks + [current.value];
    }
  }

  // ---------------------------------------------------------------- counting

  function CountKind(lines: seq<HunkLine>, kind: LineType): nat {
    if lines == [] then 0 else (if lines[0].kind == kind then 1 else 0) + CountKind(lines[1..], kind)
  }

  function CountInHunks(hunks: seq<Hunk>, kind: LineType): nat {
    if hunks == [] then 0 else CountKind(hunks[0].lines, kind) + CountInHunks(hunks[1..], kind)
  }

  // ---------------------------------------------------------------- where a file ends

  ghost predicate IsOneFile(lines: seq<string>) {
    forall l :: l in lines ==> !("diff --git " <= l)
  }

  lemma {:induction false} BodyEndsAtFile(lines: seq<string>, next: string, more: seq<string>)
    requires IsOneFile(lines) && "diff --git " <= next
    ensures HunkBody(lines + [next] + more) == HunkBody(lines)
    ensures AfterBody(lines + [next] + more) == if AfterBody(lines) == [] then [] else AfterBody(lines) + [next] + more
    ensures AfterBody(lines) != [] ==> ParseHeader(AfterBody(lines)[0]).Some? && IsOneFile(AfterBody(lines))
    decreases |lines|
  {
    var all := lines + [next] + more;
    FileIsNoHeader(next);
    hide ParseHeader;
    if lines != [] {
      assert all[0] == lines[0] && all[1..] == lines[1..] + [next] + more;
      assert lines[0] in lines && forall l :: l in lines[1..] ==> l in lines;
      BodyEndsAtFile(lines[1..], next, more);
    } else {
      assert all[0] == next;
    }
  }

  lemma FileIsNoHeader(line: string)
    requires "diff --git " <= line
    ensures ParseHeader(line).None? && !IsMark(line)
  {
    assert line[0] == 'd';
  }

  /** The header of the next file ends the last hunk, and nothing behind it belongs to this one. */
  lemma {:induction false} HunksEndAtFile(lines: seq<string>, next: string, more: seq<string>)
    requires IsOneFile(lines) && lines != [] && ParseHeader(lines[0]).Some? && "diff --git " <= next
    ensures HunksOf(lines + [next] + more) == HunksOf(lines)
    decreases |lines|
  {
    hide ParseHeader, HunkBody, AfterBody;
    var rest := lines[1..];
    var all := lines + [next] + more;
    assert all[0] == lines[0] && all[1..] == rest + [next] + more;
    assert forall l :: l in rest ==> l in lines;
    BodyEndsAtFile(rest, next, more);
    if AfterBody(rest) == [] {
      assert HunksOf([]) == [];
    } else {
      HunksEndAtFile(AfterBody(rest), next, more);
    }
  }
}
