/** Splitting text into lines, decimal numbers, and the two header lines of a unified diff. */
module TextLines {
  import opened Options

  predicate NoNewline(s: string) {
    '\n' !in s
  }

  predicate AreLines(lines: seq<string>) {
    forall k :: 0 <= k < |lines| ==> NoNewline(lines[k])
  }

  /** The text cut at every newline, as strings.Split does it: never empty. */
  function Split(s: string): (lines: seq<string>)
    ensures |lines| >= 1
    ensures AreLines(lines)
  {
    if s == "" then [""]
    else
      var rest := Split(s[1..]);
      if s[0] == '\n' then [""] + rest else [[s[0]] + rest[0]] + rest[1..]
  }

  /** Each line with a newline behind it. */
  function Unlines(lines: seq<string>): string {
    if lines == [] then "" else lines[0] + "\n" + Unlines(lines[1..])
  }

  lemma {:induction false} SplitLine(line: string, rest: string)
    requires NoNewline(line)
    ensures Split(line + "\n" + rest) == [line] + Split(rest)
    decreases |line|
  {
    var s := line + "\n" + rest;
    if line == "" {
      assert s[1..] == rest;
    } else {
      SplitLine(line[1..], rest);
      assert s[1..] == line[1..] + "\n" + rest;
      assert [line[0]] + line[1..] == line;
    }
  }

  lemma {:induction false} SplitUnlines(lines: seq<string>, rest: string)
    requires AreLines(lines)
    ensures Split(Unlines(lines) + rest) == lines + Split(rest)
    decreases |lines|
  {
    if lines == [] {
      assert Unlines(lines) + rest == rest;
    } else {
      SplitUnlines(lines[1..], rest);
      SplitLine(lines[0], Unlines(lines[1..]) + rest);
      assert Unlines(lines) + rest == lines[0] + "\n" + (Unlines(lines[1..]) + rest);
    }
  }

  lemma {:induction false} UnlinesConcat(a: seq<string>, b: seq<string>)
    ensures Unlines(a + b) == Unlines(a) + Unlines(b)
    decreases |a|
  {
    if a == [] {
      assert a + b == b;
    } else {
      UnlinesConcat(a[1..], b);
      assert (a + b)[1..] == a[1..] + b;
    }
  }

  /** strings.TrimSuffix with a newline. */
  function TrimNewline(s: string): string {
    if s != "" && s[|s| - 1] == '\n' then s[..|s| - 1] else s
  }

  /** A section's text is its lines again: the newline taken off is the one behind the last of them. */
  lemma SplitTrimmed(lines: seq<string>)
    requires AreLines(lines) && lines != []
    ensures Split(TrimNewline(Unlines(lines))) == lines
  {
    var n := |lines| - 1;
    var last := lines[n];
    assert lines == lines[..n] + [last];
    UnlinesConcat(lines[..n], [last]);
    assert Unlines([last]) == last + "\n" by { assert Unlines([last][1..]) == ""; }
    assert TrimNewline(Unlines(lines)) == Unlines(lines[..n]) + last;
    SplitUnlines(lines[..n], last);
    SplitSingle(last);
  }

  lemma {:induction false} SplitSingle(line: string)
    requires NoNewline(line)
    ensures Split(line) == [line]
    decreases |line|
  {
    if line != "" {
      SplitSingle(line[1..]);
      assert [line[0]] + line[1..] == line;
    }
  }

  // ---------------------------------------------------------------- numbers

  predicate IsDigit(c: char) {
    '0' <= c <= '9'
  }

  /** Length of the run of digits `s` starts with. */
  function DigitRun(s: string): (n: nat)
    ensures n <= |s|
    ensures forall k :: 0 <= k < n ==> IsDigit(s[k])
    ensures n < |s| ==> !IsDigit(s[n])
  {
    if s != "" && IsDigit(s[0]) then 1 + DigitRun(s[1..]) else 0
  }

  function Number(s: string): nat
    requires forall k :: 0 <= k < |s| ==> IsDigit(s[k])
  {
    if s == "" then 0
    else
      assert IsDigit(s[|s| - 1]);
      Number(s[..|s| - 1]) * 10 + (s[|s| - 1] as int - '0' as int)
  }

  function Decimal(n: nat): (s: string)
    ensures |s| > 0 && forall k :: 0 <= k < |s| ==> IsDigit(s[k])
  {
    var last := [('0' as int + n % 10) as char];
    if n < 10 then last else Decimal(n / 10) + last
  }

  /** Decimal notation: each further digit stands for ten times what is in front of it and its own value. */
  lemma NumberIsDecimal(s: string, d: nat)
    requires (forall k :: 0 <= k < |s| ==> '0' <= s[k] <= '9') && d < 10
    ensures Number("") == 0
    ensures var t := s + ["0123456789"[d]];
            (forall k :: 0 <= k < |t| ==> '0' <= t[k] <= '9') && Number(t) == 10 * Number(s) + d
  {
    var t := s + ["0123456789"[d]];
    assert "0123456789"[d] as int == '0' as int + d;
    assert t[..|t| - 1] == s;
  }

  lemma {:induction false} NumberOfDecimal(n: nat)
    ensures Number(Decimal(n)) == n
    decreases n
  {
    var s := Decimal(n);
    if n >= 10 {
      NumberOfDecimal(n / 10);
      assert s[..|s| - 1] == Decimal(n / 10);
    } else {
      assert s[..|s| - 1] == "";
    }
  }

  lemma {:induction false} DigitRunStops(s: string, rest: string)
    requires forall k :: 0 <= k < |s| ==> IsDigit(s[k])
    requires rest == "" || !IsDigit(rest[0])
    ensures DigitRun(s + rest) == |s|
    decreases |s|
  {
    if s == "" {
      assert s + rest == rest;
    } else {
      DigitRunStops(s[1..], rest);
      assert (s + rest)[1..] == s[1..] + rest;
    }
  }

  // ---------------------------------------------------------------- "@@ -a,b +c,d @@"

  datatype Range = Range(start: nat, count: nat, rest: string)

  /** A number, and a comma and a second number if both are there; the count is 1 otherwise. */
  function ParseRange(s: string): Option<Range> {
    var n := DigitRun(s);
    if n == 0 then None
    else
      var rest := s[n..];
      var m := if rest != "" && rest[0] == ',' then DigitRun(rest[1..]) else 0;
      if m == 0 then Some(Range(Number(s[..n]), 1, rest))
      else Some(Range(Number(s[..n]), Number(rest[1..][..m]), rest[1 + m..]))
  }

  datatype Header = Header(oldStart: nat, oldCount: nat, newStart: nat, newCount: nat)

  /** The regular expression for hunk headers, which has one way to match at most. */
  function ParseHeader(line: string): Option<Header> {
    if !("@@ -" <= line) then None
    else
      match ParseRange(line[4..])
      case None => None
      case Some(o) =>
        if !(" +" <= o.rest) then None
        else
          match ParseRange(o.rest[2..])
          case None => None
          case Some(n) =>
            if !(" @@" <= n.rest) then None
            else Some(Header(o.start, o.count, n.start, n.count))
  }

  lemma ReadsNumber(n: nat, rest: string)
    requires rest != "" && !IsDigit(rest[0])
    ensures var s := Decimal(n) + rest;
            var d := DigitRun(s);
            d == |Decimal(n)| > 0 && Number(s[..d]) == n && s[d..] == rest
  {
    DigitRunStops(Decimal(n), rest);
    assert (Decimal(n) + rest)[..|Decimal(n)|] == Decimal(n);
    NumberOfDecimal(n);
  }

  lemma ParsePrintedRange(start: nat, count: nat, rest: string)
    requires rest != "" && !IsDigit(rest[0])
    ensures ParseRange(Decimal(start) + ("," + (Decimal(count) + rest))) == Some(Range(start, count, rest))
  {
    var tail := Decimal(count) + rest;
    ReadsNumber(count, rest);
    ReadsNumber(start, "," + tail);
    assert ("," + tail)[1..] == tail;
    assert ("," + tail)[1 + DigitRun(tail)..] == tail[DigitRun(tail)..];
  }

  predicate AreDigits(s: string) {
    s != "" && forall k :: 0 <= k < |s| ==> '0' <= s[k] <= '9'
  }

  /** A count and the comma in front of it, or nothing. */
  function CountText(b: string): string {
    if b == "" then "" else "," + b
  }

  function CountIn(b: string): nat
    requires b == "" || AreDigits(b)
  {
    if b == "" then 1 else Number(b)
  }

  /** A hunk header as git writes it: either count may be left out, and any text may stand behind it. */
  predicate IsHeaderLine(line: string, a: string, b: string, c: string, d: string, heading: string) {
    && AreDigits(a) && AreDigits(c) && (b == "" || AreDigits(b)) && (d == "" || AreDigits(d))
    && line == "@@ -" + (a + (CountText(b) + (" +" + (c + (CountText(d) + (" @@" + heading))))))
  }

  lemma ReadsDigits(s: string, rest: string)
    requires AreDigits(s) && (rest == "" || !IsDigit(rest[0]))
    ensures DigitRun(s + rest) == |s| && (s + rest)[..|s|] == s && (s + rest)[|s|..] == rest
  {
    DigitRunStops(s, rest);
  }

  lemma NumberReads(a: string, rest: string)
    requires AreDigits(a) && rest != "" && !IsDigit(rest[0]) && rest[0] != ','
    ensures ParseRange(a + rest) == Some(Range(Number(a), 1, rest))
  {
    ReadsDigits(a, rest);
    hide DigitRun, Number;
  }

  lemma NumbersRead(a: string, b: string, rest: string)
    requires AreDigits(a) && AreDigits(b) && rest != "" && !IsDigit(rest[0])
    ensures ParseRange(a + ("," + b + rest)) == Some(Range(Number(a), Number(b), rest))
  {
    var tail := "," + b + rest;
    ReadsDigits(a, tail);
    ReadsDigits(b, rest);
    hide DigitRun, Number, AreDigits;
    assert tail[1..] == b + rest;
    assert tail[1 + |b|..] == rest;
  }

  lemma RangeReads(a: string, b: string, rest: string)
    requires AreDigits(a) && (b == "" || AreDigits(b)) && rest != "" && rest[0] == ' '
    ensures ParseRange(a + (CountText(b) + rest)) == Some(Range(Number(a), CountIn(b), rest))
  {
    hide ParseRange, Number, AreDigits;
    if b == "" {
      assert "" + rest == rest;
      NumberReads(a, rest);
    } else {
      NumbersRead(a, b, rest);
    }
  }

  lemma RangeWasRead(s: string) returns (a: string, b: string)
    requires ParseRange(s).Some?
    ensures AreDigits(a) && (b == "" || AreDigits(b))
    ensures var r := ParseRange(s).value;
            s == a + (CountText(b) + r.rest) && r.start == Number(a) && r.count == CountIn(b)
  {
    hide Number;
    var n := DigitRun(s);
    var rest := s[n..];
    a := s[..n];
    var m := if rest != "" && rest[0] == ',' then DigitRun(rest[1..]) else 0;
    b := if m == 0 then "" else rest[1..][..m];
    assert s == a + rest;
    assert m > 0 ==> rest == "," + b + rest[1 + m..];
    assert m == 0 ==> "" + rest == rest;
  }

  lemma HeaderReads(line: string, a: string, b: string, c: string, d: string, heading: string)
    requires IsHeaderLine(line, a, b, c, d, heading)
    ensures ParseHeader(line) == Some(Header(Number(a), CountIn(b), Number(c), CountIn(d)))
  {
    var end := " @@" + heading;
    var right := c + (CountText(d) + end);
    var middle := " +" + right;
    var left := a + (CountText(b) + middle);
    assert line[4..] == left && "@@ -" <= line;
    assert middle[2..] == right && " +" <= middle && " @@" <= end;
    RangeReads(a, b, middle);
    RangeReads(c, d, end);
    hide ParseRange, Number, AreDigits, CountText;
  }

  lemma HeaderWasRead(line: string) returns (a: string, b: string, c: string, d: string, heading: string)
    requires ParseHeader(line).Some?
    ensures IsHeaderLine(line, a, b, c, d, heading)
    ensures ParseHeader(line).value == Header(Number(a), CountIn(b), Number(c), CountIn(d))
  {
    hide ParseRange, Number, AreDigits, CountText;
    a, b := RangeWasRead(line[4..]);
    var o := ParseRange(line[4..]).value.rest;
    c, d := RangeWasRead(o[2..]);
    var n := ParseRange(o[2..]).value.rest;
    heading := n[3..];
    PrefixSplits("@@ -", line);
    PrefixSplits(" +", o);
    PrefixSplits(" @@", n);
  }

  lemma PrefixSplits(front: string, s: string)
    requires front <= s
    ensures s == front + s[|front|..]
  {
  }

  /** A line is read as a hunk header exactly when it is one, with its numbers and 1 for a count that is
      left out, whatever stands behind it. */
  lemma ParseHeaderIff(line: string, h: Header)
    ensures ParseHeader(line) == Some(h) <==>
            exists a, b, c, d, heading :: IsHeaderLine(line, a, b, c, d, heading)
                                          && h == Header(Number(a), CountIn(b), Number(c), CountIn(d))
  {
    hide ParseHeader, Number;
    if ParseHeader(line) == Some(h) {
      var a, b, c, d, heading := HeaderWasRead(line);
    } else if exists a, b, c, d, heading :: IsHeaderLine(line, a, b, c, d, heading)
                                            && h == Header(Number(a), CountIn(b), Number(c), CountIn(d)) {
      var a, b, c, d, heading :| IsHeaderLine(line, a, b, c, d, heading)
                                 && h == Header(Number(a), CountIn(b), Number(c), CountIn(d));
      HeaderReads(line, a, b, c, d, heading);
    }
  }

  function PrintHeader(h: Header): string {
    "@@ -" + (Decimal(h.oldStart) + ("," + (Decimal(h.oldCount)
              + (" +" + (Decimal(h.newStart) + ("," + (Decimal(h.newCount) + " @@")))))))
  }

  lemma ParsePrintedHeader(h: Header)
    ensures ParseHeader(PrintHeader(h)) == Some(h)
  {
    var right := Decimal(h.newStart) + ("," + (Decimal(h.newCount) + " @@"));
    var left := Decimal(h.oldStart) + ("," + (Decimal(h.oldCount) + (" +" + right)));
    assert PrintHeader(h)[4..] == left;
    ParsePrintedRange(h.oldStart, h.oldCount, " +" + right);
    assert (" +" + right)[2..] == right;
    ParsePrintedRange(h.newStart, h.newCount, " @@");
  }

  // ---------------------------------------------------------------- "diff --git a/x b/y"

  datatype Paths = Paths(oldPath: string, newPath: string)

  const DIFF_PREFIX := "diff --git a/"

  predicate SeparatorAt(s: string, i: nat) {
    i + 3 < |s| && s[i..i + 3] == " b/"
  }

  /** The first separator from `i` on with something behind it. */
  function FindSeparator(s: string, i: nat): (f: Option<nat>)
    ensures f.Some? ==> i <= f.value && SeparatorAt(s, f.value)
    decreases |s| - i
  {
    if i + 3 >= |s| then None else if SeparatorAt(s, i) then Some(i) else FindSeparator(s, i + 1)
  }

  /** The regular expression for file headers: the shortest non-empty first path. Its dots match no
      newline. */
  function ParseDiffHeader(line: string): Option<Paths> {
    if !(DIFF_PREFIX <= line) || !NoNewline(line) then None
    else
      var s := line[|DIFF_PREFIX|..];
      match FindSeparator(s, 1)
      case None => None
      case Some(i) => Some(Paths(s[..i], s[i + 3..]))
  }

  function PrintDiffHeader(path: string): string {
    DIFF_PREFIX + path + " b/" + path
  }

  predicate SeparatorIn(path: string, i: nat) {
    i + 3 <= |path| && path[i..i + 3] == " b/"
  }

  /** A path of one line that does not itself look like the middle of a header. */
  predicate PlainPath(path: string) {
    path != "" && NoNewline(path) && forall i :: 1 <= i < |path| ==> !SeparatorIn(path, i)
  }

  lemma {:induction false} FindsFirst(s: string, from: nat, i: nat)
    requires from <= i && SeparatorAt(s, i) && forall k :: from <= k < i ==> !SeparatorAt(s, k)
    ensures FindSeparator(s, from) == Some(i)
    decreases i - from
  {
    if from < i {
      FindsFirst(s, from + 1, i);
    }
  }

  lemma {:induction false} FindsEarliest(s: string, from: nat, k: nat)
    requires from <= k && SeparatorAt(s, k)
    ensures FindSeparator(s, from).Some? && FindSeparator(s, from).value <= k
    decreases k - from
  {
    if from < k {
      FindsEarliest(s, from + 1, k);
    }
  }

  lemma SeparatorInside(path: string, i: nat)
    requires 1 <= i < |path|
    ensures SeparatorAt(path + " b/" + path, i) <==> SeparatorIn(path, i)
  {
    var s := path + " b/" + path;
    if i + 3 <= |path| {
      assert s[i..i + 3] == path[i..i + 3];
    } else {
      var k := |path| - i;
      assert s[i..i + 3][k] == s[i + k] == ' ';
    }
  }

  /** The header of a file printed with one path for both sides reads back exactly when the path is plain. */
  lemma PrintedDiffHeader(path: string)
    ensures ParseDiffHeader(PrintDiffHeader(path)) == Some(Paths(path, path)) <==> PlainPath(path)
  {
    var s := path + " b/" + path;
    assert PrintDiffHeader(path) == DIFF_PREFIX + s;
    assert PrintDiffHeader(path)[|DIFF_PREFIX|..] == s;
    assert s[|path|..|path| + 3] == " b/";
    forall i | 1 <= i < |path| ensures SeparatorAt(s, i) <==> SeparatorIn(path, i) {
      SeparatorInside(path, i);
    }
    assert NoNewline(PrintDiffHeader(path)) <==> NoNewline(path) by {
      assert '\n' in PrintDiffHeader(path) <==> '\n' in path;
    }
    if PlainPath(path) {
      FindsFirst(s, 1, |path|);
      assert s[..|path|] == path && s[|path| + 3..] == path;
    } else if path != "" && NoNewline(path) {
      var i: nat :| 1 <= i < |path| && SeparatorIn(path, i);
      FindsEarliest(s, 1, i);
    }
  }
}
