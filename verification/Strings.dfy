/** The functions of Go's strings package that the modelled code calls, on sequences of characters. */
module Strings {
  import opened Options

  // ---------------------------------------------------------------- trimming

  /** The white space strings.TrimSpace removes. */
  predicate IsSpace(c: char) {
    || c == ' ' || c == '\t' || c == '\n' || c == '\r' || c == '\U{0B}' || c == '\U{0C}' || c == '\U{85}'
    || c == '\U{A0}' || c == '\U{1680}' || '\U{2000}' <= c <= '\U{200A}' || c == '\U{2028}' || c == '\U{2029}'
    || c == '\U{202F}' || c == '\U{205F}' || c == '\U{3000}'
  }

  function TrimLeft(s: string): string {
    if s != "" && IsSpace(s[0]) then TrimLeft(s[1..]) else s
  }

  function TrimRight(s: string): string {
    if s != "" && IsSpace(s[|s| - 1]) then TrimRight(s[..|s| - 1]) else s
  }

  function TrimSpace(s: string): string { TrimRight(TrimLeft(s)) }

  function TrimPrefix(s: string, p: string): string {
    if p <= s then s[|p|..] else s
  }

  function TrimSuffix(s: string, t: string): string {
    if |t| <= |s| && s[|s| - |t|..] == t then s[..|s| - |t|] else s
  }

  /** Nothing but white space. */
  predicate IsPad(pad: string) {
    forall c :: c in pad ==> IsSpace(c)
  }

  lemma NoPad()
    ensures IsPad("")
  {
  }

  /** The characters strings.TrimSpace takes for white space, one by one. */
  const WHITE := " \t\n\r\U{0B}\U{0C}\U{85}\U{A0}\U{1680}\U{2000}\U{2001}\U{2002}\U{2003}\U{2004}\U{2005}\U{2006}\U{2007}\U{2008}\U{2009}\U{200A}\U{2028}\U{2029}\U{202F}\U{205F}\U{3000}"

  lemma SpaceIsWhite(c: char)
    ensures IsSpace(c) <==> c in WHITE
  {
    assert forall k :: 0 <= k < |WHITE| ==> IsSpace(WHITE[k]);
    assert '\U{2000}' <= c <= '\U{200A}' ==> WHITE[9 + (c as int - 0x2000)] == c;
    assert WHITE[0] == ' ' && WHITE[1] == '\t' && WHITE[2] == '\n' && WHITE[3] == '\r' && WHITE[4] == '\U{0B}' && WHITE[5] == '\U{0C}';
    assert WHITE[6] == '\U{85}' && WHITE[7] == '\U{A0}' && WHITE[8] == '\U{1680}' && WHITE[20] == '\U{2028}' && WHITE[21] == '\U{2029}';
    assert WHITE[22] == '\U{202F}' && WHITE[23] == '\U{205F}' && WHITE[24] == '\U{3000}';
  }

  /** No white space at either end. */
  predicate IsBare(s: string) {
    s != "" ==> !IsSpace(s[0]) && !IsSpace(s[|s| - 1])
  }

  lemma {:induction false} TrimLeftIsBare(s: string)
    ensures TrimLeft(s) != "" ==> !IsSpace(TrimLeft(s)[0])
    decreases |s|
  {
    hide IsSpace;
    if s != "" && IsSpace(s[0]) {
      TrimLeftIsBare(s[1..]);
    }
  }

  lemma {:induction false} TrimRightIsBare(s: string)
    ensures var t := TrimRight(s);
            t <= s && (t != "" ==> !IsSpace(t[|t| - 1]))
    decreases |s|
  {
    hide IsSpace;
    if s != "" && IsSpace(s[|s| - 1]) {
      TrimRightIsBare(s[..|s| - 1]);
    }
  }

  /** What is left is the text without the white space at its ends. */
  lemma TrimMeans(s: string) returns (a: string, c: string)
    ensures IsPad(a) && IsPad(c) && IsBare(TrimSpace(s)) && s == a + TrimSpace(s) + c
  {
    var i, j := TrimIsSlice(s);
    TrimLeftIsBare(s);
    TrimRightIsBare(TrimLeft(s));
    hide IsSpace, TrimLeft, TrimRight;
    a, c := s[..i], s[j..];
    assert TrimSpace(s) <= TrimLeft(s);
    assert forall k :: 0 <= k < |c| ==> c[k] == s[j + k];
    assert s == s[..i] + s[i..j] + s[j..];
  }

  /** A slice of `s` without its white space. */
  lemma {:induction false} TrimIsSlice(s: string) returns (i: nat, j: nat)
    ensures i <= j <= |s| && TrimSpace(s) == s[i..j]
    ensures forall k :: 0 <= k < i || j <= k < |s| ==> IsSpace(s[k])
  {
    hide IsSpace;
    i := LeftTrimIsDrop(s);
    var r := RightTrimIsTake(s[i..]);
    j := i + r;
    assert s[i..][..r] == s[i..j];
    assert forall k :: j <= k < |s| ==> s[k] == s[i..][k - i];
  }

  lemma {:induction false} LeftTrimIsDrop(s: string) returns (i: nat)
    ensures i <= |s| && TrimLeft(s) == s[i..]
    ensures forall k :: 0 <= k < i ==> IsSpace(s[k])
    decreases |s|
  {
    hide IsSpace;
    if s != "" && IsSpace(s[0]) {
      var k := LeftTrimIsDrop(s[1..]);
      i := k + 1;
      assert forall m :: 1 <= m < i ==> s[m] == s[1..][m - 1];
    } else {
      i := 0;
    }
  }

  lemma {:induction false} RightTrimIsTake(s: string) returns (j: nat)
    ensures j <= |s| && TrimRight(s) == s[..j]
    ensures forall k :: j <= k < |s| ==> IsSpace(s[k])
    decreases |s|
  {
    hide IsSpace;
    if s != "" && IsSpace(s[|s| - 1]) {
      j := RightTrimIsTake(s[..|s| - 1]);
      assert s[..|s| - 1][..j] == s[..j];
    } else {
      j := |s|;
    }
  }

  lemma {:induction false} TrimLeftPadded(pad: string, x: string)
    requires IsPad(pad) && x != "" && !IsSpace(x[0])
    ensures TrimLeft(pad + x) == x
    decreases |pad|
  {
    if pad == "" {
      assert pad + x == x;
    } else {
      assert pad[0] in pad && (pad + x)[0] == pad[0];
      TrimLeftPadded(pad[1..], x);
      assert (pad + x)[1..] == pad[1..] + x;
    }
  }

  lemma {:induction false} TrimRightPadded(x: string, pad: string)
    requires IsPad(pad) && x != "" && !IsSpace(x[|x| - 1])
    ensures TrimRight(x + pad) == x
    decreases |pad|
  {
    var n := |pad| - 1;
    if pad == "" {
      assert x + pad == x;
    } else {
      assert pad[n] in pad && (x + pad)[|x| + n] == pad[n];
      TrimRightPadded(x, pad[..n]);
      assert (x + pad)[..|x| + n] == x + pad[..n];
    }
  }

  lemma TrimPadded(pad: string, x: string, more: string)
    requires IsPad(pad) && IsPad(more) && x != "" && !IsSpace(x[0]) && !IsSpace(x[|x| - 1])
    ensures TrimSpace(pad + x + more) == x
  {
    assert pad + x + more == pad + (x + more);
    TrimLeftPadded(pad, x + more);
    TrimRightPadded(x, more);
  }

  lemma TrimSolid(x: string)
    requires x != "" && !IsSpace(x[0]) && !IsSpace(x[|x| - 1])
    ensures TrimSpace(x) == x
  {
    TrimPadded("", x, "");
    assert "" + x + "" == x;
  }

  lemma {:induction false} PadIsTrimmed(pad: string)
    requires IsPad(pad)
    ensures TrimSpace(pad) == ""
    decreases |pad|
  {
    if pad != "" {
      assert pad[0] in pad;
      PadIsTrimmed(pad[1..]);
    }
  }

  // ---------------------------------------------------------------- searching

  predicate At(s: string, pat: string, k: nat) {
    k + |pat| <= |s| && s[k..k + |pat|] == pat
  }

  /** Where the pattern first occurs from `k` on. */
  function Index(s: string, pat: string, k: nat): (r: Option<nat>)
    ensures r.Some? ==> k <= r.value && At(s, pat, r.value)
    decreases |s| - k
  {
    if k + |pat| > |s| then None
    else if At(s, pat, k) then Some(k)
    else Index(s, pat, k + 1)
  }

  /** The pattern occurs nowhere. */
  ghost predicate Lacks(s: string, pat: string) {
    forall k: nat :: !At(s, pat, k)
  }

  lemma {:induction false} IndexIsFirst(s: string, pat: string, k: nat, n: nat)
    requires k <= n && At(s, pat, n) && forall i: nat :: k <= i < n ==> !At(s, pat, i)
    ensures Index(s, pat, k) == Some(n)
    decreases n - k
  {
    if k < n {
      IndexIsFirst(s, pat, k + 1, n);
    }
  }

  lemma AtIsLetter(s: string, pat: string, k: nat, i: nat)
    requires At(s, pat, k) && i < |pat|
    ensures s[k + i] == pat[i]
  {
    assert s[k..k + |pat|][i] == s[k + i];
  }

  /** One wrong letter, and the pattern does not stand there. */
  lemma NotAtLetter(s: string, pat: string, k: nat, i: nat)
    requires i < |pat| && k + i < |s| && s[k + i] != pat[i]
    ensures !At(s, pat, k)
  {
    if k + |pat| <= |s| {
      assert s[k..k + |pat|][i] == s[k + i];
    }
  }

  /** A character the pattern does not have keeps it from reaching over from a text that lacks it. */
  lemma NotAcross(text: string, sep: char, more: string, pat: string, k: nat)
    requires Lacks(text, pat) && sep !in pat && k <= |text| && pat != ""
    ensures !At(text + [sep] + more, pat, k)
  {
    var s := text + [sep] + more;
    assert !At(text, pat, k);
    if k + |pat| <= |text| {
      assert s[k..k + |pat|] == text[k..k + |pat|];
    } else {
      NotAtLetter(s, pat, k, |text| - k);
    }
  }

  lemma {:induction false} IndexShift(s: string, pat: string, more: string, k: nat)
    requires Index(s, pat, k).Some?
    ensures Index(s + more, pat, k) == Index(s, pat, k)
    decreases |s| - k
  {
    assert (s + more)[k..k + |pat|] == s[k..k + |pat|];
    if !At(s, pat, k) {
      IndexShift(s, pat, more, k + 1);
    }
  }

  lemma {:induction false} IndexFinds(s: string, pat: string, k: nat, n: nat)
    requires k <= n && At(s, pat, n)
    ensures Index(s, pat, k).Some?
    decreases n - k
  {
    if !At(s, pat, k) {
      IndexFinds(s, pat, k + 1, n);
    }
  }

  // ---------------------------------------------------------------- counting lines

  predicate EndsLine(s: string) {
    s != "" && s[|s| - 1] == '\n'
  }

  function Newlines(s: string): nat {
    if s == "" then 0 else (if s[0] == '\n' then 1 else 0) + Newlines(s[1..])
  }

  method CountNewlines(s: string) returns (n: nat)
    ensures n == Newlines(s)
  {
    n := 0;
    for i := 0 to |s|
      invariant n + Newlines(s[i..]) == Newlines(s)
    {
      if s[i] == '\n' {
        n := n + 1;
      }
    }
  }
}
