/** Replacing what is not UTF-8 (replaceInvalidUTF8 in internal/index/batch.go). A text is a sequence of
    bytes, one character each. */
module Utf8 {
  import opened Strings

  predicate InRange(s: string, k: nat, lo: char, hi: char) {
    k < |s| && lo <= s[k] <= hi
  }

  predicate Tail(s: string, k: nat) {
    InRange(s, k, '\U{80}', '\U{BF}')
  }

  /** The bytes of the character `s` begins with, by section 4 of RFC 3629, or 0 if it begins with none. */
  function RuneLength(s: string): (n: nat)
    requires s != ""
    ensures n <= |s| && n <= 4
  {
    if s[0] < '\U{80}' then 1
    else if '\U{C2}' <= s[0] <= '\U{DF}' && Tail(s, 1) then 2
    else if s[0] == '\U{E0}' && InRange(s, 1, '\U{A0}', '\U{BF}') && Tail(s, 2) then 3
    else if ('\U{E1}' <= s[0] <= '\U{EC}' || '\U{EE}' <= s[0] <= '\U{EF}') && Tail(s, 1) && Tail(s, 2) then 3
    else if s[0] == '\U{ED}' && InRange(s, 1, '\U{80}', '\U{9F}') && Tail(s, 2) then 3
    else if s[0] == '\U{F0}' && InRange(s, 1, '\U{90}', '\U{BF}') && Tail(s, 2) && Tail(s, 3) then 4
    else if '\U{F1}' <= s[0] <= '\U{F3}' && Tail(s, 1) && Tail(s, 2) && Tail(s, 3) then 4
    else if s[0] == '\U{F4}' && InRange(s, 1, '\U{80}', '\U{8F}') && Tail(s, 2) && Tail(s, 3) then 4
    else 0
  }

  predicate IsUtf8(s: string)
    decreases |s|
  {
    s == "" || (RuneLength(s) > 0 && IsUtf8(s[RuneLength(s)..]))
  }

  /** U+FFFD */
  const REPLACEMENT := "\U{EF}\U{BF}\U{BD}"

  function Clean(s: string): string
    decreases |s|
  {
    if s == "" then ""
    else
      var n := RuneLength(s);
      if n == 0 then REPLACEMENT + Clean(s[1..]) else s[..n] + Clean(s[n..])
  }

  method IsValidString(s: string) returns (valid: bool)
    ensures valid <==> IsUtf8(s)
  {
    var i := 0;
    while i < |s|
      invariant 0 <= i <= |s| && (IsUtf8(s) <==> IsUtf8(s[i..]))
    {
      var n := RuneLength(s[i..]);
      if n == 0 {
        return false;
      }
      assert s[i..][n..] == s[i + n..];
      i := i + n;
    }
    return true;
  }

  lemma CleanStep(s: string, i: nat, b: string)
    requires i < |s|
    ensures var n := RuneLength(s[i..]);
            b + Clean(s[i..]) == if n == 0 then b + REPLACEMENT + Clean(s[i + 1..]) else b + s[i..i + n] + Clean(s[i + n..])
  {
    hide RuneLength;
    var n := RuneLength(s[i..]);
    assert s[i..][1..] == s[i + 1..] && s[i..][n..] == s[i + n..] && s[i..][..n] == s[i..i + n];
  }

  method ReplaceInvalidUtf8(s: string) returns (b: string)
    ensures b == Clean(s)
  {
    assert Clean("") == "";
    hide RuneLength, Clean, IsUtf8;
    var valid := IsValidString(s);
    if valid {
      CleanIsIdentityIff(s);
      return s;
    }
    b := "";
    var i := 0;
    assert s[0..] == s;
    while i < |s|
      invariant 0 <= i <= |s| && Clean(s) == b + Clean(s[i..])
    {
      CleanStep(s, i, b);
      var n := RuneLength(s[i..]);
      if n == 0 {
        b := b + REPLACEMENT;
        i := i + 1;
      } else {
        b := b + s[i..i + n];
        i := i + n;
      }
    }
    assert s[i..] == "" && b + "" == b;
  }

  // ---------------------------------------------------------------- what it changes

  /** Every replaced byte makes the text longer, so it is unchanged exactly when it was UTF-8. */
  lemma {:induction false} CleanIsIdentityIff(s: string)
    ensures Clean(s) == s <==> IsUtf8(s)
    ensures |Clean(s)| >= |s| && (!IsUtf8(s) ==> |Clean(s)| > |s|)
    decreases |s|
  {
    hide RuneLength;
    if s != "" {
      var n := RuneLength(s);
      if n == 0 {
        CleanIsIdentityIff(s[1..]);
      } else {
        CleanIsIdentityIff(s[n..]);
        assert s[..n] + s[n..] == s;
      }
    }
  }

  lemma RuneIsLocal(s: string, t: string)
    requires s != "" && RuneLength(s) > 0
    ensures RuneLength(s[..RuneLength(s)] + t) == RuneLength(s)
  {
    var n := RuneLength(s);
    var r := s[..n] + t;
    assert forall k :: 0 <= k < n ==> r[k] == s[k];
  }

  /** The cleaned text is UTF-8. */
  lemma {:induction false} CleanIsUtf8(s: string)
    ensures IsUtf8(Clean(s))
    decreases |s|
  {
    hide RuneLength;
    if s != "" {
      var n := RuneLength(s);
      if n == 0 {
        var rest := Clean(s[1..]);
        CleanIsUtf8(s[1..]);
        ReplacementIsRune(rest);
        assert (REPLACEMENT + rest)[3..] == rest;
      } else {
        var rest := Clean(s[n..]);
        CleanIsUtf8(s[n..]);
        RuneIsLocal(s, rest);
        assert (s[..n] + rest)[n..] == rest;
      }
    }
  }

  lemma ReplacementIsRune(rest: string)
    ensures RuneLength(REPLACEMENT + rest) == 3
  {
    var s := REPLACEMENT + rest;
    assert s[0] == '\U{EF}' && s[1] == '\U{BF}' && s[2] == '\U{BD}';
  }

  // ---------------------------------------------------------------- the encoding

  /** A Unicode code point that is no surrogate. */
  predicate IsScalar(v: int) {
    0 <= v < 0xD800 || 0xE000 <= v < 0x110000
  }

  /** The bytes of a character: its number in digits to the base 64, the first one behind the length. */
  function Encoded(v: int): (r: string)
    requires IsScalar(v)
    ensures r != ""
  {
    if v < 0x80 then [v as char]
    else if v < 0x800 then [(0xC0 + v / 64) as char, (0x80 + v % 64) as char]
    else if v < 0x10000 then [(0xE0 + v / 4096) as char, (0x80 + v / 64 % 64) as char, (0x80 + v % 64) as char]
    else [(0xF0 + v / 262144) as char, (0x80 + v / 4096 % 64) as char, (0x80 + v / 64 % 64) as char, (0x80 + v % 64) as char]
  }

  lemma EncodedIsRune(v: int, rest: string)
    requires IsScalar(v)
    ensures RuneLength(Encoded(v) + rest) == |Encoded(v)|
  {
    var s := Encoded(v) + rest;
    if v < 0x80 {
      assert s[0] == v as char;
    } else if v < 0x800 {
      assert s[0] == (0xC0 + v / 64) as char && s[1] == (0x80 + v % 64) as char;
    } else if v < 0x10000 {
      assert s[0] == (0xE0 + v / 4096) as char && s[1] == (0x80 + v / 64 % 64) as char && s[2] == (0x80 + v % 64) as char;
    } else {
      assert s[0] == (0xF0 + v / 262144) as char && s[1] == (0x80 + v / 4096 % 64) as char;
      assert s[2] == (0x80 + v / 64 % 64) as char && s[3] == (0x80 + v % 64) as char;
    }
  }

  lemma Digits(a: nat, b: nat, c: nat)
    requires b < 64 && c < 64
    ensures (a * 64 + b) / 64 == a && (a * 64 + b) % 64 == b
    ensures (a * 4096 + b * 64 + c) / 4096 == a && (a * 4096 + b * 64 + c) / 64 == a * 64 + b && (a * 4096 + b * 64 + c) % 64 == c
  {
  }

  lemma TwoBytes(s: string) returns (v: int)
    requires s != "" && RuneLength(s) == 2
    ensures IsScalar(v) && Encoded(v) == s[..2]
  {
    var a, b := s[0] as int - 0xC0, s[1] as int - 0x80;
    v := a * 64 + b;
    Digits(a, b, 0);
  }

  lemma ThreeBytes(s: string) returns (v: int)
    requires s != "" && RuneLength(s) == 3
    ensures IsScalar(v) && Encoded(v) == s[..3]
  {
    var a, b, c := s[0] as int - 0xE0, s[1] as int - 0x80, s[2] as int - 0x80;
    v := a * 4096 + b * 64 + c;
    Digits(a, b, c);
    Digits(a, b, 0);
    assert 0x800 <= v < 0x10000 && IsScalar(v);
    hide RuneLength;
    assert Encoded(v) == [(0xE0 + a) as char, (0x80 + b) as char, (0x80 + c) as char];
  }

  lemma FourBytes(s: string) returns (v: int)
    requires s != "" && RuneLength(s) == 4
    ensures IsScalar(v) && Encoded(v) == s[..4]
  {
    var a, b, c, d := s[0] as int - 0xF0, s[1] as int - 0x80, s[2] as int - 0x80, s[3] as int - 0x80;
    v := a * 262144 + b * 4096 + c * 64 + d;
    assert 0x10000 <= v < 0x110000;
    hide RuneLength;
    Digits(a * 64 + b, c, d);
    Digits(a, b, 0);
    assert v / 262144 == a;
    assert Encoded(v) == [(0xF0 + a) as char, (0x80 + b) as char, (0x80 + c) as char, (0x80 + d) as char];
  }

  lemma RuneIsEncoded(s: string) returns (v: int)
    requires s != "" && RuneLength(s) > 0
    ensures IsScalar(v) && Encoded(v) == s[..RuneLength(s)]
  {
    if RuneLength(s) == 2 {
      v := TwoBytes(s);
    } else if RuneLength(s) == 3 {
      v := ThreeBytes(s);
    } else if RuneLength(s) == 4 {
      v := FourBytes(s);
    } else {
      v := s[0] as int;
    }
  }

  /** Characters are kept and every byte no character begins with is replaced by U+FFFD, which leaves no other
      choice for any text. */
  lemma CleanMeans(s: string)
    ensures Clean("") == ""
    ensures forall v :: IsScalar(v) ==> Clean(Encoded(v) + s) == Encoded(v) + Clean(s)
    ensures s != "" && (forall v :: IsScalar(v) ==> !(Encoded(v) <= s)) ==> Clean(s) == "\U{EF}\U{BF}\U{BD}" + Clean(s[1..])
  {
    hide Encoded, RuneLength;
    forall v | IsScalar(v) ensures Clean(Encoded(v) + s) == Encoded(v) + Clean(s) {
      EncodedIsRune(v, s);
      var t := Encoded(v) + s;
      assert t[..|Encoded(v)|] == Encoded(v) && t[|Encoded(v)|..] == s;
    }
    if s != "" && RuneLength(s) > 0 {
      var v := RuneIsEncoded(s);
      assert Encoded(v) <= s;
    }
  }

  function EncodedAll(vs: seq<int>): string
    requires forall v :: v in vs ==> IsScalar(v)
  {
    if vs == [] then "" else Encoded(vs[0]) + EncodedAll(vs[1..])
  }

  /** A text is UTF-8 exactly when it is the encoding of some characters. */
  lemma {:induction false} EncodedIsUtf8(vs: seq<int>)
    requires forall v :: v in vs ==> IsScalar(v)
    ensures IsUtf8(EncodedAll(vs))
  {
    hide Encoded, RuneLength;
    if vs != [] {
      EncodedIsUtf8(vs[1..]);
      EncodedIsRune(vs[0], EncodedAll(vs[1..]));
      var s := EncodedAll(vs);
      assert s[|Encoded(vs[0])|..] == EncodedAll(vs[1..]);
    }
  }

  lemma {:induction false} Utf8IsEncoded(s: string) returns (vs: seq<int>)
    requires IsUtf8(s)
    ensures (forall v :: v in vs ==> IsScalar(v)) && EncodedAll(vs) == s
    decreases |s|
  {
    hide Encoded, RuneLength;
    if s == "" {
      vs := [];
    } else {
      var n := RuneLength(s);
      var v := RuneIsEncoded(s);
      var rest := Utf8IsEncoded(s[n..]);
      vs := [v] + rest;
      assert vs[1..] == rest && s == s[..n] + s[n..];
    }
  }

  // ---------------------------------------------------------------- lines

  lemma {:induction false} NewlinesConcat(a: string, b: string)
    ensures Newlines(a + b) == Newlines(a) + Newlines(b)
    decreases |a|
  {
    if a == "" {
      assert a + b == b;
    } else {
      NewlinesConcat(a[1..], b);
      assert (a + b)[1..] == a[1..] + b;
    }
  }

  lemma {:induction false} NoNewlines(s: string)
    requires '\n' !in s
    ensures Newlines(s) == 0
    decreases |s|
  {
    if s != "" {
      assert s[0] in s;
      assert forall c :: c in s[1..] ==> c in s;
      NoNewlines(s[1..]);
    }
  }

  lemma EndsLineConcat(a: string, b: string)
    ensures EndsLine(a + b) <==> if b == "" then EndsLine(a) else EndsLine(b)
  {
    assert b == "" ==> a + b == a;
  }

  lemma ReplacementHasNoNewline()
    ensures '\n' !in REPLACEMENT && REPLACEMENT != ""
  {
  }

  /** Cleaning keeps the lines: their number, and whether the last one is finished. */
  lemma {:induction false} CleanKeepsLines(s: string)
    ensures Newlines(Clean(s)) == Newlines(s) && (EndsLine(Clean(s)) <==> EndsLine(s)) && (Clean(s) == "" <==> s == "")
    decreases |s|
  {
    hide RuneLength, EndsLine, Newlines;
    if s != "" {
      var n := RuneLength(s);
      var m := if n == 0 then 1 else n;
      CleanKeepsLines(s[m..]);
      assert s == s[..m] + s[m..];
      NewlinesConcat(s[..m], s[m..]);
      EndsLineConcat(s[..m], s[m..]);
      if n == 0 {
        BrokenByteIsNoNewline(s);
        ReplacementHasNoNewline();
        NoNewlines(s[..1]);
        NoNewlines(REPLACEMENT);
        NewlinesConcat(REPLACEMENT, Clean(s[1..]));
        EndsLineConcat(REPLACEMENT, Clean(s[1..]));
        NoneEndsLine(REPLACEMENT);
        NoneEndsLine(s[..1]);
      } else {
        NewlinesConcat(s[..n], Clean(s[n..]));
        EndsLineConcat(s[..n], Clean(s[n..]));
      }
    }
  }

  lemma BrokenByteIsNoNewline(s: string)
    requires s != "" && RuneLength(s) == 0
    ensures '\n' !in s[..1]
  {
  }

  lemma NoneEndsLine(s: string)
    requires '\n' !in s
    ensures !EndsLine(s)
  {
    assert s != "" ==> s[|s| - 1] in s;
  }

  // ---------------------------------------------------------------- two texts with the same cleaned form

  lemma AsciiIsKept(s: string)
    requires s != "" && s[0] < '\U{80}'
    ensures Clean(s) == [s[0]] + Clean(s[1..])
  {
    assert s[..1] == [s[0]];
  }

  lemma {:induction false} CleanAscii(s: string, t: string)
    requires forall c :: c in s ==> c < '\U{80}'
    ensures Clean(s + t) == s + Clean(t)
    decreases |s|
  {
    hide Clean;
    if s == "" {
      assert s + t == t;
    } else {
      assert s[0] in s;
      assert forall c :: c in s[1..] ==> c in s;
      CleanAscii(s[1..], t);
      AsciiIsKept(s + t);
      assert (s + t)[1..] == s[1..] + t;
      assert [s[0]] + (s[1..] + Clean(t)) == s + Clean(t);
    }
  }
}
