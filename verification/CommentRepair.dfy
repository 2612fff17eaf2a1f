/** The deterministic repair of a serialized `comments` argument (internal/comment/args_repair.go). */
module CommentRepair {
  import opened Options
  import opened JsonLexer

  // ---------------------------------------------------------------- the scanner's decisions

  function NextSignificant(s: seq<byte>): seq<byte> {
    if s != [] && IsSpace(s[0]) then NextSignificant(s[1..]) else s
  }

  /** The quote before `rest` is read as a terminator. */
  predicate Closes(rest: seq<byte>) {
    var r := NextSignificant(rest);
    r == [] || IsStructural(r[0])
  }

  function HexDigit(n: nat): byte
    requires n < 16
  {
    if n < 10 then 0x30 + n else 0x61 + n - 10
  }

  function EscapeControl(c: byte): (r: seq<byte>)
    requires c < 0x20
    ensures 2 <= |r| <= 6
  {
    if c == 0x0A then [BACKSLASH, 0x6E]
    else if c == 0x0D then [BACKSLASH, 0x72]
    else if c == 0x09 then [BACKSLASH, 0x74]
    else if c == 0x08 then [BACKSLASH, 0x62]
    else if c == 0x0C then [BACKSLASH, 0x66]
    else [BACKSLASH, LOWER_U, 0x30, 0x30, HexDigit(c / 16), HexDigit(c % 16)]
  }

  // ---------------------------------------------------------------- what the scan writes

  datatype Repaired = Repaired(text: seq<byte>, escaped: nat)

  function Emit(bytes: seq<byte>, escapes: nat, rest: Repaired): Repaired {
    Repaired(bytes + rest.text, escapes + rest.escaped)
  }

  function Repair(s: seq<byte>): Repaired
    decreases |s|
  {
    if s == [] then Repaired([], 0)
    else if s[0] == QUOTE then Emit([QUOTE], 0, RepairString(s[1..]))
    else Emit([s[0]], 0, Repair(s[1..]))
  }

  function RepairString(s: seq<byte>): Repaired
    decreases |s|
  {
    if s == [] then Repaired([], 0)
    else if s[0] == BACKSLASH then
      if EscapeLength(s) > 0 then Emit(s[..2], 0, RepairString(s[2..]))
      else Emit([BACKSLASH, BACKSLASH], 1, RepairString(s[1..]))
    else if s[0] == QUOTE then
      if Closes(s[1..]) then Emit([QUOTE], 0, Repair(s[1..]))
      else Emit([BACKSLASH, QUOTE], 1, RepairString(s[1..]))
    else if s[0] < 0x20 then Emit(EscapeControl(s[0]), 1, RepairString(s[1..]))
    else Emit([s[0]], 0, RepairString(s[1..]))
  }

  // ---------------------------------------------------------------- the code

  method IsHexRun(s: seq<byte>, from: nat, to: nat) returns (all: bool)
    requires from <= to <= |s|
    ensures all <==> forall k :: from <= k < to ==> IsHexDigit(s[k])
  {
    for k := from to to
      invariant forall j :: from <= j < k ==> IsHexDigit(s[j])
    {
      if !IsHexDigit(s[k]) {
        return false;
      }
    }
    return true;
  }

  method IsLegalEscape(s: seq<byte>, i: nat) returns (legal: bool)
    requires 0 < i <= |s| && s[i - 1] == BACKSLASH
    ensures legal <==> EscapeLength(s[i - 1..]) > 0
  {
    if i >= |s| {
      return false;
    }
    if IsSimpleEscape(s[i]) {
      return true;
    }
    if s[i] == LOWER_U {
      if i + 5 > |s| {
        return false;
      }
      legal := IsHexRun(s, i + 1, i + 5);
      ghost var rest := s[i - 1..];
      assert forall k :: i + 1 <= k < i + 5 ==> s[k] == rest[2..][k - i - 1];
      return;
    }
    return false;
  }

  method NextSignificantByte(s: seq<byte>, from: nat) returns (next: int)
    requires from <= |s|
    ensures next == -1 <==> NextSignificant(s[from..]) == []
    ensures next != -1 ==> from <= next < |s| && NextSignificant(s[from..]) == s[next..]
  {
    var i := from;
    while i < |s|
      invariant from <= i <= |s|
      invariant NextSignificant(s[from..]) == NextSignificant(s[i..])
    {
      if !IsSpace(s[i]) {
        return i;
      }
      i := i + 1;
    }
    return -1;
  }

  lemma EmitEmit(a: seq<byte>, n: nat, b: seq<byte>, m: nat, rest: Repaired)
    ensures Emit(a, n, Emit(b, m, rest)) == Emit(a + b, n + m, rest)
  {
  }

  /** What is still to be written from `i` on. */
  function Rest(s: seq<byte>, i: nat, inString: bool): Repaired
    requires i <= |s|
  {
    if inString then RepairString(s[i..]) else Repair(s[i..])
  }

  method RepairSerializedComments(s: seq<byte>) returns (text: seq<byte>, escaped: nat)
    ensures Repaired(text, escaped) == Repair(s)
  {
    hide EscapeLength, EscapeControl;
    text, escaped := [], 0;
    var inString := false;
    var i := 0;
    while i < |s|
      invariant 0 <= i <= |s|
      invariant Repair(s) == Emit(text, escaped, Rest(s, i, inString))
      decreases |s| - i
    {
      ghost var i0, inString0, text0, escaped0 := i, inString, text, escaped;
      ghost var piece: seq<byte>;
      var c := s[i];
      if !inString {
        if c == QUOTE {
          inString := true;
        }
        piece, text := [c], text + [c];
        i := i + 1;
      } else if c == BACKSLASH {
        var legal := IsLegalEscape(s, i + 1);
        if legal {
          piece := s[i..][..2];
          text := text + [c];
          i := i + 1;
          text := text + [s[i]];
          i := i + 1;
        } else {
          piece, text := [BACKSLASH, BACKSLASH], text + [BACKSLASH, BACKSLASH];
          escaped := escaped + 1;
          i := i + 1;
        }
      } else if c == QUOTE {
        var next := NextSignificantByte(s, i + 1);
        if next < 0 || IsStructural(s[next]) {
          inString := false;
          piece, text := [c], text + [c];
        } else {
          piece, text := [BACKSLASH, QUOTE], text + [BACKSLASH, QUOTE];
          escaped := escaped + 1;
        }
        i := i + 1;
      } else if c < 0x20 {
        piece, text := EscapeControl(c), text + EscapeControl(c);
        escaped := escaped + 1;
        i := i + 1;
      } else {
        piece, text := [c], text + [c];
        i := i + 1;
      }
      assert text == text0 + piece;
      assert Rest(s, i0, inString0) == Emit(piece, escaped - escaped0, Rest(s, i, inString));
      EmitEmit(text0, escaped0, piece, escaped - escaped0, Rest(s, i, inString));
    }
  }

  // ---------------------------------------------------------------- the lenient reading

  /** What the original text says when a quote not followed by structure, a control byte and an illegal
      backslash are taken as content. */
  function Lenient(s: seq<byte>): seq<Token>
    decreases |s|
  {
    if s == [] then []
    else if s[0] == QUOTE then LenientString(s[1..], [])
    else [Gap(s[0])] + Lenient(s[1..])
  }

  function LenientString(s: seq<byte>, value: seq<Unit>): seq<Token>
    decreases |s|
  {
    if s == [] then [Open(value)]
    else if s[0] == QUOTE && Closes(s[1..]) then [Literal(value)] + Lenient(s[1..])
    else if s[0] == BACKSLASH && EscapeLength(s) > 0 then
      LenientString(s[EscapeLength(s)..], value + [EscapeUnit(s)])
    else LenientString(s[1..], value + [Raw(s[0])])
  }

  // ---------------------------------------------------------------- repair preserves meaning

  lemma EscapeIsLocal(s: seq<byte>, t: seq<byte>)
    requires |s| >= 1 && s[0] == BACKSLASH && EscapeLength(s) > 0
    requires |t| >= EscapeLength(s) && t[..EscapeLength(s)] == s[..EscapeLength(s)]
    ensures t[0] == BACKSLASH && EscapeLength(t) == EscapeLength(s) && EscapeUnit(t) == EscapeUnit(s)
  {
    var n := EscapeLength(s);
    assert forall k :: 0 <= k < n ==> t[k] == t[..n][k] == s[..n][k] == s[k];
  }

  lemma ControlRoundTrip(c: byte, rest: seq<byte>)
    requires c < 0x20
    ensures var t := EscapeControl(c) + rest;
            && t[0] == BACKSLASH && EscapeLength(t) == |EscapeControl(c)|
            && EscapeUnit(t) == Raw(c) && t[EscapeLength(t)..] == rest
  {
  }

  lemma HexDigitIsCopied(s: seq<byte>)
    requires s != [] && IsHexDigit(s[0])
    ensures RepairString(s) == Emit([s[0]], 0, RepairString(s[1..]))
  {
  }

  lemma HexRunIsCopied(s: seq<byte>)
    requires FourHex(s)
    ensures RepairString(s) == Emit(s[..4], 0, RepairString(s[4..]))
  {
    hide RepairString;
    var s1, s2, s3 := s[1..], s[2..], s[3..];
    HexDigitIsCopied(s);
    HexDigitIsCopied(s1);
    HexDigitIsCopied(s2);
    HexDigitIsCopied(s3);
    assert s1[1..] == s2 && s2[1..] == s3 && s3[1..] == s[4..];
    assert s[..4] == [s[0]] + [s[1]] + [s[2]] + [s[3]];
  }

  /** An escape sequence is copied whole. */
  lemma EscapeIsCopied(s: seq<byte>)
    requires s != [] && s[0] == BACKSLASH && EscapeLength(s) > 0
    ensures RepairString(s) == Emit(s[..EscapeLength(s)], 0, RepairString(s[EscapeLength(s)..]))
  {
    assert RepairString(s) == Emit(s[..2], 0, RepairString(s[2..]));
    if EscapeLength(s) == 6 {
      HexRunIsCopied(s[2..]);
      EmitEmit(s[..2], 0, s[2..][..4], 0, RepairString(s[6..]));
      assert s[2..][4..] == s[6..] && s[..2] + s[2..][..4] == s[..6];
    }
  }

  lemma {:induction false} StrictReadsRepairedString(s: seq<byte>, value: seq<Unit>)
    ensures StrictString(RepairString(s).text, value) == Some(LenientString(s, value))
    decreases |s|
  {
    if s != [] {
      var t := RepairString(s).text;
      if s[0] == BACKSLASH && EscapeLength(s) > 0 {
        var n := EscapeLength(s);
        EscapeIsCopied(s);
        assert t[..n] == s[..n] && t[n..] == RepairString(s[n..]).text;
        EscapeIsLocal(s, t);
        StrictReadsRepairedString(s[n..], value + [EscapeUnit(s)]);
      } else if s[0] == QUOTE && Closes(s[1..]) {
        assert t[1..] == Repair(s[1..]).text;
        StrictReadsRepaired(s[1..]);
      } else {
        var rest := RepairString(s[1..]).text;
        StrictReadsRepairedString(s[1..], value + [Raw(s[0])]);
        if s[0] == BACKSLASH || s[0] == QUOTE {
          assert t == [BACKSLASH, s[0]] + rest;
          assert t[2..] == rest;
        } else if s[0] < 0x20 {
          ControlRoundTrip(s[0], rest);
        } else {
          assert t[1..] == rest;
        }
      }
    }
  }

  /** Reading the repaired text strictly gives exactly the strings and values that the lenient reading
      finds in the original, for every text whatever. */
  lemma {:induction false} StrictReadsRepaired(s: seq<byte>)
    ensures Strict(Repair(s).text) == Some(Lenient(s))
    decreases |s|
  {
    if s != [] {
      assert Repair(s).text[1..] == (if s[0] == QUOTE then RepairString(s[1..]).text else Repair(s[1..]).text);
      if s[0] == QUOTE {
        StrictReadsRepairedString(s[1..], []);
      } else {
        StrictReadsRepaired(s[1..]);
      }
    }
  }

  // ---------------------------------------------------------------- when nothing changes

  lemma {:induction false} LenientFollows(s: seq<byte>)
    ensures Follows(Lenient(s)) <==> Closes(s)
    decreases |s|
  {
    if s != [] && s[0] != QUOTE {
      assert Lenient(s)[1..] == Lenient(s[1..]);
      if IsSpace(s[0]) {
        LenientFollows(s[1..]);
      }
    } else if s != [] {
      LenientStringStarts(s[1..], []);
    }
  }

  lemma {:induction false} LenientStringStarts(s: seq<byte>, value: seq<Unit>)
    ensures LenientString(s, value) != [] && !LenientString(s, value)[0].Gap?
    decreases |s|
  {
    if s != [] && !(s[0] == QUOTE && Closes(s[1..])) {
      if s[0] == BACKSLASH && EscapeLength(s) > 0 {
        LenientStringStarts(s[EscapeLength(s)..], value + [EscapeUnit(s)]);
      } else {
        LenientStringStarts(s[1..], value + [Raw(s[0])]);
      }
    }
  }

  lemma {:induction false} LenientSeparated(s: seq<byte>)
    ensures Separated(Lenient(s))
    decreases |s|
  {
    if s != [] {
      if s[0] == QUOTE {
        LenientStringSeparated(s[1..], []);
      } else {
        LenientSeparated(s[1..]);
        assert Lenient(s)[1..] == Lenient(s[1..]);
      }
    }
  }

  lemma {:induction false} LenientStringSeparated(s: seq<byte>, value: seq<Unit>)
    ensures Separated(LenientString(s, value))
    decreases |s|
  {
    if s == [] {
      assert LenientString(s, value)[1..] == [];
    } else if s[0] == QUOTE && Closes(s[1..]) {
      LenientFollows(s[1..]);
      LenientSeparated(s[1..]);
      assert LenientString(s, value)[1..] == Lenient(s[1..]);
    } else if s[0] == BACKSLASH && EscapeLength(s) > 0 {
      LenientStringSeparated(s[EscapeLength(s)..], value + [EscapeUnit(s)]);
    } else {
      LenientStringSeparated(s[1..], value + [Raw(s[0])]);
    }
  }

  /** Every escape lengthens the text by one to five bytes. */
  lemma {:induction false} RepairLength(s: seq<byte>)
    ensures var r := Repair(s); |s| + r.escaped <= |r.text| <= |s| + 5 * r.escaped
    decreases |s|
  {
    if s != [] {
      if s[0] == QUOTE {
        RepairStringLength(s[1..]);
      } else {
        RepairLength(s[1..]);
      }
    }
  }

  lemma {:induction false} RepairStringLength(s: seq<byte>)
    ensures var r := RepairString(s); |s| + r.escaped <= |r.text| <= |s| + 5 * r.escaped
    decreases |s|
  {
    if s != [] {
      if s[0] == BACKSLASH && EscapeLength(s) > 0 {
        RepairStringLength(s[2..]);
      } else if s[0] == QUOTE && Closes(s[1..]) {
        RepairLength(s[1..]);
      } else {
        RepairStringLength(s[1..]);
      }
    }
  }

  lemma {:induction false} UnescapedIsUnchanged(s: seq<byte>)
    requires Repair(s).escaped == 0
    ensures Repair(s).text == s
    decreases |s|
  {
    if s != [] {
      if s[0] == QUOTE {
        UnescapedStringIsUnchanged(s[1..]);
      } else {
        UnescapedIsUnchanged(s[1..]);
      }
    }
  }

  lemma {:induction false} UnescapedStringIsUnchanged(s: seq<byte>)
    requires RepairString(s).escaped == 0
    ensures RepairString(s).text == s
    decreases |s|
  {
    if s != [] {
      if s[0] == BACKSLASH {
        UnescapedStringIsUnchanged(s[2..]);
        assert s == s[..2] + s[2..];
      } else if s[0] == QUOTE {
        UnescapedIsUnchanged(s[1..]);
      } else {
        UnescapedStringIsUnchanged(s[1..]);
      }
    }
  }

  /** The count is zero exactly when the text is returned as it came. */
  lemma CountReportsChange(s: seq<byte>)
    ensures Repair(s).escaped == 0 <==> Repair(s).text == s
  {
    RepairLength(s);
    if Repair(s).escaped == 0 {
      UnescapedIsUnchanged(s);
    }
  }

  lemma {:induction false} StrictFollows(s: seq<byte>)
    requires Strict(s).Some?
    ensures Follows(Strict(s).value) <==> Closes(s)
    decreases |s|
  {
    if s != [] {
      if s[0] == QUOTE {
        StrictStringStarts(s[1..], []);
      } else {
        assert Strict(s).value[1..] == Strict(s[1..]).value;
        if IsSpace(s[0]) {
          StrictFollows(s[1..]);
        }
      }
    }
  }

  lemma {:induction false} StrictStringStarts(s: seq<byte>, value: seq<Unit>)
    requires StrictString(s, value).Some?
    ensures StrictString(s, value).value != [] && !StrictString(s, value).value[0].Gap?
    decreases |s|
  {
    if s != [] && s[0] != QUOTE {
      if s[0] == BACKSLASH {
        StrictStringStarts(s[EscapeLength(s)..], value + [EscapeUnit(s)]);
      } else {
        StrictStringStarts(s[1..], value + [Raw(s[0])]);
      }
    }
  }

  lemma {:induction false} SoundIsUnescaped(s: seq<byte>)
    requires Strict(s).Some? && Separated(Strict(s).value)
    ensures Repair(s).escaped == 0
    decreases |s|
  {
    if s != [] {
      if s[0] == QUOTE {
        SoundStringIsUnescaped(s[1..], []);
      } else {
        assert Strict(s).value[1..] == Strict(s[1..]).value;
        SoundIsUnescaped(s[1..]);
      }
    }
  }

  lemma {:induction false} SoundStringIsUnescaped(s: seq<byte>, value: seq<Unit>)
    requires StrictString(s, value).Some? && Separated(StrictString(s, value).value)
    ensures RepairString(s).escaped == 0
    decreases |s|
  {
    if s != [] {
      if s[0] == QUOTE {
        assert StrictString(s, value).value[1..] == Strict(s[1..]).value;
        StrictFollows(s[1..]);
        SoundIsUnescaped(s[1..]);
      } else if s[0] == BACKSLASH {
        EscapeIsCopied(s);
        SoundStringIsUnescaped(s[EscapeLength(s)..], value + [EscapeUnit(s)]);
      } else {
        SoundStringIsUnescaped(s[1..], value + [Raw(s[0])]);
      }
    }
  }

  /** Nothing is escaped exactly when the text already reads strictly and each of its strings is
      followed by structure; every valid JSON text is of that kind. */
  lemma UnescapedIffSound(s: seq<byte>)
    ensures Repair(s).escaped == 0 <==> Strict(s).Some? && Separated(Strict(s).value)
  {
    if Repair(s).escaped == 0 {
      UnescapedIsUnchanged(s);
      StrictReadsRepaired(s);
      LenientSeparated(s);
    } else if Strict(s).Some? && Separated(Strict(s).value) {
      SoundIsUnescaped(s);
    }
  }

  /** A second repair finds nothing to do. */
  lemma RepairIsIdempotent(s: seq<byte>)
    ensures Repair(Repair(s).text) == Repaired(Repair(s).text, 0)
  {
    StrictReadsRepaired(s);
    LenientSeparated(s);
    UnescapedIffSound(Repair(s).text);
    UnescapedIsUnchanged(Repair(s).text);
  }

  // ---------------------------------------------------------------- text between strings

  function Gaps(gap: seq<byte>): (g: seq<Token>)
    ensures |g| == |gap|
  {
    if gap == [] then [] else [Gap(gap[0])] + Gaps(gap[1..])
  }

  lemma {:induction false} GapReads(gap: seq<byte>, s: seq<byte>)
    requires QUOTE !in gap
    ensures Lenient(gap + s) == Gaps(gap) + Lenient(s)
    ensures Strict(s).Some? ==> Strict(gap + s) == Some(Gaps(gap) + Strict(s).value)
    decreases |gap|
  {
    if gap == [] {
      assert gap + s == s;
      if Strict(s).Some? {
        assert Gaps(gap) + Strict(s).value == Strict(s).value;
      }
    } else {
      GapReads(gap[1..], s);
      assert (gap + s)[1..] == gap[1..] + s;
      assert gap[0] != QUOTE;
      if Strict(s).Some? {
        assert [Gap(gap[0])] + (Gaps(gap[1..]) + Strict(s).value) == Gaps(gap) + Strict(s).value;
      }
    }
  }

  // ---------------------------------------------------------------- refusing a batch

  function Quotes(value: seq<Unit>): nat {
    if value == [] then 0 else Quotes(value[..|value| - 1]) + if value[|value| - 1] == Raw(QUOTE) then 1 else 0
  }

  /** hasOddQuotes */
  predicate HasOddQuotes(value: seq<Unit>) {
    Quotes(value) % 2 == 1
  }

  /** A field of a decoded comment; only strings are looked at. */
  datatype Field = Chars(value: seq<Unit>) | Other

  /** A decoded entry, `None` when it is not an object. */
  type Entry = Option<map<string, Field>>

  const TEXT_FIELDS := ["content", "existing_code", "suggestion_code", "path"]

  predicate IsSuspect(e: Entry, f: string) {
    e.Some? && f in e.value && e.value[f].Chars? && HasOddQuotes(e.value[f].value)
  }

  /** Some checked field of some entry has an odd number of quotes. */
  predicate Refused(entries: seq<Entry>) {
    exists i, j :: 0 <= i < |entries| && 0 <= j < |TEXT_FIELDS| && IsSuspect(entries[i], TEXT_FIELDS[j])
  }

  lemma {:induction false} QuotesAreCounted(value: seq<Unit>)
    ensures Quotes(value) == multiset(value)[Raw(0x22)]
    decreases |value|
  {
    if value != [] {
      var n := |value| - 1;
      QuotesAreCounted(value[..n]);
      assert value == value[..n] + [value[n]];
    }
  }

  lemma RefusedMeans(entries: seq<Entry>)
    ensures Refused(entries) <==>
            exists i, f :: 0 <= i < |entries| && f in {"content", "existing_code", "suggestion_code", "path"}
                           && entries[i].Some? && f in entries[i].value && entries[i].value[f].Chars?
                           && multiset(entries[i].value[f].value)[Raw(0x22)] % 2 == 1
  {
    hide Quotes;
    assert TEXT_FIELDS[0] == "content" && TEXT_FIELDS[1] == "existing_code";
    assert TEXT_FIELDS[2] == "suggestion_code" && TEXT_FIELDS[3] == "path";
    forall i, f | 0 <= i < |entries| && entries[i].Some? && f in entries[i].value && entries[i].value[f].Chars?
      ensures Quotes(entries[i].value[f].value) == multiset(entries[i].value[f].value)[Raw(0x22)]
    {
      QuotesAreCounted(entries[i].value[f].value);
    }
  }

  method HasSuspectTruncation(entries: seq<Entry>) returns (suspect: bool)
    ensures suspect <==> Refused(entries)
    ensures suspect <==>
            exists i, f :: 0 <= i < |entries| && f in {"content", "existing_code", "suggestion_code", "path"}
                           && entries[i].Some? && f in entries[i].value && entries[i].value[f].Chars?
                           && multiset(entries[i].value[f].value)[Raw(0x22)] % 2 == 1
  {
    RefusedMeans(entries);
    for i := 0 to |entries|
      invariant forall k, j :: 0 <= k < i && 0 <= j < |TEXT_FIELDS| ==> !IsSuspect(entries[k], TEXT_FIELDS[j])
    {
      if entries[i].None? {
        continue;
      }
      var obj := entries[i].value;
      for j := 0 to |TEXT_FIELDS|
        invariant forall k :: 0 <= k < j ==> !IsSuspect(entries[i], TEXT_FIELDS[k])
      {
        var field := TEXT_FIELDS[j];
        if field in obj && obj[field].Chars? && HasOddQuotes(obj[field].value) {
          assert IsSuspect(entries[i], TEXT_FIELDS[j]);
          return true;
        }
      }
    }
    return false;
  }
}
