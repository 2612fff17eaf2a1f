/** The lighter repair the indexer applies to a summarizer's reply (escapeLoneBackslashes in
    internal/index/summarize.go): it only doubles backslashes that start no escape. */
module LoneBackslashes {
  import opened Options
  import opened JsonLexer
  import opened Sequences

  predicate IsValidLead(b: byte) {
    IsSimpleEscape(b) || b == LOWER_U
  }

  function Escape(s: seq<byte>): seq<byte>
    decreases |s|
  {
    if s == [] then []
    else if s[0] == QUOTE then [QUOTE] + EscapeString(s[1..])
    else [s[0]] + Escape(s[1..])
  }

  function EscapeString(s: seq<byte>): seq<byte>
    decreases |s|
  {
    if s == [] then []
    else if s[0] == BACKSLASH then
      if |s| > 1 && IsValidLead(s[1]) then s[..2] + EscapeString(s[2..])
      else [BACKSLASH, BACKSLASH] + EscapeString(s[1..])
    else if s[0] == QUOTE then [QUOTE] + Escape(s[1..])
    else [s[0]] + EscapeString(s[1..])
  }

  function Rest(s: seq<byte>, i: nat, inString: bool): seq<byte>
    requires i <= |s|
  {
    if inString then EscapeString(s[i..]) else Escape(s[i..])
  }

  method EscapeLoneBackslashes(text: seq<byte>) returns (out: seq<byte>)
    ensures out == Escape(text)
  {
    assert Rest(text, 0, false) == Escape(text);
    out := [];
    var inString := false;
    var i := 0;
    while i < |text|
      invariant 0 <= i <= |text|
      invariant Escape(text) == out + Rest(text, i, inString)
      decreases |text| - i
    {
      ghost var i0, inString0, out0 := i, inString, out;
      ghost var piece: seq<byte>;
      var ch := text[i];
      if !inString {
        if ch == QUOTE {
          inString := true;
        }
        piece, out := [ch], out + [ch];
      } else if ch == BACKSLASH {
        var next: byte := if i + 1 < |text| then text[i + 1] else 0;
        if IsValidLead(next) {
          piece, out := text[i..][..2], out + [ch, next];
          i := i + 1;
        } else {
          piece, out := [BACKSLASH, BACKSLASH], out + [BACKSLASH, BACKSLASH];
        }
      } else {
        if ch == QUOTE {
          inString := false;
        }
        piece, out := [ch], out + [ch];
      }
      i := i + 1;
      assert out == out0 + piece;
      assert Rest(text, i0, inString0) == piece + Rest(text, i, inString);
      Reassociate(out0, piece, Rest(text, i, inString));
    }
  }

  // ---------------------------------------------------------------- meaning

  /** The strict reading, except that a backslash in front of anything but an escape letter is content. */
  function Tolerant(s: seq<byte>): Option<seq<Token>>
    decreases |s|
  {
    if s == [] then Some([])
    else if s[0] == QUOTE then TolerantString(s[1..], [])
    else Prepend(Gap(s[0]), Tolerant(s[1..]))
  }

  function TolerantString(s: seq<byte>, value: seq<Unit>): Option<seq<Token>>
    decreases |s|
  {
    if s == [] then Some([Open(value)])
    else if s[0] == QUOTE then Prepend(Literal(value), Tolerant(s[1..]))
    else if s[0] == BACKSLASH then
      if |s| < 2 || !IsValidLead(s[1]) then TolerantString(s[1..], value + [Raw(BACKSLASH)])
      else if EscapeLength(s) == 0 then None
      else TolerantString(s[EscapeLength(s)..], value + [EscapeUnit(s)])
    else if s[0] < 0x20 then None
    else TolerantString(s[1..], value + [Raw(s[0])])
  }

  predicate HexRun(s: seq<byte>, n: nat) {
    n == 0 || (s != [] && IsHexDigit(s[0]) && HexRun(s[1..], n - 1))
  }

  lemma FourHexIsHexRun(s: seq<byte>)
    ensures FourHex(s) <==> HexRun(s, 4)
  {
    if |s| >= 4 {
      assert s[1..][1..] == s[2..] && s[2..][1..] == s[3..];
      assert HexRun(s, 4) <==> IsHexDigit(s[0]) && HexRun(s[1..], 3);
      assert HexRun(s[1..], 3) <==> IsHexDigit(s[1]) && HexRun(s[2..], 2);
      assert HexRun(s[2..], 2) <==> IsHexDigit(s[2]) && HexRun(s[3..], 1);
      assert HexRun(s[3..][1..], 0);
      assert HexRun(s[3..], 1) <==> IsHexDigit(s[3]);
    } else if HexRun(s, 4) {
      ShortHexRun(s, 4);
    }
  }

  lemma {:induction false} ShortHexRun(s: seq<byte>, n: nat)
    requires HexRun(s, n)
    ensures |s| >= n
  {
    if n > 0 {
      ShortHexRun(s[1..], n - 1);
    }
  }

  lemma HexDigitIsCopied(s: seq<byte>)
    ensures EscapeString(s) == [] <==> s == []
    ensures s != [] ==> EscapeString(s)[0] == s[0]
    ensures s != [] && IsHexDigit(s[0]) ==> EscapeString(s)[1..] == EscapeString(s[1..])
  {
  }

  /** The scan turns nothing into a hex digit. */
  lemma {:induction false} HexRunIsKept(s: seq<byte>, n: nat)
    ensures HexRun(EscapeString(s), n) <==> HexRun(s, n)
    decreases n
  {
    HexDigitIsCopied(s);
    if n > 0 && s != [] && IsHexDigit(s[0]) {
      HexRunIsKept(s[1..], n - 1);
    }
  }

  /** It copies a run of hex digits. */
  lemma {:induction false} HexRunIsCopied(s: seq<byte>, n: nat)
    requires HexRun(s, n)
    ensures |s| >= n && EscapeString(s) == s[..n] + EscapeString(s[n..])
    decreases n
  {
    if n > 0 {
      HexDigitIsCopied(s);
      HexRunIsCopied(s[1..], n - 1);
      assert s[1..][n - 1..] == s[n..];
      assert s[..n] == [s[0]] + s[1..][..n - 1];
      assert EscapeString(s) == [s[0]] + EscapeString(s)[1..];
    } else {
      assert s[0..] == s && s[..0] + EscapeString(s) == EscapeString(s);
    }
  }

  lemma LeadIsKept(s: seq<byte>)
    requires |s| > 1 && s[0] == BACKSLASH && IsValidLead(s[1])
    ensures var t := EscapeString(s);
            && t[0] == BACKSLASH && EscapeLength(t) == EscapeLength(s)
            && (EscapeLength(s) > 0 ==>
                  EscapeUnit(t) == EscapeUnit(s) && t[EscapeLength(s)..] == EscapeString(s[EscapeLength(s)..]))
  {
    var t := EscapeString(s);
    assert t == s[..2] + EscapeString(s[2..]);
    assert t[2..] == EscapeString(s[2..]);
    if !IsSimpleEscape(s[1]) {
      HexRunIsKept(s[2..], 4);
      FourHexIsHexRun(s[2..]);
      FourHexIsHexRun(t[2..]);
      if FourHex(s[2..]) {
        HexRunIsCopied(s[2..], 4);
        assert s[2..][4..] == s[6..];
        assert t[2..] == s[2..][..4] + EscapeString(s[6..]);
        assert t[6..] == t[2..][4..] == EscapeString(s[6..]);
        assert forall k :: 2 <= k < 6 ==> t[k] == t[2..][k - 2] == s[2..][k - 2] == s[k];
      }
    }
  }

  lemma {:induction false} StrictReadsEscapedString(s: seq<byte>, value: seq<Unit>)
    ensures StrictString(EscapeString(s), value) == TolerantString(s, value)
    decreases |s|
  {
    if s != [] {
      var t := EscapeString(s);
      if s[0] == QUOTE {
        assert t[1..] == Escape(s[1..]);
        StrictReadsEscaped(s[1..]);
      } else if s[0] == BACKSLASH {
        if |s| > 1 && IsValidLead(s[1]) {
          LeadIsKept(s);
          if EscapeLength(s) > 0 {
            StrictReadsEscapedString(s[EscapeLength(s)..], value + [EscapeUnit(s)]);
          }
        } else {
          assert t[2..] == EscapeString(s[1..]);
          StrictReadsEscapedString(s[1..], value + [Raw(BACKSLASH)]);
        }
      } else {
        assert t[1..] == EscapeString(s[1..]);
        StrictReadsEscapedString(s[1..], value + [Raw(s[0])]);
      }
    }
  }

  /** Reading the escaped text strictly is reading the original tolerantly, errors included. */
  lemma {:induction false} StrictReadsEscaped(s: seq<byte>)
    ensures Strict(Escape(s)) == Tolerant(s)
    decreases |s|
  {
    if s != [] {
      if s[0] == QUOTE {
        assert Escape(s)[1..] == EscapeString(s[1..]);
        StrictReadsEscapedString(s[1..], []);
      } else {
        assert Escape(s)[1..] == Escape(s[1..]);
        StrictReadsEscaped(s[1..]);
      }
    }
  }

  // ---------------------------------------------------------------- when nothing changes

  /** Every backslash in a string is in front of an escape letter. */
  predicate NoLone(s: seq<byte>)
    decreases |s|
  {
    s == [] || if s[0] == QUOTE then NoLoneInString(s[1..]) else NoLone(s[1..])
  }

  predicate NoLoneInString(s: seq<byte>)
    decreases |s|
  {
    s == []
    || if s[0] == QUOTE then NoLone(s[1..])
       else if s[0] == BACKSLASH then |s| > 1 && IsValidLead(s[1]) && NoLoneInString(s[2..])
       else NoLoneInString(s[1..])
  }

  lemma {:induction false} EscapeGrows(s: seq<byte>)
    ensures |Escape(s)| >= |s| && |EscapeString(s)| >= |s|
    decreases |s|
  {
    if s != [] {
      EscapeGrows(s[1..]);
      if |s| > 1 {
        EscapeGrows(s[2..]);
      }
    }
  }

  lemma {:induction false} UnchangedIffNoLone(s: seq<byte>)
    ensures Escape(s) == s <==> NoLone(s)
    decreases |s|
  {
    if s != [] {
      assert Escape(s)[1..] == if s[0] == QUOTE then EscapeString(s[1..]) else Escape(s[1..]);
      if s[0] == QUOTE {
        StringUnchangedIffNoLone(s[1..]);
      } else {
        UnchangedIffNoLone(s[1..]);
      }
    }
  }

  lemma {:induction false} StringUnchangedIffNoLone(s: seq<byte>)
    ensures EscapeString(s) == s <==> NoLoneInString(s)
    decreases |s|
  {
    if s != [] {
      var t := EscapeString(s);
      if s[0] == QUOTE {
        assert t[1..] == Escape(s[1..]);
        UnchangedIffNoLone(s[1..]);
      } else if s[0] == BACKSLASH {
        if |s| > 1 && IsValidLead(s[1]) {
          assert t[2..] == EscapeString(s[2..]) && s == s[..2] + s[2..];
          StringUnchangedIffNoLone(s[2..]);
        } else {
          EscapeGrows(s[1..]);
        }
      } else {
        assert t[1..] == EscapeString(s[1..]);
        StringUnchangedIffNoLone(s[1..]);
      }
    }
  }

  lemma {:induction false} EscapedHasNoLone(s: seq<byte>)
    ensures NoLone(Escape(s)) && NoLoneInString(EscapeString(s))
    decreases |s|
  {
    if s != [] {
      EscapedHasNoLone(s[1..]);
      var t, u := Escape(s), EscapeString(s);
      assert t[1..] == if s[0] == QUOTE then EscapeString(s[1..]) else Escape(s[1..]);
      if s[0] == BACKSLASH {
        if |s| > 1 && IsValidLead(s[1]) {
          EscapedHasNoLone(s[2..]);
          assert u[2..] == EscapeString(s[2..]);
        } else {
          assert u[2..] == EscapeString(s[1..]);
        }
      } else {
        assert u[1..] == if s[0] == QUOTE then Escape(s[1..]) else EscapeString(s[1..]);
      }
    }
  }

  lemma {:induction false} StrictHasNoLone(s: seq<byte>)
    ensures Strict(s).Some? ==> NoLone(s)
    decreases |s|
  {
    if s != [] {
      if s[0] == QUOTE {
        StrictStringHasNoLone(s[1..], []);
      } else {
        StrictHasNoLone(s[1..]);
      }
    }
  }

  lemma {:induction false} StrictStringHasNoLone(s: seq<byte>, value: seq<Unit>)
    ensures StrictString(s, value).Some? ==> NoLoneInString(s)
    decreases |s|
  {
    if s != [] {
      if s[0] == QUOTE {
        StrictHasNoLone(s[1..]);
      } else if s[0] == BACKSLASH {
        if EscapeLength(s) > 0 {
          StrictStringHasNoLone(s[EscapeLength(s)..], value + [EscapeUnit(s)]);
          if EscapeLength(s) == 6 {
            HexHasNoLone(s[2..], 4);
            FourHexIsHexRun(s[2..]);
            assert s[2..][4..] == s[6..];
          }
        }
      } else {
        StrictStringHasNoLone(s[1..], value + [Raw(s[0])]);
      }
    }
  }

  lemma {:induction false} HexHasNoLone(s: seq<byte>, n: nat)
    ensures HexRun(s, n) ==> |s| >= n && (NoLoneInString(s[n..]) ==> NoLoneInString(s))
  {
    if HexRun(s, n) && n > 0 {
      HexHasNoLone(s[1..], n - 1);
      assert s[1..][n - 1..] == s[n..];
    } else if n == 0 {
      assert s[0..] == s;
    }
  }

  /** A well-formed reply passes through unchanged, and a second pass changes nothing. */
  lemma EscapeIsIdempotent(s: seq<byte>)
    ensures Strict(s).Some? ==> Escape(s) == s
    ensures Escape(Escape(s)) == Escape(s)
  {
    StrictHasNoLone(s);
    UnchangedIffNoLone(s);
    EscapedHasNoLone(s);
    UnchangedIffNoLone(Escape(s));
  }
}
