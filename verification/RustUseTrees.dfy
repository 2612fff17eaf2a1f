/** Use-trees as Rust writes them, with all their white space, and what the flattener in RustUse makes of
    each: it undoes the printer. */
module RustUseTrees {
  import opened Options
  import opened RustUse
  import opened Strings

  /** White space inside a path, around its "::", belongs to the segment it stands next to. The keyword of
      an alias has some on either side. */
  datatype Use =
    | Name(path: seq<string>)
    | Alias(path: seq<string>, before: string, after: string, alias: string)
    | Glob(path: seq<string>)
    | SelfUse
    | Group(path: seq<string>, lead: string, members: Uses)

  /** The members of a group: none, or one and, behind a comma, the others. A comma behind the last one is
      followed by none. */
  datatype Uses =
    | End(pad: string)
    | Last(before: string, use: Use, after: string)
    | More(before: string, use: Use, after: string, rest: Uses)

  // ---------------------------------------------------------------- paths

  predicate IsWordChar(c: char) {
    !IsSpace(c) && c != '{' && c != '}' && c != ',' && c != ':' && c != '*'
  }

  predicate IsWord(s: string) {
    s != "" && forall c :: c in s ==> IsWordChar(c)
  }

  /** A name, not the keyword `as`, with any white space around it. */
  predicate IsSegment(w: string) {
    IsWord(TrimSpace(w)) && TrimSpace(w) != "as"
  }

  predicate IsPath(p: seq<string>) {
    (forall w :: w in p ==> IsSegment(w)) && (p != [] ==> !Starts(p[0]))
  }

  /** White space is at the beginning. */
  predicate Starts(s: string) {
    s != "" && IsSpace(s[0])
  }

  predicate Ends(s: string) {
    s != "" && IsSpace(s[|s| - 1])
  }

  function PathText(p: seq<string>): string {
    if p == [] then "" else Join(PathText(p[..|p| - 1]), p[|p| - 1])
  }

  lemma SegmentChars(w: string)
    requires IsSegment(w)
    ensures w != "" && forall c :: c in w ==> IsWordChar(c) || IsSpace(c)
  {
    var i, j := TrimIsSlice(w);
    hide TrimSpace;
    forall c | c in w ensures IsWordChar(c) || IsSpace(c) {
      var k :| 0 <= k < |w| && w[k] == c;
      assert i <= k < j ==> w[i..j][k - i] == c;
    }
  }

  /** Nothing the parser cuts at. */
  predicate IsRough(s: string) {
    forall c :: c in s ==> IsWordChar(c) || IsSpace(c) || c == ':'
  }

  lemma {:induction false} PathIsRough(p: seq<string>)
    requires IsPath(p)
    ensures IsRough(PathText(p)) && !Starts(PathText(p))
    ensures p == [] <==> PathText(p) == ""
    ensures p != [] ==> IsWordChar(PathText(p)[0])
    ensures p != [] ==> p[|p| - 1] != "" && PathText(p)[|PathText(p)| - 1] == p[|p| - 1][|p[|p| - 1]| - 1]
    decreases |p|
  {
    hide IsSegment, IsWordChar, IsSpace;
    if p != [] {
      var n := |p| - 1;
      SegmentChars(p[n]);
      assert p[n][0] in p[n];
      PathIsRough(p[..n]);
    }
  }

  lemma {:induction false} PathConcat(a: seq<string>, b: seq<string>)
    requires IsPath(a) && IsPath(b) && b != []
    ensures Join(PathText(a), PathText(b)) == PathText(a + b)
    decreases |b|
  {
    hide IsSegment;
    var n := |b| - 1;
    assert (a + b)[..|a| + n] == a + b[..n];
    assert IsPath(b[..n]);
    if n == 0 {
      assert a + b[..n] == a;
    } else {
      PathConcat(a, b[..n]);
      PathIsRough(b[..n]);
      JoinAssociates(PathText(a), PathText(b[..n]), b[n]);
    }
  }

  lemma JoinAssociates(a: string, b: string, c: string)
    requires b != ""
    ensures Join(a, Join(b, c)) == Join(Join(a, b), c)
  {
    if a != "" {
      assert a + SCOPE + (b + SCOPE + c) == a + SCOPE + b + SCOPE + c;
    }
  }

  lemma PathsJoin(a: seq<string>, b: seq<string>)
    requires IsPath(a) && IsPath(b)
    ensures IsPath(a + b)
  {
    hide IsSegment;
    assert forall w :: w in a + b ==> w in a || w in b;
  }

  lemma LongPathHasColon(p: seq<string>)
    requires IsPath(p) && |p| >= 2
    ensures ':' in PathText(p)
  {
    hide IsSegment;
    var n := |p| - 1;
    assert IsPath(p[..n]);
    PathIsRough(p[..n]);
    assert PathText(p)[|PathText(p[..n])|] == ':';
  }

  /** Only the path of that one word is written so. */
  lemma SelfIsOneWord(p: seq<string>)
    requires IsPath(p) && PathText(p) == "self"
    ensures p == ["self"]
  {
    if |p| >= 2 {
      LongPathHasColon(p);
    } else {
      assert |p| == 1 && p[..0] == [];
    }
  }

  // ---------------------------------------------------------------- printing

  predicate IsGap(gap: string) {
    gap != "" && IsPad(gap)
  }

  function AliasText(before: string, after: string, alias: string): string {
    before + "as" + after + alias
  }

  /** The tree as text. */
  function Print(u: Use): string
    decreases u
  {
    match u
    case Name(p) => PathText(p)
    case Alias(p, before, after, a) => PathText(p) + AliasText(before, after, a)
    case Glob(p) => if p == [] then "*" else PathText(p) + STAR
    case SelfUse => "self"
    case Group(p, lead, members) => Braced(Lead(p, lead), PrintAll(members))
  }

  function Braced(front: string, inner: string): string {
    front + "{" + inner + "}"
  }

  function Lead(p: seq<string>, pad: string): string {
    if p == [] then "" else PathText(p) + SCOPE + pad
  }

  function Padded(us: Uses): string
    decreases us, 0
  {
    match us
    case End(pad) => pad
    case Last(before, u, after) => before + Print(u) + after
    case More(before, u, after, _) => before + Print(u) + after
  }

  function PrintAll(us: Uses): string
    decreases us, 1
  {
    if us.More? then Padded(us) + "," + PrintAll(us.rest) else Padded(us)
  }

  /** A path that stands in front of something other than "::". */
  predicate IsWholePath(p: seq<string>) {
    IsPath(p) && p != [] && !Ends(p[|p| - 1])
  }

  /** A legal tree, `grouped` inside a group and `rooted` below a path that is not empty. */
  predicate IsUse(u: Use, grouped: bool, rooted: bool)
    decreases u
  {
    match u
    case Name(p) => IsWholePath(p) && (grouped ==> p != ["self"])
    case Alias(p, before, after, a) =>
      IsWholePath(p) && IsGap(before) && IsGap(after) && IsWord(a) && (grouped && !rooted ==> p != ["self"])
    case Glob(p) => IsPath(p) && (p == [] ==> grouped && rooted)
    case SelfUse => grouped && rooted
    case Group(p, lead, members) => IsPath(p) && IsPad(lead) && AreUses(members, rooted || p != [])
  }

  predicate AreUses(us: Uses, rooted: bool)
    decreases us
  {
    match us
    case End(pad) => IsPad(pad)
    case Last(before, u, after) => IsPad(before) && IsPad(after) && IsUse(u, true, rooted)
    case More(before, u, after, rest) => IsPad(before) && IsPad(after) && IsUse(u, true, rooted) && AreUses(rest, rooted)
  }

  // ---------------------------------------------------------------- flattening

  /** The keyword is seen only between blanks. */
  predicate Blank(before: string, after: string) {
    before != "" && after != "" && before[|before| - 1] == ' ' && after[0] == ' '
  }

  /** What the flattener returns for the tree below a prefix. */
  function Yield(prefix: seq<string>, u: Use): seq<string>
    decreases u
  {
    match u
    case Name(p) => [PathText(prefix + p)]
    case Alias(p, before, after, a) =>
      [PathText(prefix + p) + if Blank(before, after) then "" else AliasText(before, after, a)]
    case Glob(p) => [PathText(prefix + p)]
    case SelfUse => [PathText(prefix)]
    case Group(p, _, members) => YieldAll(prefix + p, members)
  }

  function YieldAll(prefix: seq<string>, us: Uses): seq<string>
    decreases us
  {
    match us
    case End(_) => if prefix == [] then [] else [PathText(prefix) + SCOPE]
    case Last(_, u, _) => Yield(prefix, u)
    case More(_, u, _, rest) => Yield(prefix, u) + YieldAll(prefix, rest)
  }

  // ---------------------------------------------------------------- the keyword of an alias

  /** The keyword behind white space, in front of a blank or at the end. */
  predicate KeywordAt(t: string, k: nat) {
    k + 3 <= |t| && t[k] == ' ' && t[k + 1] == 'a' && t[k + 2] == 's' && (k + 3 < |t| ==> t[k + 3] == ' ')
  }

  ghost predicate IsFree(t: string) {
    forall k: nat :: !KeywordAt(t, k)
  }

  lemma LetterIsNoSpace()
    ensures !IsSpace('a') && !IsSpace('s') && IsSpace(' ') && !IsSpace(':') && !IsSpace('*') && AS == [' ', 'a', 's', ' ']
  {
  }

  /** Between white space the keyword is all there is. */
  lemma KeywordIsAll(w: string, i: nat, j: nat, k: nat)
    requires i <= j <= |w| && KeywordAt(w, k)
    requires forall m :: 0 <= m < i || j <= m < |w| ==> IsSpace(w[m])
    requires forall c :: c in w[i..j] ==> !IsSpace(c)
    ensures w[i..j] == "as"
  {
    LetterIsNoSpace();
    hide IsSpace;
    assert forall m :: i <= m < j ==> w[m] == w[i..j][m - i] && w[m] in w[i..j];
    assert k + 1 == i && k + 3 == j;
  }

  lemma SegmentIsFree(w: string)
    requires IsSegment(w)
    ensures IsFree(w)
  {
    var i, j := TrimIsSlice(w);
    hide TrimSpace, IsSpace, KeywordAt;
    forall k: nat ensures !KeywordAt(w, k) {
      if KeywordAt(w, k) {
        KeywordIsAll(w, i, j, k);
      }
    }
  }

  lemma {:induction false} PathIsFree(p: seq<string>)
    requires IsPath(p)
    ensures IsFree(PathText(p))
    decreases |p|
  {
    hide IsSegment;
    if p != [] {
      var n := |p| - 1;
      assert IsPath(p[..n]);
      PathIsFree(p[..n]);
      SegmentIsFree(p[n]);
      JoinIsFree(PathText(p[..n]), p[n]);
    }
  }

  lemma JoinIsFree(a: string, b: string)
    requires IsFree(a) && IsFree(b)
    ensures IsFree(Join(a, b))
  {
    var t := a + SCOPE + b;
    forall k: nat ensures !KeywordAt(t, k) {
      assert t[|a|] == t[|a| + 1] == ':';
      assert k + 3 <= |a| && KeywordAt(t, k) ==> KeywordAt(a, k);
      assert k >= |a| + 2 && KeywordAt(t, k) ==> KeywordAt(b, k - |a| - 2);
    }
  }

  lemma FreeHasNoAs(t: string)
    requires IsFree(t)
    ensures Index(t, AS, 0).None?
  {
    hide Index;
    forall k: nat ensures !At(t, AS, k) {
      assert At(t, AS, k) ==> KeywordAt(t, k) by {
        if At(t, AS, k) {
          AsLetters(t, k);
        }
      }
    }
    assert Index(t, AS, 0).None?;
  }

  lemma AsLetters(t: string, k: nat)
    requires At(t, AS, k)
    ensures k + 4 <= |t| && t[k] == ' ' && t[k + 1] == 'a' && t[k + 2] == 's' && t[k + 3] == ' '
  {
    AtIsLetter(t, AS, k, 0);
    AtIsLetter(t, AS, k, 1);
    AtIsLetter(t, AS, k, 2);
    AtIsLetter(t, AS, k, 3);
  }

  /** Of an alias behind a path, the blank keyword can only be the one written there. */
  lemma OnlyKeyword(t: string, before: string, after: string, a: string, k: nat)
    requires IsFree(t) && t != "" && !Ends(t) && IsGap(before) && IsGap(after) && IsWord(a)
    ensures At(t + AliasText(before, after, a), AS, k) ==> k + 1 == |t| + |before| && Blank(before, after)
  {
    var s := t + AliasText(before, after, a);
    var b := |t| + |before|;
    LetterIsNoSpace();
    if At(s, AS, k) {
      AsLetters(s, k);
      hide IsSpace, Index, At;
      AliasParts(t, before, after, a);
      assert k + 3 <= |t| ==> KeywordAt(t, k);
      assert s[k + 1] == 'a' && !IsSpace(s[k + 1]) && IsSpace(s[k]) && IsSpace(s[k + 3]) && !IsSpace(s[k + 2]);
      assert k + 1 >= |t|;
      assert k + 1 == b;
    }
  }

  lemma AliasParts(t: string, before: string, after: string, a: string)
    requires t != "" && !Ends(t) && IsGap(before) && IsGap(after) && IsWord(a)
    ensures var s, b := t + AliasText(before, after, a), |t| + |before|;
            && |s| == b + 2 + |after| + |a|
            && (forall i :: 0 <= i < |t| ==> s[i] == t[i]) && !IsSpace(s[|t| - 1])
            && (forall i :: |t| <= i < b ==> s[i] == before[i - |t|] && IsSpace(s[i]))
            && s[b] == 'a' && s[b + 1] == 's'
            && (forall i :: b + 2 <= i < b + 2 + |after| ==> s[i] == after[i - b - 2] && IsSpace(s[i]))
            && (forall i :: b + 2 + |after| <= i < |s| ==> !IsSpace(s[i]))
  {
    hide IsSpace;
    var s, b := t + AliasText(before, after, a), |t| + |before|;
    forall i | b + 2 + |after| <= i < |s| ensures !IsSpace(s[i]) {
      assert s[i] == a[i - b - 2 - |after|] && s[i] in a;
    }
  }

  lemma BlankKeyword(t: string, before: string, after: string, a: string)
    requires Blank(before, after)
    ensures |t| + |before| > 0 && At(t + AliasText(before, after, a), AS, |t| + |before| - 1)
  {
    var s, n := t + AliasText(before, after, a), |t| + |before| - 1;
    assert s[n..n + |AS|] == AS;
  }

  lemma AsBehind(t: string, before: string, after: string, a: string)
    requires IsFree(t) && t != "" && !Ends(t) && IsGap(before) && IsGap(after) && IsWord(a)
    ensures Index(t + AliasText(before, after, a), AS, 0)
            == if Blank(before, after) then Some(|t| + |before| - 1) else None
  {
    hide IsFree, Index, IsGap, IsWord, Ends, At, AliasText, Blank;
    var s, n := t + AliasText(before, after, a), |t| + |before| - 1;
    forall k: nat ensures At(s, AS, k) ==> k == n && Blank(before, after) {
      OnlyKeyword(t, before, after, a, k);
    }
    if Blank(before, after) {
      BlankKeyword(t, before, after, a);
      IndexIsFirst(s, AS, 0, n);
    } else {
      assert Index(s, AS, 0).None?;
    }
  }

  // ---------------------------------------------------------------- single clauses

  /** No text that ends in a word character ends in a glob. */
  lemma NoStar(s: string)
    requires s != "" && s[|s| - 1] != '*'
    ensures TrimSuffix(s, STAR) == s
  {
    if |STAR| <= |s| {
      assert s[|s| - |STAR|..][2] == s[|s| - 1] && STAR[2] == '*';
    }
  }

  /** A clause without glob and keyword stays as it is. */
  lemma FreeIsSingle(t: string)
    requires IsFree(t) && t != "" && !Starts(t) && !Ends(t) && t[|t| - 1] != '*'
    ensures Single(t) == [t]
  {
    hide TrimSpace, TrimSuffix, Index, IsSpace, IsFree;
    TrimSolid(t);
    NoStar(t);
    FreeHasNoAs(t);
  }

  lemma WholePathText(p: seq<string>)
    requires IsWholePath(p)
    ensures var t := PathText(p);
            t != "" && IsRough(t) && IsFree(t) && !Starts(t) && !Ends(t) && t[|t| - 1] != '*'
  {
    LetterIsNoSpace();
    hide IsSegment, PathText, IsSpace, IsFree;
    PathIsRough(p);
    PathIsFree(p);
    var t := PathText(p);
    assert t[|t| - 1] in t;
  }

  lemma SinglePath(p: seq<string>)
    requires IsWholePath(p)
    ensures Single(PathText(p)) == [PathText(p)]
  {
    hide Single, PathText, IsWholePath, IsFree;
    WholePathText(p);
    FreeIsSingle(PathText(p));
  }

  lemma SingleAlias(p: seq<string>, before: string, after: string, a: string)
    requires IsWholePath(p) && IsGap(before) && IsGap(after) && IsWord(a)
    ensures var s := PathText(p) + AliasText(before, after, a);
            Single(s) == [PathText(p) + if Blank(before, after) then "" else AliasText(before, after, a)]
  {
    hide TrimSpace, TrimSuffix, Index, PathText, IsFree, IsWholePath, IsRough;
    var t := PathText(p);
    var s := t + AliasText(before, after, a);
    WholePathText(p);
    assert a[|a| - 1] in a && s[0] == t[0] && s[|s| - 1] == a[|a| - 1];
    hide IsSpace;
    TrimSolid(s);
    NoStar(s);
    AsBehind(t, before, after, a);
    if Blank(before, after) {
      var gap := before[..|before| - 1];
      assert IsPad(gap);
      assert s[..|t| + |before| - 1] == t + gap && "" + t + gap == t + gap;
      NoPad();
      TrimPadded("", t, gap);
      assert t + "" == t;
    }
  }

  lemma SingleGlob(p: seq<string>)
    requires IsPath(p) && p != []
    ensures Single(PathText(p) + STAR) == [PathText(p)]
  {
    LetterIsNoSpace();
    hide TrimSpace, Index, PathText, IsSegment, IsSpace, IsFree;
    var t := PathText(p);
    var s := t + STAR;
    PathIsRough(p);
    PathIsFree(p);
    assert s[0] == t[0] && s[|s| - 1] == '*';
    TrimSolid(s);
    assert s[|s| - |STAR|..] == STAR && s[..|s| - |STAR|] == t;
    assert TrimSuffix(s, STAR) == t;
    FreeHasNoAs(t);
  }

  /** What is left of a member that is not there. */
  lemma SingleScope(p: seq<string>)
    requires IsPath(p) && p != []
    ensures Single(PathText(p) + SCOPE) == [PathText(p) + SCOPE]
  {
    LetterIsNoSpace();
    hide Single, PathText, IsSegment, IsSpace;
    PathIsRough(p);
    PathIsFree(p);
    JoinIsFree(PathText(p), "");
    assert PathText(p) + SCOPE + "" == PathText(p) + SCOPE;
    FreeIsSingle(PathText(p) + SCOPE);
  }

  // ---------------------------------------------------------------- braces and commas

  /** Reads `s` from `depth` and says where it ends, unless it closes more than is open or, in a strict
      reading, has a comma at depth zero. */
  function Reads(s: string, depth: nat, strict: bool): Option<nat>
    decreases |s|
  {
    if s == "" then Some(depth)
    else if s[0] == '{' then Reads(s[1..], depth + 1, strict)
    else if s[0] == '}' then if depth == 0 then None else Reads(s[1..], depth - 1, strict)
    else if s[0] == ',' && strict && depth == 0 then None
    else Reads(s[1..], depth, strict)
  }

  lemma {:induction false} ReadsConcat(a: string, b: string, depth: nat, strict: bool)
    requires Reads(a, depth, strict).Some?
    ensures Reads(a + b, depth, strict) == Reads(b, Reads(a, depth, strict).value, strict)
    decreases |a|
  {
    if a == "" {
      assert a + b == b;
    } else {
      assert (a + b)[1..] == a[1..] + b;
      if a[0] == '{' {
        ReadsConcat(a[1..], b, depth + 1, strict);
      } else if a[0] == '}' {
        ReadsConcat(a[1..], b, depth - 1, strict);
      } else {
        ReadsConcat(a[1..], b, depth, strict);
      }
    }
  }

  predicate IsPlain(s: string) {
    forall c :: c in s ==> c != '{' && c != '}' && c != ','
  }

  lemma {:induction false} PlainReads(s: string, depth: nat, strict: bool)
    requires IsPlain(s)
    ensures Reads(s, depth, strict) == Some(depth)
    decreases |s|
  {
    if s != "" {
      assert s[0] in s && forall c :: c in s[1..] ==> c in s;
      PlainReads(s[1..], depth, strict);
    }
  }

  lemma PadIsPlain(pad: string)
    requires IsPad(pad)
    ensures IsPlain(pad)
  {
    assert !IsSpace('{') && !IsSpace('}') && !IsSpace(',');
  }

  lemma RoughIsPlain(s: string)
    requires IsRough(s)
    ensures IsPlain(s)
  {
    assert !IsSpace('{') && !IsSpace('}') && !IsSpace(',');
  }

  lemma PathIsPlain(p: seq<string>)
    requires IsPath(p)
    ensures IsPlain(PathText(p))
  {
    hide IsPath, PathText;
    PathIsRough(p);
    RoughIsPlain(PathText(p));
  }

  lemma AliasIsPlain(before: string, after: string, a: string)
    requires IsPad(before) && IsPad(after) && IsWord(a)
    ensures IsPlain(AliasText(before, after, a))
  {
    PadIsPlain(before);
    PadIsPlain(after);
  }

  lemma LeafIsPlain(u: Use, grouped: bool, rooted: bool)
    requires IsUse(u, grouped, rooted) && !u.Group?
    ensures IsPlain(Print(u))
  {
    hide PathText, IsSegment, IsPad, IsWord;
    if !u.SelfUse? {
      PathIsPlain(u.path);
    }
    if u.Alias? {
      AliasIsPlain(u.before, u.after, u.alias);
      hide AliasText;
    }
  }

  lemma LeadIsPlain(p: seq<string>, pad: string)
    requires IsPath(p) && IsPad(pad)
    ensures IsPlain(Lead(p, pad))
  {
    hide PathText, IsPath;
    PathIsPlain(p);
    PadIsPlain(pad);
  }

  /** A printed tree closes what it opens and has no comma outside its braces. */
  lemma {:induction false} PrintReads(u: Use, grouped: bool, rooted: bool, depth: nat, strict: bool)
    requires IsUse(u, grouped, rooted)
    ensures Reads(Print(u), depth, strict) == Some(depth)
    decreases u, 0
  {
    hide IsPad, IsPlain, Lead;
    if u.Group? {
      var lead, inner := Lead(u.path, u.lead), PrintAll(u.members);
      LeadIsPlain(u.path, u.lead);
      PlainReads(lead, depth, strict);
      PrintAllReads(u.members, rooted || u.path != [], depth + 1, strict);
      ReadsConcat(lead, "{" + inner + "}", depth, strict);
      assert ("{" + inner + "}")[1..] == inner + "}";
      ReadsConcat(inner, "}", depth + 1, strict);
      assert "}"[1..] == "";
      assert lead + "{" + inner + "}" == lead + ("{" + inner + "}");
    } else {
      LeafIsPlain(u, grouped, rooted);
      PlainReads(Print(u), depth, strict);
    }
  }

  lemma BetweenPads(before: string, t: string, after: string, depth: nat, strict: bool)
    requires IsPad(before) && IsPad(after) && Reads(t, depth, strict) == Some(depth)
    ensures Reads(before + t + after, depth, strict) == Some(depth)
  {
    hide IsPlain;
    PadIsPlain(before);
    PadIsPlain(after);
    PlainReads(before, depth, strict);
    PlainReads(after, depth, strict);
    ReadsConcat(before, t, depth, strict);
    ReadsConcat(before + t, after, depth, strict);
  }

  lemma {:induction false} PaddedReads(us: Uses, rooted: bool, depth: nat, strict: bool)
    requires AreUses(us, rooted)
    ensures Reads(Padded(us), depth, strict) == Some(depth)
    decreases us, 1
  {
    hide IsPad, IsPlain, Print, Reads;
    if us.End? {
      PadIsPlain(us.pad);
      PlainReads(us.pad, depth, strict);
    } else {
      PrintReads(us.use, true, rooted, depth, strict);
      BetweenPads(us.before, Print(us.use), us.after, depth, strict);
    }
  }

  lemma {:induction false} PrintAllReads(us: Uses, rooted: bool, depth: nat, strict: bool)
    requires AreUses(us, rooted) && (depth > 0 || !strict)
    ensures Reads(PrintAll(us), depth, strict) == Some(depth)
    decreases us, 2
  {
    hide IsPad, Padded;
    PaddedReads(us, rooted, depth, strict);
    if us.More? {
      var front, back := Padded(us), PrintAll(us.rest);
      PrintAllReads(us.rest, rooted, depth, strict);
      ReadsConcat(front, "," + back, depth, strict);
      assert ("," + back)[1..] == back;
      assert front + "," + back == front + ("," + back);
    }
  }

  // ---------------------------------------------------------------- finding the brace, cutting at the commas

  /** Text that closes what it opens is passed over. */
  lemma {:induction false} CloseSkips(s: string, i: nat, b: string, depth: nat)
    requires i + |b| <= |s| && s[i..i + |b|] == b && Reads(b, depth, false).Some?
    ensures MatchClose(s, i, depth + 1) == MatchClose(s, i + |b|, Reads(b, depth, false).value + 1)
    decreases |b|
  {
    if b != "" {
      assert s[i] == b[0];
      assert s[i + 1..i + 1 + |b[1..]|] == b[1..];
      if b[0] == '{' {
        CloseSkips(s, i + 1, b[1..], depth + 1);
      } else if b[0] == '}' {
        CloseSkips(s, i + 1, b[1..], depth - 1);
      } else {
        CloseSkips(s, i + 1, b[1..], depth);
      }
    }
  }

  lemma OpensHere(s: string, i: nat, depth: int)
    requires i < |s| && s[i] == '{'
    ensures MatchClose(s, i, depth) == MatchClose(s, i + 1, depth + 1)
  {
  }

  lemma ClosesHere(s: string, i: nat)
    requires i < |s| && s[i] == '}'
    ensures MatchClose(s, i, 1) == Some(i)
  {
  }

  lemma GroupText(front: string, inner: string)
    ensures var s, i, n := Braced(front, inner), |front|, |inner|;
            |s| == i + n + 2 && s[i] == '{' && s[i + 1 + n] == '}' && s[i + 1..i + 1 + n] == inner && s[..i] == front
  {
  }

  lemma GroupCloses(front: string, inner: string)
    requires Reads(inner, 0, false) == Some(0)
    ensures MatchClose(Braced(front, inner), |front|, 0) == Some(|front| + 1 + |inner|)
  {
    hide MatchClose, Reads, Braced;
    GroupText(front, inner);
    GroupClosesAt(Braced(front, inner), |front|, inner);
  }

  lemma GroupClosesAt(s: string, i: nat, inner: string)
    requires Reads(inner, 0, false) == Some(0)
    requires i + |inner| + 1 < |s| && s[i] == '{' && s[i + 1 + |inner|] == '}' && s[i + 1..i + 1 + |inner|] == inner
    ensures MatchClose(s, i, 0) == Some(i + 1 + |inner|)
  {
    hide MatchClose, Reads;
    OpensHere(s, i, 0);
    CloseSkips(s, i + 1, inner, 0);
    ClosesHere(s, i + 1 + |inner|);
  }

  /** Text without a comma at depth zero stays in one part. */
  lemma {:induction false} PartGrows(done: seq<string>, open: string, b: string, s: string, depth: nat)
    requires Reads(b, depth, true).Some?
    ensures PartsBehind(done, open, b + s, depth) == PartsBehind(done, open + b, s, Reads(b, depth, true).value)
    decreases |b|
  {
    hide PartsBehind;
    if b == "" {
      assert b + s == s && open + b == open;
    } else {
      PartsStep(done, open, b + s, depth);
      assert (b + s)[1..] == b[1..] + s;
      assert open + [b[0]] + b[1..] == open + b;
      if b[0] == '{' {
        PartGrows(done, open + [b[0]], b[1..], s, depth + 1);
      } else if b[0] == '}' {
        PartGrows(done, open + [b[0]], b[1..], s, depth - 1);
      } else {
        PartGrows(done, open + [b[0]], b[1..], s, depth);
      }
    }
  }

  /** The members of a group as the comma splitter sees them. */
  function Members(us: Uses): seq<string>
    decreases us
  {
    [Padded(us)] + if us.More? then Members(us.rest) else []
  }

  lemma {:induction false} MembersAreCut(done: seq<string>, us: Uses, rooted: bool)
    requires AreUses(us, rooted)
    ensures PartsBehind(done, "", PrintAll(us), 0) == done + Members(us)
    decreases us
  {
    hide PartsBehind, IsPad, Padded;
    var text := Padded(us);
    PaddedReads(us, rooted, 0, true);
    assert "" + text == text;
    if us.More? {
      var more := "," + PrintAll(us.rest);
      PartGrows(done, "", text, more, 0);
      assert more[1..] == PrintAll(us.rest);
      assert text + more == PrintAll(us);
      PartsStep(done, text, more, 0);
      MembersAreCut(done + [text], us.rest, rooted);
      assert done + [text] + Members(us.rest) == done + ([text] + Members(us.rest));
    } else {
      PartGrows(done, "", text, "", 0);
      assert text + "" == text && [text] + [] == [text];
      PartsAtEnd(done, text);
    }
  }

  // ---------------------------------------------------------------- groups

  lemma {:induction false} FirstOpenBehind(front: string, more: string)
    requires '{' !in front
    ensures FirstOpen(front + "{" + more) == |front|
    decreases |front|
  {
    var s := front + "{" + more;
    assert s[|front|] == '{';
    if front != "" {
      assert front[0] in front && s[0] == front[0];
      FirstOpenBehind(front[1..], more);
      assert s[1..] == front[1..] + "{" + more;
    }
  }

  /** What stands in front of a group's brace is its path. */
  lemma FrontIsPath(q: seq<string>, pad: string)
    requires IsPath(q) && IsPad(pad)
    ensures TrimSuffix(TrimSpace(Lead(q, pad)), SCOPE) == PathText(q)
  {
    if q != [] {
      hide PathText, TrimSpace, TrimSuffix, IsSegment;
      PathIsRough(q);
      ScopeIsCut(PathText(q), pad);
    }
  }

  lemma ScopeIsCut(text: string, pad: string)
    requires text != "" && !IsSpace(text[0]) && IsPad(pad)
    ensures TrimSuffix(TrimSpace(text + SCOPE + pad), SCOPE) == text
  {
    hide TrimSpace, IsPad;
    var t := text + SCOPE;
    assert t[|t| - 1] == ':' && !IsSpace(':');
    hide IsSpace;
    NoPad();
    TrimPadded("", t, pad);
    assert "" + t + pad == text + SCOPE + pad;
    assert t[|t| - |SCOPE|..] == SCOPE && t[..|t| - |SCOPE|] == text;
  }

  lemma {:induction false} ExpandConcat(prefix: string, a: seq<string>, b: seq<string>, n: nat)
    requires '{' !in prefix && (forall k :: 0 <= k < |a| ==> Opens(a[k]) <= n) && forall k :: 0 <= k < |b| ==> Opens(b[k]) <= n
    ensures ExpandParts(prefix, a + b, n) == ExpandParts(prefix, a, n) + ExpandParts(prefix, b, n)
    decreases |b|
  {
    hide Expand, Opens, TrimSpace, Join;
    if b == [] {
      assert a + b == a;
    } else {
      ExpandConcat(prefix, a, b[..|b| - 1], n);
      assert (a + b)[..|a + b| - 1] == a + b[..|b| - 1];
    }
  }

  /** A printed tree begins and ends with something other than white space, and only `self` is "self". */
  lemma PrintIsTrimmed(u: Use, rooted: bool)
    requires IsUse(u, true, rooted)
    ensures var t := Print(u);
            t != "" && !IsSpace(t[0]) && !IsSpace(t[|t| - 1]) && (t == "self" <==> u.SelfUse?)
  {
    assert forall c :: c in "self" ==> !IsSpace(c);
    LetterIsNoSpace();
    assert !IsSpace('}') && !IsSpace('{');
    hide IsPad, IsSegment, PathText, IsSpace;
    var t := Print(u);
    if !u.SelfUse? {
      PathIsRough(u.path);
    }
    match u
    case Name(p) =>
      if t == "self" {
        SelfIsOneWord(p);
      }
    case Alias(p, before, after, a) =>
      assert a[|a| - 1] in a && t[|t| - 1] == a[|a| - 1];
      BlankInAlias(PathText(p), before, AliasText(before, after, a));
    case Glob(p) => assert t[|t| - 1] == '*';
    case SelfUse =>
    case Group(p, _, members) => assert t[|t| - 1] == '}';
  }

  lemma BlankInAlias(t: string, before: string, rest: string)
    requires IsGap(before) && before <= rest
    ensures exists c :: c in t + rest && IsSpace(c)
  {
    assert before[0] in before && (t + rest)[|t|] == before[0];
  }

  lemma WholeBehind(prefix: seq<string>, p: seq<string>)
    requires IsPath(prefix) && IsWholePath(p)
    ensures IsWholePath(prefix + p)
  {
    hide IsSegment;
    PathsJoin(prefix, p);
  }

  lemma JoinedName(prefix: seq<string>, p: seq<string>)
    requires IsPath(prefix) && IsWholePath(p)
    ensures var t := Join(PathText(prefix), PathText(p)); '{' !in t && Single(t) == [PathText(prefix + p)]
  {
    hide Single, PathText, IsSegment;
    WholeBehind(prefix, p);
    PathIsPlain(prefix + p);
    PathConcat(prefix, p);
    SinglePath(prefix + p);
  }

  lemma JoinedAlias(prefix: seq<string>, p: seq<string>, before: string, after: string, a: string)
    requires IsPath(prefix) && IsWholePath(p) && IsGap(before) && IsGap(after) && IsWord(a)
    ensures var t := Join(PathText(prefix), PathText(p) + AliasText(before, after, a));
            && '{' !in t
            && Single(t) == [PathText(prefix + p) + if Blank(before, after) then "" else AliasText(before, after, a)]
  {
    hide Single, PathText, IsSegment, AliasText, IsWord;
    WholeBehind(prefix, p);
    PathIsPlain(prefix + p);
    PathConcat(prefix, p);
    AliasIsPlain(before, after, a);
    hide IsPad;
    SingleAlias(prefix + p, before, after, a);
    JoinedBehind(PathText(prefix), PathText(p), AliasText(before, after, a));
  }

  lemma JoinedBehind(a: string, b: string, more: string)
    ensures Join(a, b + more) == Join(a, b) + more
  {
    assert a + SCOPE + (b + more) == a + SCOPE + b + more;
  }

  lemma JoinedGlob(prefix: seq<string>, p: seq<string>)
    requires IsPath(prefix) && IsPath(p) && prefix + p != []
    ensures var t := Join(PathText(prefix), if p == [] then "*" else PathText(p) + STAR);
            '{' !in t && Single(t) == [PathText(prefix + p)]
  {
    hide Single, PathText, IsSegment;
    PathsJoin(prefix, p);
    PathIsPlain(prefix + p);
    SingleGlob(prefix + p);
    if p == [] {
      PathIsRough(prefix);
      assert prefix + p == prefix && PathText(prefix) + SCOPE + "*" == PathText(prefix) + STAR;
    } else {
      PathConcat(prefix, p);
      JoinedBehind(PathText(prefix), PathText(p), STAR);
    }
  }

  lemma JoinedLeaf(prefix: seq<string>, u: Use)
    requires IsPath(prefix) && (IsUse(u, true, prefix != []) || (prefix == [] && IsUse(u, false, false)))
    requires !u.Group? && !u.SelfUse?
    ensures var t := Join(PathText(prefix), Print(u)); '{' !in t && Single(t) == Yield(prefix, u)
  {
    hide Single, PathText, IsPath, Join, IsGap, IsWord, AliasText, Blank;
    match u
    case Name(p) => JoinedName(prefix, p);
    case Alias(p, before, after, a) => JoinedAlias(prefix, p, before, after, a);
    case Glob(p) => JoinedGlob(prefix, p);
  }

  /** A group with its prefix is text in front of a brace that reads as the joined path. */
  lemma JoinedGroup(prefix: seq<string>, p: seq<string>, inner: string, pad: string) returns (front: string)
    requires IsPath(prefix) && IsPath(p) && IsPad(pad)
    ensures Join(PathText(prefix), Braced(Lead(p, pad), inner)) == Braced(front, inner)
    ensures '{' !in front && TrimSuffix(TrimSpace(front), SCOPE) == PathText(prefix + p)
  {
    hide TrimSpace, TrimSuffix, IsSegment;
    var q := prefix + p;
    PathsJoin(prefix, p);
    PathIsRough(prefix);
    if p == [] {
      assert q == prefix;
      NoPad();
      front := Lead(q, "");
      FrontIsPath(q, "");
      LeadIsPlain(q, "");
      hide PathText;
      assert PathText(q) + SCOPE + "" == PathText(q) + SCOPE;
    } else {
      PathConcat(prefix, p);
      front := Lead(q, pad);
      FrontIsPath(q, pad);
      LeadIsPlain(q, pad);
      hide PathText;
      var t := PathText(p) + SCOPE + pad;
      assert PathText(prefix) != "" ==>
        PathText(prefix) + SCOPE + (t + "{" + inner + "}") == PathText(prefix) + SCOPE + PathText(p) + SCOPE + pad + "{" + inner + "}";
    }
  }

  lemma ExpandGroup(front: string, inner: string)
    requires '{' !in front && Reads(inner, 0, false) == Some(0)
    ensures var clause := Braced(front, inner);
            var prefix := TrimSuffix(TrimSpace(front), SCOPE);
            && '{' !in prefix && (forall k :: 0 <= k < |Parts(inner, 0)| ==> Opens(Parts(inner, 0)[k]) <= Opens(inner))
            && Expand(clause) == ExpandParts(prefix, Parts(inner, 0), Opens(inner))
  {
    hide TrimSpace, TrimSuffix, Parts, Opens, MatchClose, FirstOpen, ExpandParts;
    var clause := Braced(front, inner);
    assert clause[|front|] == '{';
    FirstOpenBehind(front, inner + "}");
    assert clause == front + "{" + (inner + "}");
    GroupCloses(front, inner);
    GroupText(front, inner);
    FrontHasNoBrace(front);
    OpensOfParts(inner, Opens(inner));
  }

  // ---------------------------------------------------------------- the round trip

  lemma {:induction false} MembersExpand(q: seq<string>, us: Uses, n: nat)
    requires IsPath(q) && AreUses(us, q != [])
    requires '{' !in PathText(q) && forall k :: 0 <= k < |Members(us)| ==> Opens(Members(us)[k]) <= n
    ensures ExpandParts(PathText(q), Members(us), n) == YieldAll(q, us)
    decreases us, 2
  {
    hide Expand, PathText, TrimSpace, Opens, Padded, IsPath;
    assert Opens(Padded(us)) <= n by { assert Members(us)[0] == Padded(us); }
    MemberExpands(q, us, n);
    if us.More? {
      assert forall k :: 0 <= k < |Members(us.rest)| ==> Members(us.rest)[k] == Members(us)[k + 1];
      MembersExpand(q, us.rest, n);
      ExpandConcat(PathText(q), [Padded(us)], Members(us.rest), n);
    } else {
      assert Members(us) == [Padded(us)];
    }
  }

  lemma {:induction false} MemberExpands(q: seq<string>, us: Uses, n: nat)
    requires IsPath(q) && AreUses(us, q != []) && '{' !in PathText(q) && Opens(Padded(us)) <= n
    ensures ExpandParts(PathText(q), [Padded(us)], n) == if us.End? then YieldAll(q, us) else Yield(q, us.use)
    decreases us, 1
  {
    hide PathText, TrimSpace, IsSpace, Opens, Print, Expand, IsSegment;
    OnePart(PathText(q), Padded(us), n);
    PathIsRough(q);
    if us.End? {
      NothingExpands(q, us.pad);
    } else {
      PrintIsTrimmed(us.use, q != []);
      TrimPadded(us.before, Print(us.use), us.after);
      if !us.use.SelfUse? {
        PrintExpands(q, us.use, true);
      }
    }
  }

  /** Between the last comma and the brace. */
  lemma NothingExpands(q: seq<string>, pad: string)
    requires IsPath(q) && IsPad(pad)
    ensures TrimSpace(pad) == "" && Expand(Join(PathText(q), "")) == YieldAll(q, End(pad))
  {
    hide PathText, TrimSpace, IsSegment;
    PadIsTrimmed(pad);
    PathIsRough(q);
    if q == [] {
      PadIsTrimmed("");
    } else {
      PathIsPlain(q);
      SingleScope(q);
      assert PathText(q) + SCOPE + "" == PathText(q) + SCOPE;
      hide Single;
    }
  }

  lemma OnePart(prefix: string, text: string, n: nat)
    requires '{' !in prefix && Opens(text) <= n
    ensures ExpandParts(prefix, [text], n) ==
            if TrimSpace(text) == "self" then (if prefix != "" then [prefix] else [])
            else Expand(Join(prefix, TrimSpace(text)))
  {
    hide Expand, TrimSpace;
    assert [text][..0] == [];
    assert ExpandParts(prefix, [], n) == [];
  }

  lemma {:induction false} PrintExpands(prefix: seq<string>, u: Use, grouped: bool)
    requires IsPath(prefix) && !u.SelfUse?
    requires IsUse(u, grouped, prefix != []) && (grouped || prefix == [])
    ensures Expand(Join(PathText(prefix), Print(u))) == Yield(prefix, u)
    decreases u, 0
  {
    hide IsSegment;
    if u.Group? {
      GroupExpands(prefix, u);
    } else {
      JoinedLeaf(prefix, u);
    }
  }

  lemma {:induction false} GroupExpands(prefix: seq<string>, u: Use)
    requires IsPath(prefix) && u.Group? && IsPath(u.path) && IsPad(u.lead) && AreUses(u.members, prefix != [] || u.path != [])
    ensures Expand(Join(PathText(prefix), Print(u))) == Yield(prefix, u)
    decreases u.members, 3
  {
    hide Expand, ExpandParts, PathText, TrimSpace, TrimSuffix, Reads, Parts, Opens, IsPad, PrintAll, Members, IsPath;
    var q, inner := prefix + u.path, PrintAll(u.members);
    PathsJoin(prefix, u.path);
    var front := JoinedGroup(prefix, u.path, inner, u.lead);
    PrintAllReads(u.members, q != [], 0, false);
    ExpandGroup(front, inner);
    MembersAreCut([], u.members, q != []);
    PartsAtStart(inner);
    assert [] + Members(u.members) == Members(u.members);
    MembersExpand(q, u.members, Opens(inner));
  }

  /** What expandRustUse returns for any legal use-tree, however it is spaced. */
  lemma ExpandYields(u: Use)
    requires IsUse(u, false, false)
    ensures Expand(Print(u)) == Yield([], u)
  {
    hide Expand, Print;
    PrintExpands([], u, false);
  }
}
