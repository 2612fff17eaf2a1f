/** The hidden marker that a posted comment carries (cmd/sacr/emit.go), and the recovery of an earlier
    run's findings from such comments (cmd/sacr/carryover.go). */
module CommentMarkers {
  import opened Carryover
  import opened Options
  import opened Sequences
  import opened Strings

  const PREFIX := "<!-- sacr:fp:"
  const SUFFIX := " -->"
  const FENCE := "```"

  // ---------------------------------------------------------------- the marker

  /** A fingerprint is hexadecimal: not empty and without white space or punctuation. */
  predicate IsFingerprint(fp: string) {
    fp != "" && forall c :: c in fp ==> '0' <= c <= '9' || 'a' <= c <= 'f'
  }

  function Marker(fp: string): string {
    if fp == "" then "" else "\n\n" + PREFIX + fp + SUFFIX
  }

  function ExtractFingerprint(body: string): string {
    match Index(body, PREFIX, 0)
    case None => ""
    case Some(i) =>
      var rest := body[i + |PREFIX|..];
      match Index(rest, SUFFIX, 0)
      case None => ""
      case Some(j) => TrimSpace(rest[..j])
  }

  lemma FingerprintIsTrimmed(fp: string)
    requires IsFingerprint(fp)
    ensures TrimSpace(fp) == fp
  {
    assert fp[0] in fp && fp[|fp| - 1] in fp;
  }

  lemma PrefixHasNoNewline()
    ensures '\n' !in PREFIX && |PREFIX| == 13 && |SUFFIX| == 4 && SUFFIX[0] == ' '
  {
  }

  lemma PrefixIsBehind(text: string, rest: string)
    requires Lacks(text, PREFIX)
    ensures Index(text + "\n\n" + PREFIX + rest, PREFIX, 0) == Some(|text| + 2)
  {
    hide Index, At, Lacks;
    var s := text + "\n\n" + PREFIX + rest;
    PrefixHasNoNewline();
    forall i: nat | i < |text| + 2 ensures !At(s, PREFIX, i) {
      if i <= |text| {
        NotAcross(text, '\n', "\n" + PREFIX + rest, PREFIX, i);
        assert text + ['\n'] + ("\n" + PREFIX + rest) == s;
      } else {
        assert s[i] == '\n' != PREFIX[0];
        NotAtLetter(s, PREFIX, i, 0);
      }
    }
    PrefixStands(text + "\n\n", rest);
    IndexIsFirst(s, PREFIX, 0, |text| + 2);
  }

  lemma PrefixStands(front: string, rest: string)
    ensures At(front + PREFIX + rest, PREFIX, |front|)
  {
  }

  lemma SuffixIsBehind(fp: string)
    requires IsFingerprint(fp)
    ensures Index(fp + SUFFIX, SUFFIX, 0) == Some(|fp|)
  {
    hide Index;
    forall i: nat | i < |fp| ensures !At(fp + SUFFIX, SUFFIX, i) {
      assert fp[i] in fp;
      NotAtLetter(fp + SUFFIX, SUFFIX, i, 0);
    }
    IndexIsFirst(fp + SUFFIX, SUFFIX, 0, |fp|);
  }

  /** A marker behind a text without the prefix is read back. */
  lemma MarkerReadsBack(text: string, fp: string)
    requires IsFingerprint(fp) && Lacks(text, PREFIX)
    ensures ExtractFingerprint(text + Marker(fp)) == fp
  {
    hide Index, TrimSpace, At, Lacks;
    PrefixHasNoNewline();
    PrefixIsBehind(text, fp + SUFFIX);
    assert text + Marker(fp) == text + "\n\n" + PREFIX + (fp + SUFFIX);
    var rest := (text + Marker(fp))[|text| + 2 + |PREFIX|..];
    assert rest == fp + SUFFIX;
    SuffixIsBehind(fp);
    assert rest[..|fp|] == fp;
    FingerprintIsTrimmed(fp);
  }

  // ---------------------------------------------------------------- exactly when it is read back

  function Letters(s: string): nat {
    if s == "" then 0 else Letters(s[..|s| - 1]) + if IsSpace(s[|s| - 1]) then 0 else 1
  }

  lemma {:induction false} LettersConcat(a: string, b: string)
    ensures Letters(a + b) == Letters(a) + Letters(b)
    decreases |b|
  {
    if b == "" {
      assert a + b == a;
    } else {
      LettersConcat(a, b[..|b| - 1]);
      assert (a + b)[..|a + b| - 1] == a + b[..|b| - 1];
    }
  }

  lemma {:induction false} TrimLeftKeepsLetters(s: string)
    ensures Letters(TrimLeft(s)) == Letters(s)
    decreases |s|
  {
    if s != "" && IsSpace(s[0]) {
      TrimLeftKeepsLetters(s[1..]);
      LettersConcat([s[0]], s[1..]);
      assert s == [s[0]] + s[1..] && [s[0]][..0] == "";
    }
  }

  lemma {:induction false} TrimRightKeepsLetters(s: string)
    ensures Letters(TrimRight(s)) == Letters(s)
    decreases |s|
  {
    if s != "" && IsSpace(s[|s| - 1]) {
      TrimRightKeepsLetters(s[..|s| - 1]);
    }
  }

  lemma TrimKeepsLetters(s: string)
    ensures Letters(TrimSpace(s)) == Letters(s)
  {
    TrimLeftKeepsLetters(s);
    TrimRightKeepsLetters(TrimLeft(s));
  }

  /** The first prefix in the text decides: the rest of the text in front of the marker is read instead. */
  lemma ExtractsFromText(text: string, fp: string)
    requires Index(text, PREFIX, 0).Some?
    ensures var i := Index(text, PREFIX, 0).value;
            var rest := text[i + |PREFIX|..] + Marker(fp);
            ExtractFingerprint(text + Marker(fp)) ==
            match Index(rest, SUFFIX, 0) case None => "" case Some(j) => TrimSpace(rest[..j])
  {
    hide Index, TrimSpace;
    IndexShift(text, PREFIX, Marker(fp), 0);
    var i := Index(text, PREFIX, 0).value;
    assert (text + Marker(fp))[i + |PREFIX|..] == text[i + |PREFIX|..] + Marker(fp);
  }

  /** A suffix in the rest of the text ends the reading there, whatever the fingerprint is. */
  lemma TextSuffixWins(tail: string, fp: string)
    requires Index(tail, SUFFIX, 0).Some?
    ensures var j := Index(tail, SUFFIX, 0).value;
            Index(tail + Marker(fp), SUFFIX, 0) == Some(j) && (tail + Marker(fp))[..j] == tail[..j]
  {
    hide Index;
    IndexShift(tail, SUFFIX, Marker(fp), 0);
  }

  /** Otherwise the reading runs on into the marker and takes its first letters with it. */
  lemma MarkerIsReadWhole(tail: string, fp: string, j: nat)
    requires Index(tail, SUFFIX, 0).None? && Index(tail + Marker(fp), SUFFIX, 0) == Some(j) && fp != ""
    ensures tail + "\n\n<!--" <= (tail + Marker(fp))[..j]
  {
    hide Index, Lacks, At;
    var more := Marker(fp)[1..];
    TailLacksSuffix(tail);
    assert tail + ['\n'] + more == tail + Marker(fp);
    SuffixLetters();
    if j <= |tail| {
      NotAcross(tail, '\n', more, SUFFIX, j);
    }
    MarkerLetters(fp);
    ReadsPastMarker(tail + Marker(fp), tail, j);
  }

  lemma MarkerLetters(fp: string)
    requires fp != ""
    ensures "\n\n<!--" <= Marker(fp)
  {
    SuffixLetters();
    assert "\n\n<!--" == "\n\n" + PREFIX[..4];
  }

  /** A suffix begins with a blank, which the first letters of a marker do not have. */
  lemma ReadsPastMarker(s: string, tail: string, j: nat)
    requires At(s, SUFFIX, j) && j > |tail| && tail + "\n\n<!--" <= s
    ensures tail + "\n\n<!--" <= s[..j]
  {
    SuffixLetters();
    AtIsLetter(s, SUFFIX, j, 0);
    hide At;
    var front := tail + "\n\n<!--";
    assert forall k :: |tail| <= k < |front| ==> s[k] == front[k] == "\n\n<!--"[k - |tail|];
    assert j >= |front|;
  }

  lemma SuffixLetters()
    ensures '\n' !in SUFFIX && SUFFIX[0] == ' ' && SUFFIX != "" && forall k :: 0 <= k < 6 ==> "\n\n<!--"[k] != ' '
    ensures |PREFIX| == 13 && PREFIX[..4] == "<!--"
  {
  }

  lemma TailLacksSuffix(tail: string)
    requires Index(tail, SUFFIX, 0).None?
    ensures Lacks(tail, SUFFIX)
  {
    hide Index;
    forall k: nat ensures !At(tail, SUFFIX, k) {
      if At(tail, SUFFIX, k) {
        IndexFinds(tail, SUFFIX, 0, k);
      }
    }
  }

  lemma LettersOfPrefix(s: string, front: string, more: string)
    requires front + more <= s
    ensures Letters(s) >= Letters(more)
  {
    LettersConcat(front + more, s[|front + more|..]);
    LettersConcat(front, more);
    assert s == front + more + s[|front + more|..];
  }

  lemma LettersAppend(s: string, c: char)
    ensures Letters(s + [c]) == Letters(s) + if IsSpace(c) then 0 else 1
  {
    assert (s + [c])[..|s|] == s;
  }

  lemma OneLetter()
    ensures Letters("a") == 1 && Letters("\n\n<!--") == 4 && IsFingerprint("a") && IsFingerprint("b")
  {
    hide Letters;
    NoLetters();
    LettersAppend("", 'a');
    LettersAppend("", '\n');
    LettersAppend("\n", '\n');
    LettersAppend("\n\n", '<');
    LettersAppend("\n\n<", '!');
    LettersAppend("\n\n<!", '-');
    LettersAppend("\n\n<!-", '-');
    assert "" + ['a'] == "a" && "" + ['\n'] == "\n" && "\n" + ['\n'] == "\n\n" && "\n\n" + ['<'] == "\n\n<";
    assert "\n\n<" + ['!'] == "\n\n<!" && "\n\n<!" + ['-'] == "\n\n<!-" && "\n\n<!-" + ['-'] == "\n\n<!--";
  }

  lemma NoLetters()
    ensures Letters("") == 0
  {
  }

  /** With the prefix in the text, some fingerprint is not read back. */
  lemma PrefixSpoilsMarker(text: string, k: nat) returns (fp: string)
    requires At(text, PREFIX, k)
    ensures IsFingerprint(fp) && ExtractFingerprint(text + Marker(fp)) != fp
  {
    hide Index, TrimSpace, Letters;
    IndexFinds(text, PREFIX, 0, k);
    var tail := text[Index(text, PREFIX, 0).value + |PREFIX|..];
    OneLetter();
    ExtractsFromText(text, "a");
    ExtractsFromText(text, "b");
    if Index(tail, SUFFIX, 0).Some? {
      TextSuffixWins(tail, "a");
      TextSuffixWins(tail, "b");
      fp := if ExtractFingerprint(text + Marker("a")) == "a" then "b" else "a";
    } else {
      fp := "a";
      var found := Index(tail + Marker(fp), SUFFIX, 0);
      if found.Some? {
        MarkerIsReadWhole(tail, fp, found.value);
        var read := (tail + Marker(fp))[..found.value];
        LettersOfPrefix(read, tail, "\n\n<!--");
        TrimKeepsLetters(read);
      }
    }
  }

  /** A posted comment gives its fingerprint back, whatever it is, exactly when its text does not already
      contain the marker's prefix. */
  lemma MarkerReadsBackIff(text: string)
    ensures Lacks(text, PREFIX) <==>
            forall fp :: IsFingerprint(fp) ==> ExtractFingerprint(text + Marker(fp)) == fp
  {
    hide ExtractFingerprint, Marker, IsFingerprint, At;
    if Lacks(text, PREFIX) {
      forall fp | IsFingerprint(fp) ensures ExtractFingerprint(text + Marker(fp)) == fp {
        MarkerReadsBack(text, fp);
      }
    } else {
      var k: nat :| At(text, PREFIX, k);
      var fp := PrefixSpoilsMarker(text, k);
    }
  }

  // ---------------------------------------------------------------- the posted body

  /** A comment as it is rendered. */
  datatype Post = Post(severity: string, category: string, content: string, existingCode: string, suggestionCode: string)

  predicate IsNit(p: Post) {
    p.severity == "low" && p.category in {"style", "maintainability", "test", "documentation"}
  }

  predicate HasSuggestion(p: Post) {
    p.suggestionCode != "" && p.existingCode != "" && Index(p.suggestionCode, FENCE, 0).None?
  }

  function Heading(p: Post): string {
    (if IsNit(p) then "**[nit]** " else "")
    + if p.severity != "" || p.category != "" then "**[" + p.severity + " / " + p.category + "]** " else ""
  }

  function Suggestion(p: Post): string {
    if HasSuggestion(p)
    then "\n\n" + FENCE + "suggestion\n" + p.suggestionCode + (if EndsLine(p.suggestionCode) then "" else "\n") + FENCE
    else ""
  }

  /** The visible text. */
  function Text(p: Post): string {
    Heading(p) + TrimSpace(p.content) + Suggestion(p)
  }

  method WriteHeading(p: Post) returns (b: string)
    ensures b == Heading(p)
  {
    b := "";
    if IsNit(p) {
      b := b + "**[nit]** ";
    }
    if p.severity != "" || p.category != "" {
      b := b + "**[" + p.severity + " / " + p.category + "]** ";
    }
  }

  method WriteSuggestion(p: Post) returns (b: string)
    ensures b == Suggestion(p)
  {
    hide Index;
    b := "";
    if p.suggestionCode != "" && p.existingCode != "" && Index(p.suggestionCode, FENCE, 0).None? {
      b := "\n\n" + FENCE + "suggestion\n" + p.suggestionCode;
      if !EndsLine(p.suggestionCode) {
        b := b + "\n";
      }
      b := b + FENCE;
    }
  }

  /** The visible text is the content without the white space at its ends, behind a nit's mark and the two
      labels and in front of the suggested code, which is given only to replace quoted code. */
  lemma TextMeans(p: Post) returns (a: string, t: string, c: string)
    ensures p.content == a + t + c && IsPad(a) && IsPad(c) && IsBare(t)
    ensures var nit := p.severity == "low" && (p.category == "style" || p.category == "maintainability"
                                               || p.category == "test" || p.category == "documentation");
            var labels := p.severity != "" || p.category != "";
            var code := p.suggestionCode + if p.suggestionCode != "" && p.suggestionCode[|p.suggestionCode| - 1] == '\n' then "" else "\n";
            var suggests := p.suggestionCode != "" && p.existingCode != "" && Lacks(p.suggestionCode, "```");
            Text(p) ==
            (if nit then "**[nit]** " else "") + (if labels then "**[" + p.severity + " / " + p.category + "]** " else "")
            + t + if suggests then "\n\n```suggestion\n" + code + "```" else ""
  {
    hide TrimSpace, Index, At, IsPad, IsBare;
    t := TrimSpace(p.content);
    a, c := TrimMeans(p.content);
    LacksOrFinds(p.suggestionCode, "```");
    var code := p.suggestionCode + if p.suggestionCode != "" && p.suggestionCode[|p.suggestionCode| - 1] == '\n' then "" else "\n";
    if HasSuggestion(p) {
      assert Suggestion(p) == "\n\n" + "```" + "suggestion\n" + code + "```";
      assert "\n\n" + "```" + "suggestion\n" == "\n\n```suggestion\n";
    }
  }

  lemma LacksOrFinds(s: string, pat: string)
    ensures Index(s, pat, 0).None? <==> Lacks(s, pat)
  {
    hide Index, At;
    forall k: nat | At(s, pat, k) ensures Index(s, pat, 0).Some? {
      IndexFinds(s, pat, 0, k);
    }
  }

  /** The suggested code ends at the first fence behind it, so that none of it is read as text. */
  lemma SuggestionEndsAtFence(code: string)
    requires Lacks(code, "```")
    ensures EndsLine(code) ==> Index(code + "```", "```", 0) == Some(|code|)
    ensures Index(code + "\n```", "```", 0) == Some(|code| + 1)
  {
    hide Index, At, Lacks;
    FenceBehindLine(code);
    if EndsLine(code) {
      var n := |code| - 1;
      PrefixLacks(code, n, "```");
      FenceBehindLine(code[..n]);
      assert code[..n] + "\n```" == code + "```";
    }
  }

  lemma PrefixLacks(s: string, n: nat, pat: string)
    requires n <= |s| && Lacks(s, pat)
    ensures Lacks(s[..n], pat)
  {
    forall k: nat ensures !At(s[..n], pat, k) {
      assert !At(s, pat, k);
      assert k + |pat| <= n ==> s[..n][k..k + |pat|] == s[k..k + |pat|];
    }
  }

  lemma FenceBehindLine(code: string)
    requires Lacks(code, "```")
    ensures Index(code + "\n```", "```", 0) == Some(|code| + 1)
  {
    hide Index, At, Lacks;
    var s := code + "\n```";
    forall i: nat | i < |code| + 1 ensures !At(s, "```", i) {
      NotAcross(code, '\n', "```", "```", i);
      assert code + ['\n'] + "```" == s;
    }
    FenceStands(code + "\n");
    assert code + "\n" + "```" == s;
    IndexIsFirst(s, "```", 0, |code| + 1);
  }

  lemma FenceStands(front: string)
    ensures At(front + "```", "```", |front|)
  {
  }

  /** What is posted is the visible text and behind it the marker, which gives the fingerprint back unless
      the text has a marker of its own. */
  method FormatGithubBodyWithFP(p: Post, fp: string) returns (b: string)
    ensures b == Text(p) + if fp == "" then "" else "\n\n<!-- sacr:fp:" + fp + " -->"
    ensures b == Text(p) + Marker(fp)
    ensures IsFingerprint(fp) && Lacks(Text(p), PREFIX) ==> ExtractFingerprint(b) == fp
  {
    hide Heading, Suggestion, TrimSpace, ExtractFingerprint, Lacks, IsFingerprint;
    var heading := WriteHeading(p);
    var suggestion := WriteSuggestion(p);
    b := heading + TrimSpace(p.content) + suggestion;
    if fp != "" {
      assert "\n\n<!-- sacr:fp:" == "\n\n" + PREFIX;
      b := b + ("\n\n" + PREFIX + fp + SUFFIX);
    }
    if IsFingerprint(fp) && Lacks(Text(p), PREFIX) {
      MarkerReadsBack(Text(p), fp);
    }
  }

  // ---------------------------------------------------------------- recovery

  datatype Posted = Posted(body: string, path: Path, line: int)

  function RecoveredOne(e: Posted, now: Time): Finding {
    Finding(ExtractFingerprint(e.body), Comment(e.path, e.line, e.line, ""), Keep, Some(now), Some(now))
  }

  function Recovered(existing: seq<Posted>, now: Time): seq<Finding> {
    if existing == [] then []
    else
      var n := |existing| - 1;
      Recovered(existing[..n], now)
      + if ExtractFingerprint(existing[n].body) == "" then [] else [RecoveredOne(existing[n], now)]
  }

  method FindingsFromPRComments(existing: seq<Posted>, now: Time) returns (out: seq<Finding>)
    ensures out == Recovered(existing, now)
    ensures forall f :: f in out ==>
              && f.fingerprint != ""
              && exists e :: e in existing
                   && f == Finding(ExtractFingerprint(e.body), Comment(e.path, e.line, e.line, ""), Keep, Some(now), Some(now))
  {
    hide ExtractFingerprint;
    out := [];
    for i := 0 to |existing|
      invariant out == Recovered(existing[..i], now)
      invariant forall f :: f in out ==>
                  && f.fingerprint != ""
                  && exists e :: e in existing
                       && f == Finding(ExtractFingerprint(e.body), Comment(e.path, e.line, e.line, ""), Keep, Some(now), Some(now))
    {
      var e := existing[i];
      assert existing[..i + 1][..i] == existing[..i];
      var fp := ExtractFingerprint(e.body);
      if fp == "" {
        continue;
      }
      out := out + [Finding(fp, Comment(e.path, e.line, e.line, ""), Keep, Some(now), Some(now))];
    }
    assert existing[..|existing|] == existing;
  }

  /** The comment is the finding, posted on its file behind a text without a marker of its own. */
  ghost predicate IsPost(f: Finding, e: Posted) {
    && IsFingerprint(f.fingerprint) && e.path == f.comment.path
    && exists text :: Lacks(text, PREFIX) && e.body == text + Marker(f.fingerprint)
  }

  /** The comments are the posts of the findings, in order, and among them any others without a marker. */
  ghost predicate PostedAmong(previous: seq<Finding>, existing: seq<Posted>)
    decreases |existing|
  {
    if existing == [] then previous == []
    else
      var n, m := |existing| - 1, |previous| - 1;
      || (Lacks(existing[n].body, PREFIX) && PostedAmong(previous, existing[..n]))
      || (previous != [] && IsPost(previous[m], existing[n]) && PostedAmong(previous[..m], existing[..n]))
  }

  /** What the next run looks at: fingerprints and paths, in order. */
  ghost predicate LooksLike(a: seq<Finding>, b: seq<Finding>) {
    |a| == |b| && forall i :: 0 <= i < |a| ==> SameSite(a[i], b[i])
  }

  ghost predicate SameSite(a: Finding, b: Finding) {
    a.fingerprint == b.fingerprint && a.comment.path == b.comment.path
  }

  lemma PostIsRecovered(f: Finding, e: Posted)
    requires IsPost(f, e)
    ensures ExtractFingerprint(e.body) == f.fingerprint != ""
  {
    hide ExtractFingerprint, Marker, Lacks, IsFingerprint;
    var text :| Lacks(text, PREFIX) && e.body == text + Marker(f.fingerprint);
    MarkerReadsBack(text, f.fingerprint);
    FingerprintIsNotEmpty(f.fingerprint);
  }

  lemma NoMarkerNoFingerprint(body: string)
    requires Lacks(body, PREFIX)
    ensures ExtractFingerprint(body) == ""
  {
    hide Index;
    assert Index(body, PREFIX, 0).None?;
  }

  lemma {:induction false} RecoveryLooksLike(previous: seq<Finding>, existing: seq<Posted>, now: Time)
    requires PostedAmong(previous, existing)
    ensures LooksLike(Recovered(existing, now), previous)
    decreases |existing|
  {
    hide ExtractFingerprint, IsPost, Lacks;
    if existing != [] {
      var n, m := |existing| - 1, |previous| - 1;
      if Lacks(existing[n].body, PREFIX) && PostedAmong(previous, existing[..n]) {
        RecoveryLooksLike(previous, existing[..n], now);
        NoMarkerNoFingerprint(existing[n].body);
        assert Recovered(existing, now) == Recovered(existing[..n], now) + [];
      } else {
        RecoveryLooksLike(previous[..m], existing[..n], now);
        PostIsRecovered(previous[m], existing[n]);
        PostPath(previous[m], existing[n]);
      }
    }
  }

  lemma PostPath(f: Finding, e: Posted)
    requires IsPost(f, e)
    ensures e.path == f.comment.path
  {
  }

  lemma FingerprintIsNotEmpty(fp: string)
    requires IsFingerprint(fp)
    ensures fp != ""
  {
  }

  /** The fingerprint, file and state of each finding, in order. */
  ghost predicate SameStates(a: seq<Finding>, b: seq<Finding>) {
    |a| == |b| && forall i :: 0 <= i < |a| ==> SameSite(a[i], b[i]) && a[i].state == b[i].state
  }

  lemma {:induction false} SameLookup(a: seq<Finding>, b: seq<Finding>, fp: string)
    requires LooksLike(a, b)
    ensures Lookup(a, fp).Some? <==> Lookup(b, fp).Some?
    decreases |a|
  {
    if a != [] {
      var n := |a| - 1;
      assert SameSite(a[n], b[n]);
      SameLookup(a[..n], b[..n], fp);
    }
  }

  lemma {:induction false} SameCarried(a: seq<Finding>, b: seq<Finding>, found: seq<Finding>, changed: set<Path>, now: Time)
    requires LooksLike(a, b)
    ensures SameStates(CarriedOn(a, found, changed, now), CarriedOn(b, found, changed, now))
    decreases |a|
  {
    hide Lookup;
    if a != [] {
      var n := |a| - 1;
      assert SameSite(a[n], b[n]);
      SameCarried(a[..n], b[..n], found, changed, now);
    }
  }

  lemma {:induction false} SameWithin(a: seq<Finding>, b: seq<Finding>, prints: set<string>)
    requires LooksLike(a, b)
    ensures Within(a, prints) == Within(b, prints)
    decreases |a|
  {
    if a != [] {
      var n := |a| - 1;
      assert SameSite(a[n], b[n]);
      SameWithin(a[..n], b[..n], prints);
    }
  }

  lemma SameSeen(a: seq<Finding>, b: seq<Finding>, found: seq<Finding>, now: Time)
    requires LooksLike(a, b)
    ensures SameStates(SeenAll(a, found, now), SeenAll(b, found, now))
  {
    hide Lookup, LooksLike;
    forall i | 0 <= i < |found| ensures Seen(a, found[i], now).state == Seen(b, found[i], now).state {
      SameLookup(a, b, found[i].fingerprint);
    }
  }

  /** Rebuilt from the markers among a pull request's comments, the earlier findings lead the next run to
      the same fingerprints, files and states as the stored ones would have. */
  lemma RecoveryAgrees(previous: seq<Finding>, existing: seq<Posted>, then_: Time,
                       found: seq<Finding>, changed: set<Path>, now: Time)
    requires PostedAmong(previous, existing)
    ensures SameStates(Reconciled(Recovered(existing, then_), found, changed, now), Reconciled(previous, found, changed, now))
    ensures LooksLike(Recovered(existing, then_), previous)
  {
    hide PostedAmong, LooksLike, Recovered;
    RecoveryLooksLike(previous, existing, then_);
    SameSeen(Recovered(existing, then_), previous, found, now);
    SameCarried(Recovered(existing, then_), previous, found, changed, now);
  }

  /** runCarryover: with the stored findings gone, the comments they were posted as lead to the same result
      but for the times and texts of what is carried. */
  method RunCarryover(stored: seq<Finding>, existing: seq<Posted>, found: seq<Finding>, changedPaths: seq<Path>, now: Time)
    returns (out: seq<Finding>, counts: Counts)
    ensures stored != [] ==> out == Reconciled(stored, found, SetOf(changedPaths), now)
    ensures stored == [] ==> forall lost :: PostedAmong(lost, existing) ==>
              SameStates(out, Reconciled(lost, found, SetOf(changedPaths), now))
    ensures stored != [] ==> counts.resolved == |stored| - Within(stored, Prints(out))
    ensures stored == [] ==> forall lost :: PostedAmong(lost, existing) ==>
              counts.resolved == |lost| - Within(lost, Prints(out))
    ensures counts.kept == InState(out, Keep) && counts.carried == InState(out, Carried) && counts.isNew == InState(out, New)
  {
    hide PostedAmong, Recovered, Reconciled, SameStates, InState, Within, Prints;
    var previous := stored;
    if |previous| == 0 {
      previous := FindingsFromPRComments(existing, now);
    }
    out := Reconcile(previous, found, changedPaths, now);
    counts := Summarize(previous, out);
    if stored == [] {
      forall lost | PostedAmong(lost, existing)
        ensures SameStates(out, Reconciled(lost, found, SetOf(changedPaths), now))
        ensures counts.resolved == |lost| - Within(lost, Prints(out))
      {
        RecoveryAgrees(lost, existing, now, found, SetOf(changedPaths), now);
        SameWithin(previous, lost, Prints(out));
      }
    }
  }
}
