/** What the use-trees of RustUseTrees mean, and exactly when the flattener gets it right. */
module RustUsePaths {
  import opened RustUse
  import opened RustUseTrees
  import opened Strings

  // ---------------------------------------------------------------- meaning

  /** The names of a path, without its white space. */
  function Names(p: seq<string>): (r: seq<string>)
    ensures |r| == |p|
  {
    if p == [] then [] else Names(p[..|p| - 1]) + [TrimSpace(p[|p| - 1])]
  }

  /** The paths the tree imports or, for a star, the path it imports from. */
  function Paths(prefix: seq<string>, u: Use, grouped: bool): seq<string>
    decreases u
  {
    match u
    case Name(p) => [PathText(prefix + Names(p))]
    case Alias(p, _, _, _) => [PathText(if grouped && p == ["self"] then prefix else prefix + Names(p))]
    case Glob(p) => [PathText(prefix + Names(p))]
    case SelfUse => [PathText(prefix)]
    case Group(p, _, members) => PathsAll(prefix + Names(p), members)
  }

  function PathsAll(prefix: seq<string>, us: Uses): seq<string>
    decreases us
  {
    match us
    case End(_) => []
    case Last(_, u, _) => Paths(prefix, u, true)
    case More(_, u, _, rest) => Paths(prefix, u, true) + PathsAll(prefix, rest)
  }

  predicate IsTight(p: seq<string>) {
    forall w :: w in p ==> IsWord(w)
  }

  /** What a tree has to be for the flattener: no white space in its paths, each alias between blanks and
      none of them of `self`, and no comma without a member behind it and no empty group below a path. */
  predicate IsSimple(u: Use, grouped: bool, rooted: bool)
    decreases u
  {
    match u
    case Name(p) => IsTight(p)
    case Alias(p, before, after, _) => IsTight(p) && Blank(before, after) && !(grouped && p == ["self"])
    case Glob(p) => IsTight(p)
    case SelfUse => true
    case Group(p, _, members) => IsTight(p) && AreSimple(members, rooted || p != [])
  }

  predicate AreSimple(us: Uses, rooted: bool)
    decreases us
  {
    match us
    case End(_) => !rooted
    case Last(_, u, _) => IsSimple(u, true, rooted)
    case More(_, u, _, rest) => IsSimple(u, true, rooted) && AreSimple(rest, rooted)
  }

  // ---------------------------------------------------------------- white space

  ghost predicate HasSpace(s: string) {
    exists c :: c in s && IsSpace(c)
  }

  lemma TightSegment(w: string)
    requires IsSegment(w)
    ensures IsWord(w) <==> !HasSpace(w)
    ensures IsWord(w) ==> TrimSpace(w) == w
    ensures IsSegment(TrimSpace(w)) && IsWord(TrimSpace(w)) && !Starts(TrimSpace(w))
  {
    SegmentChars(w);
    var t := TrimSpace(w);
    assert t[0] in t && t[|t| - 1] in t;
    hide TrimSpace, IsSpace;
    TrimSolid(t);
    if IsWord(w) {
      assert w[0] in w && w[|w| - 1] in w;
      TrimSolid(w);
    }
  }

  lemma {:induction false} NamesAreTight(p: seq<string>)
    requires IsPath(p)
    ensures IsPath(Names(p)) && IsTight(Names(p)) && (IsTight(p) ==> Names(p) == p)
    decreases |p|
  {
    hide IsSegment, IsWord;
    if p != [] {
      var n := |p| - 1;
      assert IsPath(p[..n]);
      NamesAreTight(p[..n]);
      TightSegment(p[n]);
      assert p == p[..n] + [p[n]];
      PathGrows(Names(p[..n]), TrimSpace(p[n]));
    }
  }

  lemma PathGrows(p: seq<string>, w: string)
    requires IsPath(p) && IsSegment(w) && !Starts(w)
    ensures IsPath(p + [w])
  {
    hide IsSegment;
    assert forall x :: x in p + [w] ==> x in p || x == w;
  }

  /** White space of a segment shows in the text. */
  lemma {:induction false} SpaceShows(p: seq<string>)
    requires IsPath(p)
    ensures HasSpace(PathText(p)) <==> !IsTight(p)
    decreases |p|
  {
    hide IsSegment, IsWord, HasSpace;
    if p == [] {
      NoSpace();
    } else {
      var n := |p| - 1;
      assert IsPath(p[..n]);
      SpaceShows(p[..n]);
      TightSegment(p[n]);
      JoinShows(PathText(p[..n]), p[n]);
      assert p == p[..n] + [p[n]];
      assert forall w :: w in p <==> w in p[..n] || w == p[n];
    }
  }

  lemma NoSpace()
    ensures !HasSpace("")
  {
  }

  lemma JoinShows(a: string, b: string)
    ensures HasSpace(Join(a, b)) <==> HasSpace(a) || HasSpace(b)
  {
    assert !IsSpace(':');
    hide IsSpace;
    var t := Join(a, b);
    assert forall c :: c in t <==> c in a || c in b || (a != "" && c == ':');
  }

  lemma ConcatShows(a: string, b: string)
    ensures HasSpace(a + b) <==> HasSpace(a) || HasSpace(b)
  {
    hide IsSpace;
    assert forall c :: c in a + b <==> c in a || c in b;
  }

  ghost predicate AllShow(texts: seq<string>) {
    forall t :: t in texts ==> HasSpace(t)
  }

  ghost predicate NoneShows(texts: seq<string>) {
    forall t :: t in texts ==> !HasSpace(t)
  }

  lemma TightConcat(a: seq<string>, b: seq<string>)
    ensures IsTight(a + b) <==> IsTight(a) && IsTight(b)
  {
    hide IsWord;
    assert forall w :: w in a + b <==> w in a || w in b;
  }

  lemma PathShows(a: seq<string>, b: seq<string>)
    requires IsPath(a) && IsPath(b)
    ensures IsPath(a + b) && (HasSpace(PathText(a + b)) <==> !(IsTight(a) && IsTight(b)))
  {
    hide IsSegment, IsWord, HasSpace, PathText;
    PathsJoin(a, b);
    SpaceShows(a + b);
    TightConcat(a, b);
  }

  /** No white space in what a tree means. */
  lemma {:induction false} PathsShowNothing(prefix: seq<string>, u: Use, grouped: bool, rooted: bool)
    requires IsPath(prefix) && IsTight(prefix) && IsUse(u, grouped, rooted)
    ensures NoneShows(Paths(prefix, u, grouped))
    decreases u
  {
    hide HasSpace, PathText, IsSegment, IsWord, IsGap;
    SpaceShows(prefix);
    if !u.SelfUse? {
      NamesAreTight(u.path);
      PathShows(prefix, Names(u.path));
      TightConcat(prefix, Names(u.path));
      if u.Group? {
        AllPathsShowNothing(prefix + Names(u.path), u.members, rooted || u.path != []);
      }
    }
  }

  lemma {:induction false} AllPathsShowNothing(prefix: seq<string>, us: Uses, rooted: bool)
    requires IsPath(prefix) && IsTight(prefix) && AreUses(us, rooted)
    ensures NoneShows(PathsAll(prefix, us))
    decreases us
  {
    hide HasSpace, PathText, IsSegment, IsWord, IsPad;
    if !us.End? {
      PathsShowNothing(prefix, us.use, true, rooted);
      if us.More? {
        AllPathsShowNothing(prefix, us.rest, rooted);
      }
    }
  }

  /** White space in a prefix shows in everything below it. */
  lemma {:induction false} YieldShows(prefix: seq<string>, u: Use, grouped: bool)
    requires IsPath(prefix) && !IsTight(prefix) && IsUse(u, grouped, true)
    ensures Yield(prefix, u) != [] && AllShow(Yield(prefix, u))
    decreases u
  {
    hide HasSpace, PathText, IsSegment, IsWord, IsGap, AliasText;
    SpaceShows(prefix);
    if !u.SelfUse? {
      PathShows(prefix, u.path);
      TightConcat(prefix, u.path);
      if u.Group? {
        YieldAllShows(prefix + u.path, u.members);
      } else if u.Alias? {
        var t := PathText(prefix + u.path);
        ConcatShows(t, AliasText(u.before, u.after, u.alias));
        assert t + "" == t;
      }
    }
  }

  lemma {:induction false} YieldAllShows(prefix: seq<string>, us: Uses)
    requires IsPath(prefix) && !IsTight(prefix) && AreUses(us, true)
    ensures YieldAll(prefix, us) != [] && AllShow(YieldAll(prefix, us))
    decreases us
  {
    hide HasSpace, PathText, IsSegment, IsWord, IsPad;
    if us.End? {
      SpaceShows(prefix);
      ConcatShows(PathText(prefix), SCOPE);
    } else {
      YieldShows(prefix, us.use, true);
      if us.More? {
        YieldAllShows(prefix, us.rest);
      }
    }
  }

  lemma ShowsApart(a: seq<string>, b: seq<string>)
    requires a != [] && AllShow(a) && NoneShows(b)
    ensures a != b
  {
    hide HasSpace;
    assert a[0] in a;
  }

  // ---------------------------------------------------------------- exactly when

  /** The flattener loses no path. */
  lemma {:induction false} YieldsEnough(a: seq<string>, b: seq<string>, u: Use, grouped: bool)
    ensures |Yield(a, u)| >= |Paths(b, u, grouped)|
    decreases u
  {
    hide PathText, Names, AliasText;
    if u.Group? {
      AllYieldEnough(a + u.path, b + Names(u.path), u.members);
    }
  }

  lemma {:induction false} AllYieldEnough(a: seq<string>, b: seq<string>, us: Uses)
    ensures |YieldAll(a, us)| >= |PathsAll(b, us)|
    decreases us
  {
    hide PathText;
    if !us.End? {
      YieldsEnough(a, b, us.use, true);
      if us.More? {
        AllYieldEnough(a, b, us.rest);
      }
    }
  }

  lemma SplitEqual<T>(a: seq<T>, b: seq<T>, c: seq<T>, d: seq<T>)
    requires |a| >= |c| && |b| >= |d|
    ensures a + b == c + d <==> a == c && b == d
  {
    if a + b == c + d {
      assert |a + b| == |c + d|;
      assert (a + b)[..|a|] == a && (c + d)[..|c|] == c;
      assert (a + b)[|a|..] == b && (c + d)[|c|..] == d;
    }
  }

  lemma AliasIsRightIff(prefix: seq<string>, u: Use, grouped: bool)
    requires IsPath(prefix) && IsTight(prefix) && u.Alias? && IsUse(u, grouped, prefix != [])
    ensures Yield(prefix, u) == Paths(prefix, u, grouped) <==> IsSimple(u, grouped, prefix != [])
  {
    hide HasSpace, PathText, IsSegment, IsWord, TrimSpace;
    var p, t := u.path, PathText(prefix + u.path);
    NamesAreTight(p);
    PathShows(prefix, p);
    PathShows(prefix, Names(p));
    SpaceShows(prefix);
    assert t + "" == t;
    if !Blank(u.before, u.after) {
      AliasShows(u.before, u.after, u.alias);
      ConcatShows(t, AliasText(u.before, u.after, u.alias));
    } else if grouped && p == ["self"] {
      SelfIsLonger(prefix);
    }
  }

  lemma AliasShows(before: string, after: string, a: string)
    requires IsGap(before)
    ensures HasSpace(AliasText(before, after, a))
  {
    hide IsSpace;
    assert before[0] in before && AliasText(before, after, a)[0] == before[0];
  }

  lemma SelfIsLonger(prefix: seq<string>)
    ensures PathText(prefix + ["self"]) != PathText(prefix)
  {
    assert (prefix + ["self"])[..|prefix|] == prefix;
    assert |PathText(prefix + ["self"])| > |PathText(prefix)|;
  }

  lemma {:induction false} YieldIsRightIff(prefix: seq<string>, u: Use, grouped: bool)
    requires IsPath(prefix) && IsTight(prefix) && IsUse(u, grouped, prefix != [])
    ensures Yield(prefix, u) == Paths(prefix, u, grouped) <==> IsSimple(u, grouped, prefix != [])
    decreases u
  {
    hide HasSpace, PathText, IsSegment, IsWord, IsGap, AliasText, TrimSpace;
    if u.Alias? {
      AliasIsRightIff(prefix, u, grouped);
    } else if u.Group? {
      GroupIsRightIff(prefix, u);
    } else if !u.SelfUse? {
      NamesAreTight(u.path);
      PathShows(prefix, u.path);
      PathShows(prefix, Names(u.path));
    }
  }

  lemma {:induction false} GroupIsRightIff(prefix: seq<string>, u: Use)
    requires IsPath(prefix) && IsTight(prefix) && u.Group? && IsPath(u.path)
    requires AreUses(u.members, prefix != [] || u.path != [])
    ensures YieldAll(prefix + u.path, u.members) == PathsAll(prefix + Names(u.path), u.members)
            <==> IsTight(u.path) && AreSimple(u.members, prefix != [] || u.path != [])
    decreases u.members, 1
  {
    hide HasSpace, PathText, IsSegment, IsWord, IsPad, TrimSpace, Names;
    var q, names := prefix + u.path, prefix + Names(u.path);
    NamesAreTight(u.path);
    PathsJoin(prefix, u.path);
    TightConcat(prefix, u.path);
    if IsTight(u.path) {
      AllYieldRightIff(q, u.members);
    } else {
      PathsJoin(prefix, Names(u.path));
      TightConcat(prefix, Names(u.path));
      YieldAllShows(q, u.members);
      AllPathsShowNothing(names, u.members, true);
      ShowsApart(YieldAll(q, u.members), PathsAll(names, u.members));
    }
  }

  lemma {:induction false} AllYieldRightIff(prefix: seq<string>, us: Uses)
    requires IsPath(prefix) && IsTight(prefix) && AreUses(us, prefix != [])
    ensures YieldAll(prefix, us) == PathsAll(prefix, us) <==> AreSimple(us, prefix != [])
    decreases us, 0
  {
    hide HasSpace, PathText, IsSegment, IsWord, IsPad;
    if !us.End? {
      YieldIsRightIff(prefix, us.use, true);
      if us.More? {
        AllYieldRightIff(prefix, us.rest);
        YieldsEnough(prefix, prefix, us.use, true);
        AllYieldEnough(prefix, prefix, us.rest);
        SplitEqual(Yield(prefix, us.use), YieldAll(prefix, us.rest), Paths(prefix, us.use, true), PathsAll(prefix, us.rest));
      }
    }
  }

  /** expandRustUse undoes the printer: for a legal use-tree it returns exactly the paths the tree imports,
      in order, if and only if the tree is simple. */
  lemma ExpandUndoesPrintIff(u: Use)
    requires IsUse(u, false, false)
    ensures Expand(Print(u)) == Paths([], u, false) <==> IsSimple(u, false, false)
  {
    hide *;
    ExpandYields(u);
    NothingIsTight();
    YieldIsRightIff([], u, false);
  }

  lemma NothingIsTight()
    ensures IsPath([]) && IsTight([])
  {
  }

  // ---------------------------------------------------------------- the forms, letter by letter

  predicate IsName(w: string) {
    IsWord(w) && w != "as" && w != "self"
  }

  lemma NameIsPath(w: string)
    requires IsName(w)
    ensures IsPath([w]) && IsWholePath([w]) && [w] != ["self"] && w != "" && PathText([w]) == w
  {
    assert w[0] in w && w[|w| - 1] in w;
    TrimSolid(w);
    OneWord(w);
    hide TrimSpace, PathText;
    assert [w][0] == w && IsSegment(w);
  }

  /** A name is its path, and the star and the new name behind "as" are cut off. */
  lemma LeavesExpand(w: string, v: string)
    requires IsName(w) && IsWord(v)
    ensures Expand(w) == [w] && Expand(w + "::*") == [w] && Expand(w + " as " + v) == [w]
  {
    NameIsPath(w);
    SpacesAreGaps();
    assert [] + [w] == [w];
    hide PathText, IsPath, Expand, IsGap;
    ExpandYields(Name([w]));
    ExpandYields(Glob([w]));
    ExpandYields(Alias([w], " ", " ", v));
    assert w + (" " + "as" + " " + v) == w + " as " + v && w + "" == w;
  }

  lemma SpacesAreGaps()
    ensures IsGap(" ") && Blank(" ", " ") && IsPad(" ") && IsPad("")
  {
  }

  /** A group of `self` and one other member. */
  function WithSelf(w: string, v: string): Use {
    Group([w], "", More("", SelfUse, "", Last(" ", Name([v]), "")))
  }

  lemma WithSelfIsUse(w: string, v: string)
    requires IsPath([w]) && IsWholePath([v]) && [v] != ["self"]
    ensures IsUse(WithSelf(w, v), false, false)
  {
    SpacesAreGaps();
    hide IsPath, IsWholePath, IsPad;
    assert IsUse(Name([v]), true, true);
    assert AreUses(Last(" ", Name([v]), ""), true);
    assert AreUses(More("", SelfUse, "", Last(" ", Name([v]), "")), true) && [w] != [];
  }

  lemma WithSelfPrints(w: string, v: string)
    requires PathText([w]) == w && PathText([v]) == v
    ensures Print(WithSelf(w, v)) == w + "::{self, " + v + "}"
  {
    hide PathText;
    var last := Last(" ", Name([v]), "");
    var all := More("", SelfUse, "", last);
    assert Print(Name([v])) == v && Padded(last) == " " + v && PrintAll(last) == " " + v;
    assert Print(SelfUse) == "self" && Padded(all) == "self" && PrintAll(all) == "self" + "," + (" " + v);
    assert Print(WithSelf(w, v)) == Braced(Lead([w], ""), PrintAll(all));
    hide Print, PrintAll, Padded;
    assert Lead([w], "") == w + "::";
    assert "self" + "," + (" " + v) == "self, " + v;
    assert w + "::" + "{" + ("self, " + v) + "}" == w + "::{self, " + v + "}";
  }

  lemma WithSelfYields(w: string, v: string)
    requires PathText([w]) == w && PathText([w] + [v]) == w + SCOPE + v
    ensures Yield([], WithSelf(w, v)) == [w, w + "::" + v]
  {
    hide PathText;
    assert [] + [w] == [w];
    var last := Last(" ", Name([v]), "");
    var all := More("", SelfUse, "", last);
    assert Yield([w], Name([v])) == [w + SCOPE + v] && YieldAll([w], last) == [w + SCOPE + v];
    assert Yield([w], SelfUse) == [w] && YieldAll([w], all) == [w] + [w + SCOPE + v];
    assert Yield([], WithSelf(w, v)) == YieldAll([] + [w], all);
  }

  /** In a group `self` is the path of the group, and every other member is joined to it. */
  lemma GroupExpandsSelf(w: string, v: string)
    requires IsName(w) && IsName(v)
    ensures Expand(w + "::{self, " + v + "}") == [w, w + "::" + v]
  {
    hide *;
    NameIsPath(w);
    NameIsPath(v);
    TwoWords(w, v);
    WithSelfIsUse(w, v);
    WithSelfPrints(w, v);
    WithSelfYields(w, v);
    ExpandYields(WithSelf(w, v));
  }

  /** Without a path in front of the braces there is nothing `self` could stand for. */
  lemma BareSelfIsNothing(before: string, after: string)
    requires IsPad(before) && IsPad(after)
    ensures Expand("{" + before + "self" + after + "}") == []
  {
    var inner := before + "self" + after;
    assert "" + "{" + inner + "}" == "{" + before + "self" + after + "}";
    assert forall c :: c in "self" ==> !IsSpace(c) && c != '{' && c != '}' && c != ',';
    TrimPadded(before, "self", after);
    PadIsTrimmed("");
    BetweenPads(before, "self", after, 0, false);
    BetweenPads(before, "self", after, 0, true);
    hide Expand, TrimSpace, Opens, IsPad, Reads, Parts;
    ExpandGroup("", inner);
    PartGrows([], "", inner, "", 0);
    PartsAtEnd([], inner);
    PartsAtStart(inner);
    assert inner + "" == inner && "" + inner == inner;
    OnePart("", inner, Opens(inner));
  }

  // ---------------------------------------------------------------- braces that are never closed

  /** How many more braces open than close. */
  function Balance(s: string): int {
    if s == "" then 0 else (if s[0] == '{' then 1 else if s[0] == '}' then -1 else 0) + Balance(s[1..])
  }

  lemma {:induction false} NeverCloses(s: string, i: nat, depth: int)
    requires i <= |s| && forall j :: i <= j <= |s| ==> Balance(s[i..j]) + depth > 0
    ensures MatchClose(s, i, depth).None?
    decreases |s| - i
  {
    if i < |s| {
      var k := i + 1;
      forall j | k <= j <= |s| ensures Balance(s[k..j]) + Deeper(s[i], depth) > 0 {
        assert Balance(s[i..j]) + depth > 0;
        assert s[i..j][1..] == s[k..j];
      }
      assert s[k..k] == "" && Balance(s[k..k]) + Deeper(s[i], depth) > 0;
      hide Balance;
      NeverCloses(s, i + 1, Deeper(s[i], depth));
    }
  }

  /** When the first brace is never closed, what stands in front of it is taken for the path. */
  lemma UnclosedKeepsFront(front: string, rest: string)
    requires '{' !in front && forall j :: 0 <= j <= |rest| ==> Balance(rest[..j]) >= 0
    ensures Expand(front + "{" + rest) == [TrimSuffix(TrimSpace(front), "::")]
  {
    hide Balance, TrimSpace, TrimSuffix;
    var s := front + "{" + rest;
    var open := |front|;
    FirstOpenBehind(front, rest);
    assert s[open] == '{' && s[..open] == front;
    var i := open + 1;
    forall j | i <= j <= |s| ensures Balance(s[i..j]) + 1 > 0 {
      assert s[i..j] == rest[..j - i];
    }
    NeverCloses(s, i, 1);
  }

  // ---------------------------------------------------------------- what goes wrong otherwise

  lemma OneWord(w: string)
    ensures PathText([w]) == w
  {
    assert [w][..0] == [];
  }

  lemma TwoWords(v: string, w: string)
    requires v != ""
    ensures PathText([v] + [w]) == v + SCOPE + w
  {
    OneWord(v);
    assert ([v] + [w])[..1] == [v];
  }

  lemma ShortNames()
    ensures IsPath(["a"]) && IsPath(["b"]) && IsPath(["a "]) && IsWholePath(["b"]) && IsPad("")
  {
    assert !IsSpace('a') && !IsSpace('b');
    TrimSolid("a");
    TrimSolid("b");
    TrimPadded("", "a", " ");
    assert "" + "a" + " " == "a ";
    hide TrimSpace;
    assert IsSegment("a") && IsSegment("b") && IsSegment("a ");
  }

  /** A group below a one-word path, with the member "b" and what stands behind it. */
  function Short(w: string, more: bool): Use {
    Group([w], "", if more then More("", Name(["b"]), "", End("")) else Last("", Name(["b"]), ""))
  }

  lemma ShortIsUse(w: string, more: bool)
    requires IsPath([w])
    ensures IsUse(Short(w, more), false, false)
  {
    ShortNames();
    hide IsSegment, IsPath, IsWholePath, IsPad;
    assert ["b"] != ["self"] by { assert ["b"][0] != "self"; }
    assert IsUse(Name(["b"]), true, true);
  }

  lemma ShortPrints(w: string, more: bool)
    ensures Print(Short(w, more)) == w + SCOPE + "{b" + (if more then "," else "") + "}"
  {
    hide PathText;
    OneWord(w);
    OneWord("b");
    var u := Name(["b"]);
    assert Padded(Last("", u, "")) == "b" && Padded(More("", u, "", End(""))) == "b";
    assert PrintAll(End("")) == "";
    assert w + SCOPE + "" + "{" + "b" == w + SCOPE + "{b";
  }

  lemma ShortYields(w: string, more: bool)
    requires w != ""
    ensures Yield([], Short(w, more)) == [w + SCOPE + "b"] + if more then [w + SCOPE] else []
  {
    hide PathText;
    OneWord(w);
    TwoWords(w, "b");
    assert [] + [w] == [w];
  }

  /** A comma behind the last member adds a path that ends in "::". */
  lemma TrailingCommaAddsPath()
    ensures Expand("a::{b,}") == ["a::b", "a::"]
  {
    assert "a" + SCOPE + "{b" + "," + "}" == "a::{b,}";
    assert "a" + SCOPE + "b" == "a::b" && "a" + SCOPE == "a::";
    hide *;
    ShortNames();
    ShortIsUse("a", true);
    ExpandYields(Short("a", true));
    ShortPrints("a", true);
    ShortYields("a", true);
  }

  /** White space in front of "::" stays in the path. */
  lemma SpaceBeforeScopeStays()
    ensures Expand("a ::{b}") == ["a ::b"]
  {
    assert "a " + SCOPE + "{b" + "" + "}" == "a ::{b}";
    assert "a " + SCOPE + "b" == "a ::b";
    hide *;
    ShortNames();
    ShortIsUse("a ", false);
    ExpandYields(Short("a ", false));
    ShortPrints("a ", false);
    ShortYields("a ", false);
  }
}
