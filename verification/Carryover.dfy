/** Findings carried from one review run of a pull request to the next (internal/findings/carryover.go and
    cmd/sacr/carryover.go): a found finding is kept or new, an old one that is not found again is carried
    on while its file is untouched and counts as resolved otherwise. */
module Carryover {
  import opened Options
  import opened Sequences

  type Path = string
  type Time = int

  datatype Standing = Unset | Keep | Carried | New

  datatype Comment = Comment(path: Path, startLine: int, endLine: int, content: string)

  /** A time that was never set is `None`. */
  datatype Finding = Finding(
    fingerprint: string, comment: Comment, state: Standing, firstSeen: Option<Time>, lastSeen: Option<Time>)

  // ---------------------------------------------------------------- the state machine

  /** The last finding with the fingerprint. */
  function Lookup(fs: seq<Finding>, fp: string): (r: Option<Finding>)
    ensures r.Some? ==> r.value in fs && r.value.fingerprint == fp
    ensures r.None? ==> forall f :: f in fs ==> f.fingerprint != fp
  {
    if fs == [] then None
    else if fs[|fs| - 1].fingerprint == fp then Some(fs[|fs| - 1])
    else Lookup(fs[..|fs| - 1], fp)
  }

  function Seen(previous: seq<Finding>, f: Finding, now: Time): Finding {
    var p := Lookup(previous, f.fingerprint);
    if p.Some? then f.(state := Keep, firstSeen := p.value.firstSeen, lastSeen := Some(now))
    else f.(state := New, firstSeen := if f.firstSeen.None? then Some(now) else f.firstSeen, lastSeen := Some(now))
  }

  function SeenAll(previous: seq<Finding>, found: seq<Finding>, now: Time): seq<Finding> {
    seq(|found|, i requires 0 <= i < |found| => Seen(previous, found[i], now))
  }

  predicate Survives(p: Finding, found: seq<Finding>, changed: set<Path>) {
    Lookup(found, p.fingerprint).None? && p.comment.path !in changed
  }

  function CarriedOn(previous: seq<Finding>, found: seq<Finding>, changed: set<Path>, now: Time): seq<Finding> {
    if previous == [] then []
    else
      var n := |previous| - 1;
      CarriedOn(previous[..n], found, changed, now)
      + if Survives(previous[n], found, changed) then [previous[n].(state := Carried, lastSeen := Some(now))] else []
  }

  function Reconciled(previous: seq<Finding>, found: seq<Finding>, changed: set<Path>, now: Time): seq<Finding> {
    SeenAll(previous, found, now) + CarriedOn(previous, found, changed, now)
  }

  method ByFingerprint(fs: seq<Finding>) returns (m: map<string, Finding>)
    ensures forall fp :: (fp in m <==> Lookup(fs, fp).Some?) && (fp in m ==> m[fp] == Lookup(fs, fp).value)
  {
    m := map[];
    for i := 0 to |fs|
      invariant forall fp :: (fp in m <==> Lookup(fs[..i], fp).Some?) && (fp in m ==> m[fp] == Lookup(fs[..i], fp).value)
    {
      assert fs[..i + 1][..i] == fs[..i];
      m := m[fs[i].fingerprint := fs[i]];
    }
    assert fs[..|fs|] == fs;
  }

  lemma SeenStep(previous: seq<Finding>, found: seq<Finding>, now: Time, i: nat)
    requires i < |found|
    ensures SeenAll(previous, found[..i + 1], now) == SeenAll(previous, found[..i], now) + [Seen(previous, found[i], now)]
  {
  }

  lemma CarriedStep(previous: seq<Finding>, found: seq<Finding>, changed: set<Path>, now: Time, i: nat)
    requires i < |previous|
    ensures CarriedOn(previous[..i + 1], found, changed, now)
            == CarriedOn(previous[..i], found, changed, now)
               + if Survives(previous[i], found, changed) then [previous[i].(state := Carried, lastSeen := Some(now))] else []
  {
    assert previous[..i + 1][..i] == previous[..i];
  }

  lemma NothingCarried(found: seq<Finding>, changed: set<Path>, now: Time)
    ensures CarriedOn([], found, changed, now) == []
  {
  }

  method Reconcile(previous: seq<Finding>, found: seq<Finding>, changedPaths: seq<Path>, now: Time) returns (out: seq<Finding>)
    ensures out == Reconciled(previous, found, SetOf(changedPaths), now)
  {
    hide Lookup, CarriedOn;
    var changed := SetOf(changedPaths);
    var prevByFP := ByFingerprint(previous);
    var freshByFP := ByFingerprint(found);
    out := [];
    assert found[..0] == [] && SeenAll(previous, [], now) == [];
    hide SeenAll;
    for i := 0 to |found|
      invariant out == SeenAll(previous, found[..i], now)
    {
      SeenStep(previous, found, now, i);
      var f := found[i];
      if f.fingerprint in prevByFP {
        f := f.(state := Keep, firstSeen := prevByFP[f.fingerprint].firstSeen, lastSeen := Some(now));
        out := out + [f];
        continue;
      }
      if f.firstSeen.None? {
        f := f.(firstSeen := Some(now));
      }
      f := f.(lastSeen := Some(now), state := New);
      out := out + [f];
    }
    assert found[..|found|] == found;
    NothingCarried(found, changed, now);
    assert previous[..0] == [];
    for i := 0 to |previous|
      invariant out == SeenAll(previous, found, now) + CarriedOn(previous[..i], found, changed, now)
    {
      CarriedStep(previous, found, changed, now, i);
      var p := previous[i];
      if p.fingerprint in freshByFP {
        continue;
      }
      if p.comment.path in changed {
        continue;
      }
      p := p.(state := Carried, lastSeen := Some(now));
      out := out + [p];
    }
    assert previous[..|previous|] == previous;
  }

  ghost predicate LastWith(fs: seq<Finding>, fp: string, i: int) {
    0 <= i < |fs| && fs[i].fingerprint == fp && forall j :: i < j < |fs| ==> fs[j].fingerprint != fp
  }

  lemma {:induction false} LookupIsLast(fs: seq<Finding>, fp: string, i: nat)
    requires LastWith(fs, fp, i)
    ensures Lookup(fs, fp) == Some(fs[i])
    decreases |fs|
  {
    var n := |fs| - 1;
    if i < n {
      LookupIsLast(fs[..n], fp, i);
    }
  }

  /** The surviving earlier findings, all of them and in their order. */
  lemma {:induction false} CarriedInOrder(previous: seq<Finding>, found: seq<Finding>, changed: set<Path>, now: Time)
    returns (at: seq<nat>)
    ensures var out := CarriedOn(previous, found, changed, now);
            && |at| == |out|
            && (forall k :: 0 <= k < |at| ==> at[k] < |previous| && out[k] == previous[at[k]].(state := Carried, lastSeen := Some(now)))
            && (forall j, k :: 0 <= j < k < |at| ==> at[j] < at[k])
            && (forall i :: 0 <= i < |previous| ==> (i in at <==> Survives(previous[i], found, changed)))
    decreases |previous|
  {
    hide Survives;
    at := [];
    if previous != [] {
      var n := |previous| - 1;
      var before := CarriedInOrder(previous[..n], found, changed, now);
      at := before + if Survives(previous[n], found, changed) then [n] else [];
      CarriedStep(previous, found, changed, now, n);
      assert previous[..n + 1] == previous;
      hide CarriedOn;
      forall i | 0 <= i < |previous| ensures i in at <==> Survives(previous[i], found, changed) {
        assert i < n ==> (i in before <==> Survives(previous[..n][i], found, changed));
        assert n !in before;
      }
    }
  }

  /** The new report comes first, as it was found, each finding seen now: one that was known is kept with the
      time it was first seen, and another is new. Behind it come the earlier findings that were not found again
      in files that were not touched, unchanged but for their state and time. */
  lemma ReconciledMeans(previous: seq<Finding>, found: seq<Finding>, changed: set<Path>, now: Time) returns (at: seq<nat>)
    ensures var out := Reconciled(previous, found, changed, now);
            && |out| == |found| + |at|
            && (forall i :: 0 <= i < |found| ==>
                  && out[i].fingerprint == found[i].fingerprint && out[i].comment == found[i].comment
                  && out[i].lastSeen == Some(now)
                  && (forall j :: LastWith(previous, found[i].fingerprint, j) ==>
                        out[i].state == Keep && out[i].firstSeen == previous[j].firstSeen)
                  && ((forall p :: p in previous ==> p.fingerprint != found[i].fingerprint) ==>
                        && out[i].state == New
                        && out[i].firstSeen == if found[i].firstSeen.None? then Some(now) else found[i].firstSeen))
            && (forall k :: 0 <= k < |at| ==>
                  && at[k] < |previous|
                  && out[|found| + k] == previous[at[k]].(state := Carried, lastSeen := Some(now)))
            && (forall j, k :: 0 <= j < k < |at| ==> at[j] < at[k])
            && (forall i :: 0 <= i < |previous| ==>
                  (i in at <==> previous[i].comment.path !in changed
                                && forall f :: f in found ==> f.fingerprint != previous[i].fingerprint))
  {
    at := CarriedInOrder(previous, found, changed, now);
    forall i | 0 <= i < |previous|
      ensures Survives(previous[i], found, changed) <==>
              previous[i].comment.path !in changed && forall f :: f in found ==> f.fingerprint != previous[i].fingerprint
    {
    }
    hide Survives, CarriedOn;
    forall i, j | 0 <= i < |found| && LastWith(previous, found[i].fingerprint, j)
      ensures Lookup(previous, found[i].fingerprint) == Some(previous[j])
    {
      LookupIsLast(previous, found[i].fingerprint, j);
    }
    hide Lookup;
  }

  // ---------------------------------------------------------------- counting

  datatype Counts = Counts(kept: nat, carried: nat, isNew: nat, resolved: nat)

  function InState(fs: seq<Finding>, s: Standing): nat {
    if fs == [] then 0 else InState(fs[..|fs| - 1], s) + if fs[|fs| - 1].state == s then 1 else 0
  }

  function Prints(fs: seq<Finding>): set<string> {
    set f | f in fs :: f.fingerprint
  }

  /** How many of the findings have a fingerprint in the set. */
  function Within(fs: seq<Finding>, prints: set<string>): nat {
    if fs == [] then 0 else Within(fs[..|fs| - 1], prints) + if fs[|fs| - 1].fingerprint in prints then 1 else 0
  }

  lemma InStateAppend(fs: seq<Finding>, f: Finding)
    ensures forall s :: InState(fs + [f], s) == InState(fs, s) + if f.state == s then 1 else 0
  {
    assert (fs + [f])[..|fs|] == fs;
  }

  lemma WithinAppend(fs: seq<Finding>, f: Finding, prints: set<string>)
    ensures Within(fs + [f], prints) == Within(fs, prints) + if f.fingerprint in prints then 1 else 0
  {
    assert (fs + [f])[..|fs|] == fs;
  }

  lemma NoCounts()
    ensures Prints([]) == {} && (forall s :: InState([], s) == 0) && forall prints :: Within([], prints) == 0
  {
  }

  method Summarize(previous: seq<Finding>, reconciled: seq<Finding>) returns (c: Counts)
    ensures c.kept == InState(reconciled, Keep) && c.carried == InState(reconciled, Carried) && c.isNew == InState(reconciled, New)
    ensures c.resolved == |previous| - Within(previous, Prints(reconciled))
  {
    c := Counts(0, 0, 0, 0);
    var seen: set<string> := {};
    assert reconciled[..0] == [] && previous[..0] == [];
    NoCounts();
    hide InState, Prints, Within;
    for i := 0 to |reconciled|
      invariant seen == Prints(reconciled[..i]) && c.resolved == 0
      invariant c.kept == InState(reconciled[..i], Keep) && c.carried == InState(reconciled[..i], Carried)
      invariant c.isNew == InState(reconciled[..i], New)
    {
      var f := reconciled[i];
      assert reconciled[..i + 1] == reconciled[..i] + [f];
      PrintsAppend(reconciled[..i], f);
      InStateAppend(reconciled[..i], f);
      seen := seen + {f.fingerprint};
      match f.state
      case Keep => c := c.(kept := c.kept + 1);
      case Carried => c := c.(carried := c.carried + 1);
      case New => c := c.(isNew := c.isNew + 1);
      case Unset =>
    }
    assert reconciled[..|reconciled|] == reconciled;
    for i := 0 to |previous|
      invariant c.resolved == i - Within(previous[..i], seen)
      invariant c.kept == InState(reconciled, Keep) && c.carried == InState(reconciled, Carried)
      invariant c.isNew == InState(reconciled, New)
    {
      assert previous[..i + 1] == previous[..i] + [previous[i]];
      WithinAppend(previous[..i], previous[i], seen);
      WithinIsShorter(previous[..i], seen);
      if previous[i].fingerprint !in seen {
        c := c.(resolved := c.resolved + 1);
      }
    }
    assert previous[..|previous|] == previous;
  }

  lemma {:induction false} WithinIsShorter(fs: seq<Finding>, prints: set<string>)
    ensures Within(fs, prints) <= |fs|
    decreases |fs|
  {
    if fs != [] {
      WithinIsShorter(fs[..|fs| - 1], prints);
    }
  }

  ghost predicate Distinct(fs: seq<Finding>) {
    forall i, j :: 0 <= i < j < |fs| ==> fs[i].fingerprint != fs[j].fingerprint
  }

  /** Findings with distinct fingerprints are counted by their fingerprints. */
  lemma {:induction false} WithinIsIntersection(fs: seq<Finding>, prints: set<string>)
    requires Distinct(fs)
    ensures Within(fs, prints) == |Prints(fs) * prints|
    decreases |fs|
  {
    if fs == [] {
      assert Prints(fs) * prints == {};
    } else {
      var n := |fs| - 1;
      WithinIsIntersection(fs[..n], prints);
      assert fs == fs[..n] + [fs[n]];
      assert fs[n].fingerprint !in Prints(fs[..n]);
      PrintsAppend(fs[..n], fs[n]);
      MeetOneMore(Prints(fs[..n]), fs[n].fingerprint, prints);
    }
  }

  lemma MeetOneMore(s: set<string>, x: string, t: set<string>)
    requires x !in s
    ensures |(s + {x}) * t| == |s * t| + if x in t then 1 else 0
  {
    if x in t {
      assert (s + {x}) * t == s * t + {x};
    } else {
      assert (s + {x}) * t == s * t;
    }
  }

  lemma PrintsAppend(fs: seq<Finding>, f: Finding)
    ensures Prints(fs + [f]) == Prints(fs) + {f.fingerprint}
  {
    assert forall x :: x in fs + [f] <==> x in fs || x == f;
  }

  lemma PrintsConcat(a: seq<Finding>, b: seq<Finding>)
    ensures Prints(a + b) == Prints(a) + Prints(b)
  {
    assert forall x :: x in a + b <==> x in a || x in b;
  }

  lemma {:induction false} InStateConcat(a: seq<Finding>, b: seq<Finding>, s: Standing)
    ensures InState(a + b, s) == InState(a, s) + InState(b, s)
    decreases |b|
  {
    if b == [] {
      assert a + b == a;
    } else {
      InStateConcat(a, b[..|b| - 1], s);
      assert (a + b)[..|a + b| - 1] == a + b[..|b| - 1];
    }
  }

  lemma CountAppend(fs: seq<Finding>, f: Finding)
    ensures forall s :: InState(fs + [f], s) == InState(fs, s) + if f.state == s then 1 else 0
    ensures forall p :: Within(fs + [f], p) == Within(fs, p) + if f.fingerprint in p then 1 else 0
  {
    assert (fs + [f])[..|fs|] == fs;
  }

  lemma LookupPrints(fs: seq<Finding>, fp: string)
    ensures Lookup(fs, fp).Some? <==> fp in Prints(fs)
  {
  }

  /** Fresh findings are kept when they were there before, and new otherwise. */
  lemma {:induction false} SeenCounts(previous: seq<Finding>, found: seq<Finding>, now: Time)
    ensures var s := SeenAll(previous, found, now);
            && Prints(s) == Prints(found) && InState(s, Carried) == 0
            && InState(s, Keep) == Within(found, Prints(previous))
            && InState(s, New) == |found| - Within(found, Prints(previous))
    decreases |found|
  {
    hide Lookup, InState, Within, Prints;
    var s := SeenAll(previous, found, now);
    if found == [] {
      NoCounts();
    } else {
      var n := |found| - 1;
      SeenCounts(previous, found[..n], now);
      assert s[..n] == SeenAll(previous, found[..n], now);
      PrintsAppend(s[..n], s[n]);
      PrintsAppend(found[..n], found[n]);
      CountAppend(s[..n], s[n]);
      CountAppend(found[..n], found[n]);
      assert s == s[..n] + [s[n]] && found == found[..n] + [found[n]];
      LookupPrints(previous, found[n].fingerprint);
    }
  }

  /** An old finding is matched, carried or resolved. */
  lemma {:induction false} CarriedCounts(previous: seq<Finding>, found: seq<Finding>, changed: set<Path>, now: Time)
    ensures var c := CarriedOn(previous, found, changed, now);
            && InState(c, Carried) == |c| && InState(c, Keep) == 0 && InState(c, New) == 0
            && Prints(c) !! Prints(found) && Prints(c) <= Prints(previous)
    decreases |previous|
  {
    hide Lookup, InState, Within, Prints;
    if previous == [] {
      NoCounts();
    } else {
      var n := |previous| - 1;
      var before := CarriedOn(previous[..n], found, changed, now);
      assert before + [] == before;
      CarriedCounts(previous[..n], found, changed, now);
      PrintsAppend(previous[..n], previous[n]);
      assert previous == previous[..n] + [previous[n]];
      if Survives(previous[n], found, changed) {
        var f := previous[n].(state := Carried, lastSeen := Some(now));
        PrintsAppend(before, f);
        CountAppend(before, f);
        LookupPrints(found, f.fingerprint);
      }
    }
  }

  lemma {:induction false} CarriedIsDistinct(previous: seq<Finding>, found: seq<Finding>, changed: set<Path>, now: Time)
    requires Distinct(previous)
    ensures Distinct(CarriedOn(previous, found, changed, now))
    decreases |previous|
  {
    hide Survives;
    if previous != [] {
      var n := |previous| - 1;
      CarriedIsDistinct(previous[..n], found, changed, now);
      CarriedCounts(previous[..n], found, changed, now);
      var before := CarriedOn(previous[..n], found, changed, now);
      forall i | 0 <= i < |before| ensures before[i].fingerprint != previous[n].fingerprint {
        assert before[i] in before && before[i].fingerprint in Prints(before);
      }
    }
  }

  lemma ReconciledIsDistinct(previous: seq<Finding>, found: seq<Finding>, changed: set<Path>, now: Time)
    requires Distinct(previous) && Distinct(found)
    ensures Distinct(Reconciled(previous, found, changed, now))
  {
    hide Lookup, CarriedOn;
    var s, c := SeenAll(previous, found, now), CarriedOn(previous, found, changed, now);
    CarriedIsDistinct(previous, found, changed, now);
    CarriedCounts(previous, found, changed, now);
    SeenCounts(previous, found, now);
    forall i, j | 0 <= i < |s| && 0 <= j < |c| ensures s[i].fingerprint != c[j].fingerprint {
      assert s[i] in s && s[i].fingerprint in Prints(s) && c[j] in c && c[j].fingerprint in Prints(c);
    }
  }

  /** Nothing is lost between two runs: the old findings are the kept, the carried and the resolved ones,
      the fresh findings are the kept and the new ones. */
  lemma FindingsAreConserved(previous: seq<Finding>, found: seq<Finding>, changed: set<Path>, now: Time)
    requires Distinct(previous) && Distinct(found)
    ensures var out := Reconciled(previous, found, changed, now);
            && InState(out, Keep) + InState(out, Carried) + (|previous| - Within(previous, Prints(out))) == |previous|
            && InState(out, Keep) + InState(out, New) == |found|
            && |out| == |found| + InState(out, Carried)
  {
    hide Lookup, CarriedOn, InState, Within, Prints;
    var s, c := SeenAll(previous, found, now), CarriedOn(previous, found, changed, now);
    SeenCounts(previous, found, now);
    CarriedCounts(previous, found, changed, now);
    InStateConcat(s, c, Keep);
    InStateConcat(s, c, Carried);
    InStateConcat(s, c, New);
    PrintsConcat(s, c);
    MatchedOrCarried(previous, found, changed, now);
  }

  lemma MatchedOrCarried(previous: seq<Finding>, found: seq<Finding>, changed: set<Path>, now: Time)
    requires Distinct(previous) && Distinct(found)
    ensures var c := CarriedOn(previous, found, changed, now);
            Within(previous, Prints(found) + Prints(c)) == Within(found, Prints(previous)) + |c|
  {
    hide Lookup, CarriedOn, Within, Prints;
    var c := CarriedOn(previous, found, changed, now);
    CarriedCounts(previous, found, changed, now);
    CarriedIsDistinct(previous, found, changed, now);
    WithinIsIntersection(previous, Prints(found) + Prints(c));
    WithinIsIntersection(found, Prints(previous));
    DistinctCount(c);
    assert Prints(previous) * (Prints(found) + Prints(c)) == Prints(found) * Prints(previous) + Prints(c);
    assert (Prints(found) * Prints(previous)) !! Prints(c);
  }

  lemma DistinctCount(fs: seq<Finding>)
    requires Distinct(fs)
    ensures |Prints(fs)| == |fs|
  {
    WithinIsIntersection(fs, Prints(fs));
    AllWithin(fs, Prints(fs));
    assert Prints(fs) * Prints(fs) == Prints(fs);
  }

  lemma {:induction false} AllWithin(fs: seq<Finding>, prints: set<string>)
    requires forall f :: f in fs ==> f.fingerprint in prints
    ensures Within(fs, prints) == |fs|
    decreases |fs|
  {
    if fs != [] {
      AllWithin(fs[..|fs| - 1], prints);
    }
  }

  // ---------------------------------------------------------------- runs

  /** One review run: what it found, stamped with no first-seen time, and the files the diff touches. */
  datatype Review = Review(found: seq<Finding>, changed: set<Path>, now: Time)

  ghost predicate IsReview(r: Review) {
    Distinct(r.found) && forall f :: f in r.found ==> f.firstSeen.None?
  }

  function After(reviews: seq<Review>): seq<Finding> {
    if reviews == [] then []
    else
      var r := reviews[|reviews| - 1];
      Reconciled(After(reviews[..|reviews| - 1]), r.found, r.changed, r.now)
  }

  /** One finding's history: absent, or present on a path since some time. */
  datatype Track = Absent | Present(path: Path, since: Time)

  function Next(t: Track, r: Review, fp: string): Track {
    var f := Lookup(r.found, fp);
    if f.Some? then Present(f.value.comment.path, if t.Present? then t.since else r.now)
    else if t.Present? && t.path !in r.changed then t
    else Absent
  }

  function TrackOf(reviews: seq<Review>, fp: string): Track {
    if reviews == [] then Absent else Next(TrackOf(reviews[..|reviews| - 1], fp), reviews[|reviews| - 1], fp)
  }

  ghost predicate Follows(f: Option<Finding>, t: Track) {
    if t.Absent? then f.None?
    else f.Some? && f.value.comment.path == t.path && f.value.firstSeen == Some(t.since)
  }

  lemma {:induction false} DistinctLookup(fs: seq<Finding>, f: Finding)
    requires Distinct(fs) && f in fs
    ensures Lookup(fs, f.fingerprint) == Some(f)
    decreases |fs|
  {
    var n := |fs| - 1;
    if fs[n] != f {
      assert f in fs[..n];
      DistinctLookup(fs[..n], f);
    }
  }

  lemma {:induction false} CarriedHolds(previous: seq<Finding>, found: seq<Finding>, changed: set<Path>, now: Time, p: Finding)
    requires p in previous && Survives(p, found, changed)
    ensures p.(state := Carried, lastSeen := Some(now)) in CarriedOn(previous, found, changed, now)
    decreases |previous|
  {
    hide Survives;
    var n := |previous| - 1;
    if previous[n] != p {
      assert p in previous[..n];
      CarriedHolds(previous[..n], found, changed, now, p);
    }
  }

  lemma {:induction false} CarriedComesFrom(previous: seq<Finding>, found: seq<Finding>, changed: set<Path>, now: Time, c: Finding)
    returns (p: Finding)
    requires c in CarriedOn(previous, found, changed, now)
    ensures p in previous && Survives(p, found, changed) && p.fingerprint == c.fingerprint
    decreases |previous|
  {
    hide Survives;
    var n := |previous| - 1;
    if c in CarriedOn(previous[..n], found, changed, now) {
      p := CarriedComesFrom(previous[..n], found, changed, now, c);
    } else {
      p := previous[n];
    }
  }

  /** One run moves every finding as its own automaton says. */
  lemma ReconciledFollows(previous: seq<Finding>, r: Review, fp: string, t: Track)
    requires Distinct(previous) && IsReview(r) && Follows(Lookup(previous, fp), t)
    ensures Follows(Lookup(Reconciled(previous, r.found, r.changed, r.now), fp), Next(t, r, fp))
  {
    hide Lookup, CarriedOn;
    var out := Reconciled(previous, r.found, r.changed, r.now);
    ReconciledIsDistinct(previous, r.found, r.changed, r.now);
    var f := Lookup(r.found, fp);
    if f.Some? {
      var k :| 0 <= k < |r.found| && r.found[k] == f.value;
      assert out[k] == Seen(previous, f.value, r.now) && out[k] in out;
      DistinctLookup(out, out[k]);
    } else if t.Present? && t.path !in r.changed {
      var p := Lookup(previous, fp).value;
      CarriedHolds(previous, r.found, r.changed, r.now, p);
      DistinctLookup(out, p.(state := Carried, lastSeen := Some(r.now)));
    } else if Lookup(out, fp).Some? {
      NoOneLeft(previous, r, fp, Lookup(out, fp).value);
    }
  }

  lemma NoOneLeft(previous: seq<Finding>, r: Review, fp: string, c: Finding)
    requires c in Reconciled(previous, r.found, r.changed, r.now) && c.fingerprint == fp
    requires Distinct(previous) && Lookup(r.found, fp).None?
    ensures Lookup(previous, fp).Some? && Lookup(previous, fp).value.comment.path !in r.changed
  {
    hide Lookup, CarriedOn;
    var s := SeenAll(previous, r.found, r.now);
    forall k | 0 <= k < |s| ensures s[k].fingerprint != fp {
      assert r.found[k] in r.found;
    }
    assert c !in s;
    var p := CarriedComesFrom(previous, r.found, r.changed, r.now, c);
    DistinctLookup(previous, p);
  }

  /** Over any sequence of runs the stored set holds exactly the findings whose own automaton says so. */
  lemma {:induction false} AfterFollows(reviews: seq<Review>, fp: string)
    requires forall r :: r in reviews ==> IsReview(r)
    ensures Distinct(After(reviews)) && Follows(Lookup(After(reviews), fp), TrackOf(reviews, fp))
    decreases |reviews|
  {
    hide Distinct, Follows, Reconciled, Lookup, IsReview, Next;
    if reviews == [] {
      NothingFollows(fp);
    } else {
      var n := |reviews| - 1;
      var r := reviews[n];
      assert IsReview(r);
      AfterFollows(reviews[..n], fp);
      ReviewIsDistinct(r);
      ReconciledIsDistinct(After(reviews[..n]), r.found, r.changed, r.now);
      ReconciledFollows(After(reviews[..n]), r, fp, TrackOf(reviews[..n], fp));
    }
  }

  lemma NothingFollows(fp: string)
    ensures Distinct([]) && Follows(Lookup([], fp), Absent)
  {
  }

  lemma ReviewIsDistinct(r: Review)
    requires IsReview(r)
    ensures Distinct(r.found)
  {
  }

  /** The run reports the finding, and none after it does or touches the file it was reported in. */
  ghost predicate LastReport(reviews: seq<Review>, fp: string, i: nat) {
    && i < |reviews| && Lookup(reviews[i].found, fp).Some?
    && forall k :: i < k < |reviews| ==>
         Lookup(reviews[k].found, fp).None? && Lookup(reviews[i].found, fp).value.comment.path !in reviews[k].changed
  }

  lemma LastReportShorter(reviews: seq<Review>, fp: string, i: nat)
    requires reviews != [] && Lookup(reviews[|reviews| - 1].found, fp).None?
    ensures LastReport(reviews, fp, i) <==>
            LastReport(reviews[..|reviews| - 1], fp, i)
            && Lookup(reviews[i].found, fp).value.comment.path !in reviews[|reviews| - 1].changed
  {
    hide Lookup;
    var front := reviews[..|reviews| - 1];
    assert forall k :: 0 <= k < |front| ==> front[k] == reviews[k];
  }

  /** A finding stays from its report until the first run that touches its file without reporting it again. */
  lemma {:induction false} PresentIffReported(reviews: seq<Review>, fp: string)
    ensures TrackOf(reviews, fp).Present? <==> exists i: nat :: LastReport(reviews, fp, i)
    ensures forall i: nat :: LastReport(reviews, fp, i) ==>
              TrackOf(reviews, fp).Present? && TrackOf(reviews, fp).path == Lookup(reviews[i].found, fp).value.comment.path
    decreases |reviews|
  {
    hide Lookup;
    if reviews != [] {
      var n := |reviews| - 1;
      PresentIffReported(reviews[..n], fp);
      if Lookup(reviews[n].found, fp).Some? {
        assert LastReport(reviews, fp, n);
        assert forall i: nat :: LastReport(reviews, fp, i) ==> i == n;
      } else {
        forall i: nat ensures LastReport(reviews, fp, i) <==>
            LastReport(reviews[..n], fp, i) && Lookup(reviews[i].found, fp).value.comment.path !in reviews[n].changed {
          LastReportShorter(reviews, fp, i);
        }
        hide LastReport;
        forall i: nat | LastReport(reviews[..n], fp, i) ensures i < n && reviews[..n][i] == reviews[i] {
          LastReportIndex(reviews[..n], fp, i);
        }
      }
    }
  }

  lemma LastReportIndex(reviews: seq<Review>, fp: string, i: nat)
    requires LastReport(reviews, fp, i)
    ensures i < |reviews|
  {
  }

  /** The finding is present after every run from the s-th on, and was absent before it. */
  ghost predicate Streak(reviews: seq<Review>, fp: string, s: nat) {
    && s < |reviews| && TrackOf(reviews[..s], fp).Absent?
    && forall k :: s < k <= |reviews| ==> TrackOf(reviews[..k], fp).Present?
  }

  /** First-seen is the time of the run that began the current unbroken streak. */
  lemma {:induction false} FirstSeenIsStreakStart(reviews: seq<Review>, fp: string) returns (s: nat)
    requires TrackOf(reviews, fp).Present?
    ensures Streak(reviews, fp, s) && TrackOf(reviews, fp).since == reviews[s].now
    decreases |reviews|
  {
    hide Lookup;
    var n := |reviews| - 1;
    assert reviews[..n + 1] == reviews;
    if TrackOf(reviews[..n], fp).Present? {
      s := FirstSeenIsStreakStart(reviews[..n], fp);
      forall k | s < k <= |reviews| ensures TrackOf(reviews[..k], fp).Present? {
        if k <= n {
          assert reviews[..n][..k] == reviews[..k];
        }
      }
      assert reviews[..n][..s] == reviews[..s];
    } else {
      s := n;
    }
  }
}
