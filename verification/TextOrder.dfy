/** The order in which strings are compared, and rows are read back from a table. */
module TextOrder {

  /** `a` comes before `b`, character by character. */
  predicate Below(a: string, b: string)
    decreases |a|
  {
    b != "" && (a == "" || a[0] < b[0] || (a[0] == b[0] && Below(a[1..], b[1..])))
  }

  lemma {:induction false} BelowIsTotal(a: string, b: string)
    ensures Below(a, b) || a == b || Below(b, a)
    decreases |a|
  {
    if a != "" && b != "" && a[0] == b[0] {
      BelowIsTotal(a[1..], b[1..]);
      assert a[1..] == b[1..] ==> a == [a[0]] + a[1..] && b == [b[0]] + b[1..];
    }
  }

  lemma {:induction false} BelowIsStrict(a: string, b: string)
    requires Below(a, b)
    ensures !Below(b, a) && a != b
    decreases |a|
  {
    if a != "" && a[0] == b[0] {
      BelowIsStrict(a[1..], b[1..]);
    }
  }

  lemma NotBelowItself(a: string)
    ensures !Below(a, a)
  {
    if Below(a, a) {
      BelowIsStrict(a, a);
    }
  }

  lemma {:induction false} BelowIsTransitive(a: string, b: string, c: string)
    requires Below(a, b) && Below(b, c)
    ensures Below(a, c)
    decreases |a|
  {
    if a != "" && a[0] == b[0] == c[0] {
      BelowIsTransitive(a[1..], b[1..], c[1..]);
    }
  }

  /** Up to `k` the texts agree; there the first one ends or has the smaller character. */
  ghost predicate DiffersAt(a: string, b: string, k: nat) {
    k <= |a| && k < |b| && a[..k] == b[..k] && (k == |a| || a[k] < b[k])
  }

  lemma NotBelowIsTransitive(a: string, b: string, c: string)
    requires !Below(b, a) && !Below(c, b)
    ensures !Below(c, a)
  {
    BelowIsTotal(a, b);
    BelowIsTotal(b, c);
    NotBelowItself(a);
    if Below(a, b) && Below(b, c) {
      BelowIsTransitive(a, b, c);
      BelowIsStrict(a, c);
    }
  }

  lemma {:induction false} BelowDiffers(a: string, b: string) returns (k: nat)
    requires Below(a, b)
    ensures DiffersAt(a, b, k)
    decreases |a|
  {
    if a != "" && a[0] == b[0] {
      k := BelowDiffers(a[1..], b[1..]);
      assert a[..k + 1] == [a[0]] + a[1..][..k] && b[..k + 1] == [b[0]] + b[1..][..k];
      k := k + 1;
    } else {
      k := 0;
    }
  }

  lemma {:induction false} DiffersIsBelow(a: string, b: string, k: nat)
    requires DiffersAt(a, b, k)
    ensures Below(a, b)
    decreases k
  {
    if k > 0 {
      assert a[0] == a[..k][0] == b[..k][0] == b[0];
      assert a[1..][..k - 1] == a[..k][1..] && b[1..][..k - 1] == b[..k][1..];
      DiffersIsBelow(a[1..], b[1..], k - 1);
    }
  }

  /** The order of SQLite's binary collation: a proper prefix comes first, and otherwise the first character
      that differs decides. */
  lemma BelowMeans(a: string, b: string)
    ensures Below(a, b) <==> exists k: nat :: DiffersAt(a, b, k)
  {
    if Below(a, b) {
      var k := BelowDiffers(a, b);
    } else if exists k: nat :: DiffersAt(a, b, k) {
      var k: nat :| DiffersAt(a, b, k);
      DiffersIsBelow(a, b, k);
    }
  }

  /** Keys of several columns, compared column by column; both keys have the same columns. */
  predicate KeyBelow(a: seq<string>, b: seq<string>)
    decreases |a|
  {
    a != [] && b != [] && (Below(a[0], b[0]) || (a[0] == b[0] && KeyBelow(a[1..], b[1..])))
  }

  lemma {:induction false} KeysAreTotal(a: seq<string>, b: seq<string>)
    requires |a| == |b|
    ensures KeyBelow(a, b) || a == b || KeyBelow(b, a)
    decreases |a|
  {
    if a != [] {
      BelowIsTotal(a[0], b[0]);
      if a[0] == b[0] {
        KeysAreTotal(a[1..], b[1..]);
        assert a[1..] == b[1..] ==> a == [a[0]] + a[1..] && b == [b[0]] + b[1..];
      }
    }
  }

  lemma {:induction false} KeysAreStrict(a: seq<string>, b: seq<string>)
    requires KeyBelow(a, b)
    ensures !KeyBelow(b, a) && a != b
    decreases |a|
  {
    if Below(a[0], b[0]) {
      BelowIsStrict(a[0], b[0]);
    } else {
      KeysAreStrict(a[1..], b[1..]);
      NotBelowItself(a[0]);
    }
  }

  lemma {:induction false} KeysAreTransitive(a: seq<string>, b: seq<string>, c: seq<string>)
    requires KeyBelow(a, b) && KeyBelow(b, c)
    ensures KeyBelow(a, c)
    decreases |a|
  {
    if Below(a[0], b[0]) && Below(b[0], c[0]) {
      BelowIsTransitive(a[0], b[0], c[0]);
    } else if a[0] == b[0] == c[0] {
      KeysAreTransitive(a[1..], b[1..], c[1..]);
    }
  }

  // ---------------------------------------------------------------- ordered lists

  /** Every element of `s` once, no element in front of one with a smaller key. */
  ghost predicate Lists<T(!new)>(r: seq<T>, s: set<T>, key: T -> seq<string>) {
    && (forall x :: x in r <==> x in s)
    && (forall i, j :: 0 <= i < j < |r| ==> r[i] != r[j] && !KeyBelow(key(r[j]), key(r[i])))
  }

  /** No two elements of `s` have the same key, and all keys have the same columns. */
  ghost predicate IsKey<T(!new)>(s: set<T>, key: T -> seq<string>) {
    forall x, y :: x in s && y in s ==> |key(x)| == |key(y)| && (key(x) == key(y) ==> x == y)
  }

  /** An element that comes next in one list is not among the first ones of the other. */
  lemma NextIndex<T(!new)>(a: seq<T>, b: seq<T>, s: set<T>, key: T -> seq<string>, m: nat) returns (j: nat)
    requires Lists(a, s, key) && Lists(b, s, key) && m < |a| && m <= |b| && a[..m] == b[..m]
    ensures m <= j < |b| && b[j] == a[m]
  {
    forall i | 0 <= i < m ensures b[i] != a[m] {
      assert a[..m][i] == b[..m][i];
    }
    assert a[m] in b;
    j :| 0 <= j < |b| && b[j] == a[m];
  }

  lemma SameNext<T(!new)>(a: seq<T>, b: seq<T>, s: set<T>, key: T -> seq<string>, m: nat)
    requires Lists(a, s, key) && Lists(b, s, key) && IsKey(s, key)
    requires m < |a| && m <= |b| && a[..m] == b[..m]
    ensures m < |b| && a[m] == b[m]
  {
    var j := NextIndex(a, b, s, key, m);
    var k := NextIndex(b, a, s, key, m);
    KeysAreTotal(key(a[m]), key(b[m]));
  }

  lemma {:induction false} SamePrefix<T(!new)>(a: seq<T>, b: seq<T>, s: set<T>, key: T -> seq<string>, n: nat)
    requires Lists(a, s, key) && Lists(b, s, key) && IsKey(s, key) && n <= |a|
    ensures n <= |b| && a[..n] == b[..n]
    decreases n
  {
    if n > 0 {
      SamePrefix(a, b, s, key, n - 1);
      SameNext(a, b, s, key, n - 1);
      assert a[..n] == a[..n - 1] + [a[n - 1]] && b[..n] == b[..n - 1] + [b[n - 1]];
    }
  }

  /** Where no two elements have the same key there is only one such list. */
  lemma OneList<T(!new)>(a: seq<T>, b: seq<T>, s: set<T>, key: T -> seq<string>)
    requires Lists(a, s, key) && Lists(b, s, key) && IsKey(s, key)
    ensures a == b
  {
    SamePrefix(a, b, s, key, |a|);
    SamePrefix(b, a, s, key, |b|);
    assert a[..|a|] == a && b[..|b|] == b;
  }

  /** A smallest element. */
  method Least<T(==,!new)>(s: set<T>, key: T -> seq<string>) returns (least: T)
    requires s != {} && forall x, y :: x in s && y in s ==> |key(x)| == |key(y)|
    ensures least in s && forall x :: x in s ==> !KeyBelow(key(x), key(least))
  {
    var rest := s;
    least :| least in rest;
    rest := rest - {least};
    KeyIsNotBelowItself(key(least));
    while rest != {}
      invariant least in s && rest <= s
      invariant forall x :: x in s && x !in rest ==> !KeyBelow(key(x), key(least))
      decreases rest
    {
      var x :| x in rest;
      rest := rest - {x};
      if KeyBelow(key(x), key(least)) {
        forall y | y in s && y !in rest ensures !KeyBelow(key(y), key(x)) {
          if KeyBelow(key(y), key(x)) {
            if y == x {
              KeyIsNotBelowItself(key(x));
            } else {
              KeysAreTransitive(key(y), key(x), key(least));
            }
          }
        }
        least := x;
      }
    }
  }

  lemma KeyIsNotBelowItself(a: seq<string>)
    ensures !KeyBelow(a, a)
  {
    if KeyBelow(a, a) {
      KeysAreStrict(a, a);
    }
  }

  /** SELECT … ORDER BY: all rows by their key, rows with equal keys in any order. */
  method OrderBy<T(==,!new)>(s: set<T>, key: T -> seq<string>) returns (r: seq<T>)
    requires forall x, y :: x in s && y in s ==> |key(x)| == |key(y)|
    ensures Lists(r, s, key)
  {
    r := [];
    var rest := s;
    while rest != {}
      invariant rest <= s && Lists(r, s - rest, key)
      invariant forall x, y :: x in r && y in rest ==> !KeyBelow(key(y), key(x))
      decreases rest
    {
      var least := Least(rest, key);
      ghost var r0 := r;
      r := r + [least];
      rest := rest - {least};
      assert forall k :: 0 <= k < |r0| ==> r[k] == r0[k];
    }
    assert s - rest == s;
  }
}
