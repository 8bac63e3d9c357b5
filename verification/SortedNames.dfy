/** Sorting the keys of a map, as the source does wherever it lists names. */
module SortedNames {

  /** Strings compare character by character, a proper prefix first. */
  predicate Less(a: string, b: string) {
    b != [] && (a == [] || a[0] < b[0] || (a[0] == b[0] && Less(a[1..], b[1..])))
  }

  lemma {:induction false} LessTransitive(a: string, b: string, c: string)
    requires Less(a, b) && Less(b, c)
    ensures Less(a, c)
  {
    if a != [] && a[0] == b[0] && b[0] == c[0] {
      LessTransitive(a[1..], b[1..], c[1..]);
    }
  }

  lemma {:induction false} LessTotal(a: string, b: string)
    ensures a == b || Less(a, b) || Less(b, a)
    ensures !(Less(a, b) && Less(b, a)) && !Less(a, a)
  {
    if a != [] && b != [] {
      LessTotal(a[1..], b[1..]);
      LessTotal(a[1..], a[1..]);
      assert a[0] == b[0] && a[1..] == b[1..] ==> a == b;
    } else if a != [] {
      LessTotal(a[1..], a[1..]);
    }
  }

  /** One text comes before another if it is a proper beginning of it, or has the smaller character where
      they first differ. */
  lemma {:induction false} LessMeans(a: string, b: string)
    ensures Less(a, b) <==> (a <= b && a != b) || exists k: nat :: FirstDiffer(a, b, k)
  {
    if a != [] && b != [] && a[0] == b[0] {
      LessMeans(a[1..], b[1..]);
      forall k: nat
        ensures FirstDiffer(a[1..], b[1..], k) <==> FirstDiffer(a, b, k + 1)
      {
        DifferNext(a, b, k);
      }
      assert a == [a[0]] + a[1..] && b == [b[0]] + b[1..];
      if k: nat :| FirstDiffer(a, b, k) {
        assert k > 0 && FirstDiffer(a[1..], b[1..], k - 1);
      }
    } else if a != [] && b != [] {
      assert a[0] < b[0] ==> FirstDiffer(a, b, 0);
      forall k: nat
        ensures FirstDiffer(a, b, k) ==> k == 0
      {
        HeadsDiffer(a, b, k);
      }
    }
  }

  ghost predicate FirstDiffer(a: string, b: string, k: nat) {
    k < |a| && k < |b| && a[..k] == b[..k] && a[k] < b[k]
  }

  lemma HeadsDiffer(a: string, b: string, k: nat)
    requires a != [] && b != [] && a[0] != b[0]
    ensures FirstDiffer(a, b, k) ==> k == 0
  {
    if 0 < k <= |a| && k <= |b| {
      assert a[..k][0] == a[0] && b[..k][0] == b[0];
    }
  }

  lemma DifferNext(a: string, b: string, k: nat)
    requires a != [] && b != [] && a[0] == b[0]
    ensures FirstDiffer(a[1..], b[1..], k) <==> FirstDiffer(a, b, k + 1)
  {
    if k + 1 < |a| && k + 1 < |b| {
      assert a[..k + 1] == [a[0]] + a[1..][..k] && b[..k + 1] == [b[0]] + b[1..][..k];
      assert a[..k + 1] == b[..k + 1] ==> a[..k + 1][1..] == b[..k + 1][1..];
      assert a[..k + 1][1..] == a[1..][..k] && b[..k + 1][1..] == b[1..][..k];
    }
  }

  ghost predicate Ascending(s: seq<string>) {
    forall i, j :: 0 <= i < j < |s| ==> Less(s[i], s[j])
  }

  /** The names in ascending order, each once. */
  ghost predicate SortedOf(s: seq<string>, names: set<string>) {
    Ascending(s) && forall x :: x in s <==> x in names
  }

  /** There is only one such list. */
  lemma {:induction false} SortedUnique(s: seq<string>, t: seq<string>, names: set<string>)
    requires SortedOf(s, names) && SortedOf(t, names)
    ensures s == t
    decreases |s|
  {
    if s == [] {
      NonemptyHasMember(t);
    } else {
      assert s[0] in s && s[0] in t;
      assert t[0] in t && t[0] in s;
      HeadIsLeast(s, t[0]);
      HeadIsLeast(t, s[0]);
      LessTotal(s[0], t[0]);
      TailSorted(s, names);
      TailSorted(t, names);
      SortedUnique(s[1..], t[1..], names - {s[0]});
    }
  }

  lemma NonemptyHasMember(t: seq<string>)
    ensures t != [] ==> exists x :: x in t
  {
    if t != [] {
      assert t[0] in t;
    }
  }

  lemma HeadIsLeast(s: seq<string>, x: string)
    requires Ascending(s) && x in s
    ensures x == s[0] || Less(s[0], x)
  {
  }

  lemma TailSorted(s: seq<string>, names: set<string>)
    requires SortedOf(s, names) && s != []
    ensures SortedOf(s[1..], names - {s[0]})
  {
    LessTotal(s[0], s[0]);
    forall x
      ensures x in s[1..] <==> x in names - {s[0]}
    {
      if x in s[1..] {
        assert x in s;
      }
      if x in names && x != s[0] {
        var i :| 0 <= i < |s| && s[i] == x;
        assert s[1..][i - 1] == x;
      }
    }
  }

  /** Puts a name in its place. */
  method Insert(s: seq<string>, x: string) returns (r: seq<string>)
    requires Ascending(s) && x !in s
    ensures Ascending(r) && forall y :: y in r <==> y in s || y == x
  {
    var i := 0;
    while i < |s| && Less(s[i], x)
      invariant 0 <= i <= |s|
      invariant forall k :: 0 <= k < i ==> Less(s[k], x)
    {
      i := i + 1;
    }
    r := s[..i] + [x] + s[i..];
    if i < |s| {
      LessTotal(s[i], x);
      AboveRest(s, i, x);
    }
    InsertedAscending(s, i, x);
    assert s == s[..i] + s[i..];
  }

  lemma AboveRest(s: seq<string>, i: nat, x: string)
    requires Ascending(s) && i < |s| && Less(x, s[i])
    ensures forall k :: i <= k < |s| ==> Less(x, s[k])
  {
    forall k | i < k < |s|
      ensures Less(x, s[k])
    {
      LessTransitive(x, s[i], s[k]);
    }
  }

  lemma InsertedAscending(s: seq<string>, i: nat, x: string)
    requires Ascending(s) && i <= |s|
    requires (forall k :: 0 <= k < i ==> Less(s[k], x)) && forall k :: i <= k < |s| ==> Less(x, s[k])
    ensures Ascending(s[..i] + [x] + s[i..])
  {
    var r := s[..i] + [x] + s[i..];
    forall j, k | 0 <= j < k < |r|
      ensures Less(r[j], r[k])
    {
      assert r[j] == if j < i then s[j] else if j == i then x else s[j - 1];
      assert r[k] == if k < i then s[k] else if k == i then x else s[k - 1];
    }
  }

  method SortNames(names: set<string>) returns (r: seq<string>)
    ensures SortedOf(r, names)
  {
    r := [];
    var rest := names;
    while rest != {}
      invariant rest <= names && SortedOf(r, names - rest)
      decreases rest
    {
      var x :| x in rest;
      rest := rest - {x};
      r := Insert(r, x);
    }
  }
}
