/** Python's ordering of `str` values and `sorted` over a set of them. */
module StringOrder {

  /** `a < b` on Python strings: lexicographic by code point, a proper prefix first. */
  predicate Less(a: string, b: string)
  {
    b != [] && (a == [] || a[0] < b[0] || (a[0] == b[0] && Less(a[1..], b[1..])))
  }

  lemma {:induction false} LessIrreflexive(a: string)
    ensures !Less(a, a)
  {
    if a != [] { LessIrreflexive(a[1..]); }
  }

  lemma {:induction false} LessTransitive(a: string, b: string, c: string)
    requires Less(a, b) && Less(b, c)
    ensures Less(a, c)
  {
    if a != [] && a[0] == b[0] && b[0] == c[0] {
      LessTransitive(a[1..], b[1..], c[1..]);
    }
  }

  lemma {:induction false} LessTotal(a: string, b: string)
    requires a != b
    ensures Less(a, b) || Less(b, a)
  {
    if a != [] && b != [] && a[0] == b[0] {
      assert a == [a[0]] + a[1..] && b == [b[0]] + b[1..];
      LessTotal(a[1..], b[1..]);
    }
  }

  lemma LessAsymmetric(a: string, b: string)
    requires Less(a, b)
    ensures !Less(b, a)
  {
    if Less(b, a) {
      LessTransitive(a, b, a);
      LessIrreflexive(a);
    }
  }

  /** Every element is below every later one (so there are no duplicates either). */
  ghost predicate StrictlySorted(xs: seq<string>)
  {
    forall i, j :: 0 <= i < j < |xs| ==> Less(xs[i], xs[j])
  }

  ghost function Elems(xs: seq<string>): set<string>
  {
    set x | x in xs
  }

  lemma Cons(m: string, rest: seq<string>)
    requires StrictlySorted(rest) && forall y :: y in Elems(rest) ==> Less(m, y)
    ensures StrictlySorted([m] + rest) && Elems([m] + rest) == {m} + Elems(rest)
  {
    var r := [m] + rest;
    forall i, j | 0 <= i < j < |r| ensures Less(r[i], r[j]) {
      if i == 0 { assert r[j] == rest[j - 1] && r[j] in Elems(rest); }
      else { assert r[i] == rest[i - 1] && r[j] == rest[j - 1]; }
    }
  }

  /** Puts `x` into its place in a sorted sequence. */
  function Insert(xs: seq<string>, x: string): (r: seq<string>)
    requires StrictlySorted(xs) && x !in xs
    ensures StrictlySorted(r)
    ensures Elems(r) == Elems(xs) + {x}
    ensures |r| == |xs| + 1
  {
    if xs == [] then [x]
    else if Less(x, xs[0]) then
      assert forall j :: 0 <= j < |xs| ==> Less(x, xs[j]) by {
        forall j | 0 < j < |xs| { LessTransitive(x, xs[0], xs[j]); }
      }
      Cons(x, xs);
      [x] + xs
    else
      LessTotal(x, xs[0]);
      var rest := Insert(xs[1..], x);
      assert Elems(xs) == {xs[0]} + Elems(xs[1..]);
      assert forall k :: 0 <= k < |xs[1..]| ==> Less(xs[0], xs[1..][k]);
      assert forall y :: y in Elems(rest) ==> Less(xs[0], y);
      Cons(xs[0], rest);
      [xs[0]] + rest
  }

  /** A non-empty finite set of strings has a least element. */
  lemma {:induction false} MinimumExists(s: set<string>) returns (m: string)
    requires s != {}
    ensures m in s && forall x :: x in s && x != m ==> Less(m, x)
    decreases |s|
  {
    var y :| y in s;
    if s == {y} {
      m := y;
    } else {
      var m' := MinimumExists(s - {y});
      if Less(y, m') {
        m := y;
        forall x | x in s && x != m ensures Less(m, x) {
          if x != m' { LessTransitive(y, m', x); }
        }
      } else {
        LessTotal(y, m');
        m := m';
      }
    }
  }

  lemma HasMinimum(s: set<string>)
    requires s != {}
    ensures exists m :: m in s && forall x :: x in s && x != m ==> Less(m, x)
  {
    var m := MinimumExists(s);
  }

  /** `sorted(s)`: the elements of `s` in ascending order. */
  ghost function Sorted(s: set<string>): (r: seq<string>)
    ensures StrictlySorted(r) && Elems(r) == s && |r| == |s|
    decreases |s|
  {
    if s == {} then []
    else
      HasMinimum(s);
      var m :| m in s && forall x :: x in s && x != m ==> Less(m, x);
      var rest := Sorted(s - {m});
      Cons(m, rest);
      [m] + rest
  }

  lemma {:induction false} SortedSize(xs: seq<string>)
    requires StrictlySorted(xs)
    ensures |Elems(xs)| == |xs|
  {
    if xs != [] {
      LessIrreflexive(xs[0]);
      assert xs[0] !in xs[1..];
      assert Elems(xs) == {xs[0]} + Elems(xs[1..]);
      SortedSize(xs[1..]);
    }
  }

  /** Two ascending sequences with the same elements are the same sequence. */
  lemma {:induction false} SortedUnique(xs: seq<string>, ys: seq<string>)
    requires StrictlySorted(xs) && StrictlySorted(ys) && Elems(xs) == Elems(ys)
    ensures xs == ys
  {
    if xs != [] {
      assert xs[0] in Elems(ys);
      SameHead(xs, ys);
      HeadTail(xs);
      HeadTail(ys);
      SortedUnique(xs[1..], ys[1..]);
      FirstSplit(xs);
      FirstSplit(ys);
    } else {
      SortedSize(ys);
    }
  }

  /** The least element comes first. */
  lemma SameHead(xs: seq<string>, ys: seq<string>)
    requires StrictlySorted(xs) && StrictlySorted(ys) && Elems(xs) == Elems(ys) && xs != [] && ys != []
    ensures xs[0] == ys[0]
  {
    assert xs[0] in Elems(ys) && ys[0] in Elems(xs);
    if xs[0] != ys[0] {
      var i :| 0 <= i < |ys| && ys[i] == xs[0];
      var j :| 0 <= j < |xs| && xs[j] == ys[0];
      LessAsymmetric(xs[0], xs[j]);
    }
  }

  /** The rest of an ascending sequence is ascending and holds all but the first element. */
  lemma HeadTail(xs: seq<string>)
    requires StrictlySorted(xs) && xs != []
    ensures StrictlySorted(xs[1..]) && Elems(xs[1..]) == Elems(xs) - {xs[0]}
  {
    LessIrreflexive(xs[0]);
    assert forall k :: 0 <= k < |xs[1..]| ==> xs[1..][k] == xs[k + 1];
    assert xs[0] !in xs[1..];
    assert Elems(xs) == {xs[0]} + Elems(xs[1..]);
  }

  lemma FirstSplit(xs: seq<string>)
    requires xs != []
    ensures [xs[0]] + xs[1..] == xs
  {
  }

  /** `sorted(list(s))`, built by inserting the elements in whatever order the set yields them. */
  method SortSet(s: set<string>) returns (r: seq<string>)
    ensures r == Sorted(s)
  {
    r := [];
    var rest := s;
    while rest != {}
      invariant StrictlySorted(r) && Elems(r) + rest == s && Elems(r) !! rest
      decreases rest
    {
      var x :| x in rest;
      r := Insert(r, x);
      rest := rest - {x};
    }
    SortedUnique(r, Sorted(s));
  }
}
