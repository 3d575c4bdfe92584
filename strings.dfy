/** The few operations on Python `str` values that the core relies on. */
module Strings {

  /** `s.count(c)` for a single character `c`. */
  function Count(s: string, c: char): (n: nat)
    ensures n <= |s|
    ensures n == 0 <==> c !in s
  {
    if s == [] then 0 else (if s[0] == c then 1 else 0) + Count(s[1..], c)
  }

  lemma {:induction false} CountAppend(a: string, b: string, c: char)
    ensures Count(a + b, c) == Count(a, c) + Count(b, c)
  {
    if a == [] {
      assert a + b == b;
    } else {
      assert (a + b)[1..] == a[1..] + b;
      CountAppend(a[1..], b, c);
    }
  }

  /** Position of the first `c` in `s` (`s.index(c)`). */
  function IndexOf(s: string, c: char): (i: nat)
    requires c in s
    ensures i < |s| && s[i] == c && c !in s[..i]
  {
    if s[0] == c then 0
    else
      var j := IndexOf(s[1..], c);
      assert s[..j + 1] == [s[0]] + s[1..][..j];
      j + 1
  }

  /** The inverse of `Split`: the parts with `c` between neighbours (`c.join(parts)`). */
  function JoinWith(parts: seq<string>, c: char): string
  {
    if |parts| == 0 then ""
    else if |parts| == 1 then parts[0]
    else parts[0] + [c] + JoinWith(parts[1..], c)
  }

  /** `s.split(c)` for a one-character separator: one more part than there are separators. */
  function Split(s: string, c: char): (parts: seq<string>)
    ensures |parts| == Count(s, c) + 1
    ensures forall i :: 0 <= i < |parts| ==> c !in parts[i]
    ensures JoinWith(parts, c) == s
    decreases |s|
  {
    if c !in s then [s]
    else
      var i := IndexOf(s, c);
      assert s == s[..i] + [c] + s[i + 1..];
      CountAppend(s[..i] + [c], s[i + 1..], c);
      CountAppend(s[..i], [c], c);
      var rest := Split(s[i + 1..], c);
      assert ([s[..i]] + rest)[1..] == rest;
      [s[..i]] + rest
  }

  /** The first `c` in `a + [c] + rest` is the one after `a` when `a` has none. */
  lemma {:induction false} IndexOfAfter(a: string, c: char, rest: string)
    requires c !in a
    ensures IndexOf(a + [c] + rest, c) == |a|
  {
    if a != [] {
      assert (a + [c] + rest)[1..] == a[1..] + [c] + rest;
      IndexOfAfter(a[1..], c, rest);
    }
  }

  /** `Split` undoes `JoinWith` when no part holds the separator. */
  lemma {:induction false} SplitJoin(parts: seq<string>, c: char)
    requires parts != []
    requires forall i :: 0 <= i < |parts| ==> c !in parts[i]
    ensures Split(JoinWith(parts, c), c) == parts
  {
    if |parts| == 1 {
      assert JoinWith(parts, c) == parts[0];
    } else {
      var rest := parts[1..];
      var tail := JoinWith(rest, c);
      var s := parts[0] + [c] + tail;
      assert JoinWith(parts, c) == s;
      IndexOfAfter(parts[0], c, tail);
      assert s[|parts[0]|] == c;
      assert s[..|parts[0]|] == parts[0];
      assert s[|parts[0]| + 1..] == tail;
      assert Split(s, c) == [parts[0]] + Split(tail, c);
      SplitJoin(rest, c);
      assert parts == [parts[0]] + rest;
    }
  }

  /** What `Split` gives for one and for two separators. */
  lemma SplitSmall(s: string, c: char)
    ensures Count(s, c) == 1 ==> Split(s, c)[0] + [c] + Split(s, c)[1] == s
    ensures Count(s, c) == 2 ==> Split(s, c)[0] + [c] + Split(s, c)[1] + [c] + Split(s, c)[2] == s
  {
    JoinSmall(Split(s, c), c);
  }

  lemma JoinSmall(parts: seq<string>, c: char)
    ensures |parts| == 2 ==> JoinWith(parts, c) == parts[0] + [c] + parts[1]
    ensures |parts| == 3 ==> JoinWith(parts, c) == parts[0] + [c] + parts[1] + [c] + parts[2]
  {
    if |parts| == 2 {
      assert JoinWith(parts[1..], c) == parts[1];
    } else if |parts| == 3 {
      var tail := parts[1..];
      assert JoinWith(tail[1..], c) == parts[2];
      assert JoinWith(tail, c) == parts[1] + [c] + parts[2];
    }
  }

  predicate StartsWith(s: string, p: string)
  {
    |p| <= |s| && s[..|p|] == p
  }

  predicate EndsWith(s: string, p: string)
  {
    |p| <= |s| && s[|s| - |p|..] == p
  }

  /** `t in s` for strings: `t` occurs somewhere in `s`. */
  predicate Contains(s: string, t: string)
  {
    StartsWith(s, t) || (s != [] && Contains(s[1..], t))
  }

  /** An occurrence of `t` at position `i` is an occurrence in the sense of `Contains`. */
  lemma {:induction false} ContainsAt(s: string, t: string, i: nat)
    requires i + |t| <= |s| && s[i..i + |t|] == t
    ensures Contains(s, t)
  {
    if i > 0 {
      assert s[1..][i - 1..i - 1 + |t|] == s[i..i + |t|];
      ContainsAt(s[1..], t, i - 1);
    }
  }

  /** `Contains` finds an occurrence and nothing else. */
  lemma {:induction false} ContainsWitness(s: string, t: string) returns (i: nat)
    requires Contains(s, t)
    ensures i + |t| <= |s| && s[i..i + |t|] == t
  {
    if StartsWith(s, t) {
      i := 0;
    } else {
      var j := ContainsWitness(s[1..], t);
      assert s[1..][j..j + |t|] == s[j + 1..j + 1 + |t|];
      i := j + 1;
    }
  }

  /** A string lacking the first character of `t` does not contain `t`. */
  lemma {:induction false} NotContainsFirst(s: string, t: string)
    requires t != [] && t[0] !in s
    ensures !Contains(s, t)
  {
    if s != [] {
      NotContainsFirst(s[1..], t);
      assert s[0] != t[0];
    }
  }

  /** A string in which the three characters of `t` from `k` on never occur in a row does not contain `t`. */
  lemma {:induction false} NotContainsTriple(s: string, t: string, k: nat)
    requires k + 3 <= |t|
    requires forall i :: 0 <= i < |s| - 2 ==> !(s[i] == t[k] && s[i + 1] == t[k + 1] && s[i + 2] == t[k + 2])
    ensures !Contains(s, t)
  {
    if s != [] {
      var r := s[1..];
      assert forall i :: 0 <= i < |r| ==> r[i] == s[i + 1];
      NotContainsTriple(r, t, k);
      if |t| <= |s| {
        assert !(s[k] == t[k] && s[k + 1] == t[k + 1] && s[k + 2] == t[k + 2]);
      }
    }
  }

  /** `os.path.basename(p)`: the text after the last `/` (all of `p` when it has none). */
  function Basename(p: string): (b: string)
    ensures '/' !in b && EndsWith(p, b)
    ensures |b| < |p| ==> p[|p| - |b| - 1] == '/'
  {
    if p == [] || p[|p| - 1] == '/' then []
    else
      var init, c := p[..|p| - 1], p[|p| - 1];
      var b := Basename(init);
      var r := b + [c];
      assert init[|init| - |b|..] == b;
      assert p[|p| - |r|..] == init[|init| - |b|..] + [c];
      assert |r| < |p| ==> p[|p| - |r| - 1] == init[|init| - |b| - 1];
      r
  }

  /** A directory part that is empty or ends with `/` followed by a plain name has that name as basename. */
  lemma {:induction false} BasenameOfChild(dir: string, name: string)
    requires dir == [] || dir[|dir| - 1] == '/'
    requires '/' !in name
    ensures Basename(dir + name) == name
  {
    BasenameAppend(dir, name);
    assert Basename(dir) == [];
  }

  /** Appending text without a `/` extends the basename by that text. */
  lemma {:induction false} BasenameAppend(p: string, x: string)
    requires '/' !in x
    ensures Basename(p + x) == Basename(p) + x
  {
    if x == [] {
      assert p + x == p;
    } else {
      var q, init, last := p + x, x[..|x| - 1], x[|x| - 1];
      assert last != '/';
      assert q[|q| - 1] == last && q[..|q| - 1] == p + init;
      assert Basename(q) == Basename(p + init) + [last];
      BasenameAppend(p, init);
      LastSplit(x);
    }
  }

  /** A non-empty sequence is its front followed by its last element. */
  lemma LastSplit<T>(x: seq<T>)
    requires x != []
    ensures x[..|x| - 1] + [x[|x| - 1]] == x
  {
  }

  /** `p` without its basename: the directory part, with its trailing `/`. */
  function DirPart(p: string): (d: string)
    ensures d + Basename(p) == p
  {
    p[..|p| - |Basename(p)|]
  }

  /** ASCII part of `str.lower()` on one character. */
  function Lower(c: char): (l: char)
    ensures !('A' <= l <= 'Z')
    ensures !('A' <= c <= 'Z') ==> l == c
    ensures 'A' <= c <= 'Z' ==> 'a' <= l <= 'z'
  {
    if 'A' <= c <= 'Z' then (c as int - 'A' as int + 'a' as int) as char else c
  }

  /** The characters `str.isspace()` holds for, so the ones `str.strip()` removes: the
      ASCII white space and separators, and the Unicode white space (next line, no-break
      space, ogham space, the spaces from en quad to hair space, the line and paragraph
      separators, the narrow no-break, medium mathematical and ideographic spaces). */
  predicate IsSpace(c: char)
  {
    var n := c as int;
    n == 0x20 || 0x09 <= n <= 0x0D || 0x1C <= n <= 0x1F || n == 0x85 || n == 0xA0 || n == 0x1680 ||
    0x2000 <= n <= 0x200A || n == 0x2028 || n == 0x2029 || n == 0x202F || n == 0x205F || n == 0x3000
  }

  function TrimLeft(s: string): (r: string)
    ensures EndsWith(s, r)
    ensures forall k :: 0 <= k < |s| - |r| ==> IsSpace(s[k])
    ensures r == [] || !IsSpace(r[0])
  {
    if s != [] && IsSpace(s[0]) then
      var r := TrimLeft(s[1..]);
      assert s[|s| - |r|..] == s[1..][|s| - 1 - |r|..];
      assert forall k :: 1 <= k < |s| - |r| ==> s[k] == s[1..][k - 1];
      r
    else s
  }

  function TrimRight(s: string): (r: string)
    ensures StartsWith(s, r)
    ensures forall k :: |r| <= k < |s| ==> IsSpace(s[k])
    ensures r == [] || !IsSpace(r[|r| - 1])
  {
    if s != [] && IsSpace(s[|s| - 1]) then
      var r := TrimRight(s[..|s| - 1]);
      assert s[..|r|] == s[..|s| - 1][..|r|];
      assert forall k :: |r| <= k < |s| - 1 ==> s[k] == s[..|s| - 1][k];
      r
    else s
  }

  /** `s.strip()`. */
  function Strip(s: string): string
  {
    TrimRight(TrimLeft(s))
  }

  /** No surrounding white space is left, and only a blank string strips to "". */
  lemma StripMeaning(s: string)
    ensures var r := Strip(s);
            && (r == [] || (!IsSpace(r[0]) && !IsSpace(r[|r| - 1])))
            && (r == [] <==> forall k :: 0 <= k < |s| ==> IsSpace(s[k]))
  {
    TrimBoth(s, TrimLeft(s), Strip(s));
  }

  lemma TrimBoth(s: string, l: string, r: string)
    requires l == TrimLeft(s) && r == TrimRight(l)
    ensures r == [] || (!IsSpace(r[0]) && !IsSpace(r[|r| - 1]))
    ensures r == [] <==> forall k :: 0 <= k < |s| ==> IsSpace(s[k])
  {
    if l != [] {
      assert !IsSpace(l[0]);
      if r != [] {
        assert r[0] == l[0];
      }
      assert s[|s| - |l|..] == l;
      assert s[|s| - |l|] == l[0];
    } else {
      assert r == [];
    }
  }
}
