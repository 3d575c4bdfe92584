/** POSIX `os.path.join`, as the cache layout uses it. */
module Paths {
  import opened Strings

  /** One step of `posixpath.join`: an absolute segment restarts the path, otherwise
      a `/` is put in unless the path so far is empty or already ends with one. */
  function JoinOne(path: string, b: string): string
  {
    if StartsWith(b, "/") then b
    else if path == "" || EndsWith(path, "/") then path + b
    else path + "/" + b
  }

  /** `os.path.join(a, *segments)`. */
  function Join(a: string, segments: seq<string>): string
    decreases |segments|
  {
    if segments == [] then a else Join(JoinOne(a, segments[0]), segments[1..])
  }

  /** Segments that are plain names: none holds a `/`. */
  predicate Plain(segments: seq<string>)
  {
    forall i :: 0 <= i < |segments| ==> '/' !in segments[i]
  }

  /** `"/" + s` for every non-empty segment `s`, in order. */
  function Dirs(segments: seq<string>): string
  {
    if segments == [] then ""
    else (if segments[0] == "" then "" else "/" + segments[0]) + Dirs(segments[1..])
  }

  /** The trailing `/` that an empty last segment leaves behind. */
  function Trail(segments: seq<string>): string
  {
    if segments != [] && segments[|segments| - 1] == "" then "/" else ""
  }

  lemma {:induction false} DirsAppend(x: seq<string>, y: seq<string>)
    ensures Dirs(x + y) == Dirs(x) + Dirs(y)
  {
    if x == [] {
      assert x + y == y;
    } else {
      assert (x + y)[1..] == x[1..] + y;
      DirsAppend(x[1..], y);
    }
  }

  lemma PlainParts(segments: seq<string>)
    requires segments != [] && Plain(segments)
    ensures '/' !in segments[0] && Plain(segments[1..])
  {
    assert forall i :: 0 <= i < |segments[1..]| ==> segments[1..][i] == segments[i + 1];
  }

  lemma TrailParts(segments: seq<string>)
    requires segments != []
    ensures Trail(segments) == if segments[1..] == [] then (if segments[0] == "" then "/" else "") else Trail(segments[1..])
  {
    if segments[1..] != [] {
      assert segments[|segments| - 1] == segments[1..][|segments[1..]| - 1];
    }
  }

  /** Adding a `/` and a plain non-empty name leaves a path that still has no trailing `/`. */
  lemma AppendName(a: string, s: string)
    requires s != "" && '/' !in s
    ensures !StartsWith(s, "/") && a + "/" + s != "" && !EndsWith(a + "/" + s, "/")
  {
    var a' := a + "/" + s;
    assert s[0] != '/';
    assert a'[|a'| - 1] == s[|s| - 1];
  }

  lemma SlashEnds(a: string)
    ensures a + "/" != "" && EndsWith(a + "/", "/")
  {
    assert (a + "/")[|a|..] == "/";
  }

  /** What an empty segment leaves at the end when it is the last thing joined. */
  function SlashTrail(segments: seq<string>): string
  {
    if segments == [] then "/" else Trail(segments)
  }

  /** Under a root that is non-empty and has no trailing `/`, joining plain names puts each
      non-empty one after a single `/`, skips the empty ones, and ends in `/` exactly when
      the last segment is empty. */
  lemma {:induction false} JoinPlain(a: string, segments: seq<string>)
    requires a != "" && !EndsWith(a, "/") && Plain(segments)
    ensures Join(a, segments) == a + Dirs(segments) + Trail(segments)
    decreases |segments|, 1
  {
    if segments == [] {
      assert a + Dirs(segments) + Trail(segments) == a + "" + "";
      assert a + "" + "" == a;
    } else if segments[0] == "" {
      var rest := segments[1..];
      PlainParts(segments);
      TrailParts(segments);
      assert Join(a, segments) == Join(a + "/", rest) by {
        assert JoinOne(a, segments[0]) == a + "/";
      }
      JoinPlainAfterSlash(a, rest);
      assert Dirs(segments) == Dirs(rest);
      assert Trail(segments) == SlashTrail(rest);
    } else {
      JoinName(a, segments);
    }
  }

  /** The same once the path so far has gained a trailing `/` from an empty segment. */
  lemma {:induction false} JoinPlainAfterSlash(a: string, segments: seq<string>)
    requires a != "" && !EndsWith(a, "/") && Plain(segments)
    ensures Join(a + "/", segments) == a + Dirs(segments) + SlashTrail(segments)
    decreases |segments|, 1
  {
    if segments != [] {
      PlainParts(segments);
      TrailParts(segments);
      SlashEnds(a);
      if segments[0] == "" {
        assert JoinOne(a + "/", segments[0]) == a + "/";
        JoinPlainAfterSlash(a, segments[1..]);
        assert Dirs(segments) == Dirs(segments[1..]);
        assert SlashTrail(segments) == SlashTrail(segments[1..]);
      } else {
        assert JoinOne(a + "/", segments[0]) == a + "/" + segments[0];
        JoinName(a, segments);
        assert SlashTrail(segments) == Trail(segments);
      }
    }
  }

  /** A non-empty first name: it is joined with one `/`, and the rest follows. */
  lemma {:induction false} JoinName(a: string, segments: seq<string>)
    requires a != "" && !EndsWith(a, "/") && Plain(segments)
    requires segments != [] && segments[0] != ""
    ensures Join(a + "/" + segments[0], segments[1..]) == a + Dirs(segments) + Trail(segments)
    ensures Join(a, segments) == a + Dirs(segments) + Trail(segments)
    decreases |segments|, 0
  {
    var s, rest := segments[0], segments[1..];
    PlainParts(segments);
    TrailParts(segments);
    AppendName(a, s);
    assert Join(a, segments) == Join(a + "/" + s, rest) by {
      assert JoinOne(a, s) == a + "/" + s;
    }
    JoinPlain(a + "/" + s, rest);
    assert Dirs(segments) == "/" + s + Dirs(rest);
    assert Trail(segments) == Trail(rest);
    Regroup(a, "/", s, Dirs(rest), Trail(rest));
  }

  /** Proof step: the concatenations of `JoinName` regrouped, kept apart so that the
      solver does not search for the grouping itself. */
  lemma Regroup(a: string, b: string, s: string, l: string, t: string)
    ensures a + (b + (s + l)) + t == (a + b) + s + l + t
    ensures a + b + s + l + t == a + (b + s + l) + t
  {
  }

  lemma PlainConcat(x: seq<string>, y: seq<string>)
    requires Plain(x) && Plain(y)
    ensures Plain(x + y)
  {
    assert forall i :: 0 <= i < |x + y| ==> (x + y)[i] == if i < |x| then x[i] else y[i - |x|];
  }

  lemma TrailSuffix(x: seq<string>, y: seq<string>)
    requires y != []
    ensures Trail(x + y) == Trail(y)
  {
    assert (x + y)[|x + y| - 1] == y[|y| - 1];
  }

  /** Joining plain segments under a plain root, split where `back` starts. */
  lemma JoinSplitAt(root: string, front: seq<string>, back: seq<string>)
    requires root != "" && !EndsWith(root, "/")
    requires Plain(front) && Plain(back) && back != []
    ensures Join(root, front + back) == (root + Dirs(front)) + (Dirs(back) + Trail(back))
  {
    PlainConcat(front, back);
    JoinPlain(root, front + back);
    TrailSuffix(front, back);
    DirsAppend(front, back);
  }

  /** Putting one more plain name `l` in front of the segments `back` inserts `"/" + l` into
      the joined path at the point where `back` starts. */
  lemma JoinInsert(root: string, front: seq<string>, l: string, back: seq<string>)
    requires root != "" && !EndsWith(root, "/")
    requires Plain(front) && Plain(back) && l != "" && '/' !in l && back != []
    ensures var d := Join(root, front + back);
            var k := |root| + |Dirs(front)|;
            k <= |d| && d[k..] == Dirs(back) + Trail(back) &&
            Join(root, front + [l] + back) == d[..k] + "/" + l + d[k..]
  {
    var front' := front + [l];
    PlainConcat(front, [l]);
    JoinSplitAt(root, front, back);
    JoinSplitAt(root, front', back);
    DirsAppend(front, [l]);
    assert Dirs([l]) == "/" + l;
    var head, tail := root + Dirs(front), Dirs(back) + Trail(back);
    var d := Join(root, front + back);
    assert d[..|head|] == head && d[|head|..] == tail;
    assert Join(root, front' + back) == root + (Dirs(front) + ("/" + l)) + tail;
    Regroup(root, Dirs(front), "/", l, tail);
  }
}
