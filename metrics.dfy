/** `get_total_counts`: how many cache entries under a root offer each alias. */
module Metrics {
  import opened Strings
  import opened StringOrder

  /** The files under the root as the directory walk yields them: each file's path and,
      read as JSON, its alias map. */
  type Tree = seq<(string, map<string, string>)>

  /** A match of `.json` starts at `i`: a character other than a newline, then `json`. */
  predicate JsonAt(path: string, i: int)
  {
    0 <= i && i + 5 <= |path| && path[i] != '\n' && path[i + 1..i + 5] == "json"
  }

  /** `re.search(".json", path)`: the unanchored search, trying each start in turn. */
  function SearchJson(path: string): bool
  {
    |path| >= 5 && (JsonAt(path, 0) || SearchJson(path[1..]))
  }

  /** A match in the rest of the path is a match one position later in the path. */
  lemma JsonAtShift(path: string, i: int)
    requires path != [] && 0 <= i
    ensures JsonAt(path[1..], i) <==> JsonAt(path, i + 1)
  {
    if 0 <= i && i + 5 <= |path[1..]| {
      assert path[1..][i] == path[i + 1];
      assert path[1..][i + 1..i + 5] == path[i + 2..i + 6];
    }
  }

  /** The unanchored search finds a match exactly when there is a position it can start at. */
  lemma {:induction false} SearchJsonIff(path: string)
    ensures SearchJson(path) <==> exists i :: JsonAt(path, i)
  {
    if |path| >= 5 {
      var rest := path[1..];
      SearchJsonIff(rest);
      if SearchJson(rest) {
        var i :| JsonAt(rest, i);
        JsonAtShift(path, i);
      }
      if exists i :: JsonAt(path, i) {
        var i :| JsonAt(path, i);
        if i > 0 {
          JsonAtShift(path, i - 1);
        }
      }
    } else {
      assert forall i :: !JsonAt(path, i);
    }
  }

  /** The two reserved names at the root that hold no aliases. */
  predicate Reserved(path: string)
  {
    Basename(path) == "skips.json" || Basename(path) == "counts.json"
  }

  /** A file whose keys are counted: found by the `.json` search and not reserved. */
  predicate Considered(path: string)
  {
    SearchJson(path) && !Reserved(path)
  }

  /** The number of files `counted` accepts whose map has the key `alias`. */
  function OccurrencesBy(tree: Tree, counted: string -> bool, alias: string): nat
  {
    if tree == [] then 0
    else
      var file := tree[|tree| - 1];
      OccurrencesBy(tree[..|tree| - 1], counted, alias) + (if counted(file.0) && alias in file.1 then 1 else 0)
  }

  /** Every key of a file `counted` accepts. */
  function KeysBy(tree: Tree, counted: string -> bool): set<string>
  {
    if tree == [] then {}
    else
      var file := tree[|tree| - 1];
      KeysBy(tree[..|tree| - 1], counted) + (if counted(file.0) then file.1.Keys else {})
  }

  /** The number of considered files whose map has the key `alias`. */
  function Occurrences(tree: Tree, alias: string): nat
  {
    OccurrencesBy(tree, Considered, alias)
  }

  /** Every key of a considered file. */
  function KeysIn(tree: Tree): set<string>
  {
    KeysBy(tree, Considered)
  }

  /** The result: every key once, in ascending order, with its number of files. */
  ghost function TotalCounts(tree: Tree): (r: seq<(string, nat)>)
    ensures |r| == |KeysIn(tree)|
  {
    var keys := Sorted(KeysIn(tree));
    seq(|keys|, j requires 0 <= j < |keys| => (keys[j], Occurrences(tree, keys[j])))
  }

  /** Adds one to the count of every key in `keys`. */
  method AddOne(counts: map<string, nat>, keys: set<string>) returns (r: map<string, nat>)
    ensures r.Keys == counts.Keys + keys
    ensures forall a :: a in r ==> r[a] == (if a in counts then counts[a] else 0) + (if a in keys then 1 else 0)
  {
    r := counts;
    var rest := keys;
    while rest != {}
      invariant rest <= keys
      invariant r.Keys == counts.Keys + (keys - rest)
      invariant forall a :: a in r ==> r[a] == (if a in counts then counts[a] else 0) + (if a in keys - rest then 1 else 0)
      decreases rest
    {
      var alias :| alias in rest;
      if alias !in r {
        r := r[alias := 0];
      }
      r := r[alias := r[alias] + 1];
      rest := rest - {alias};
    }
  }

  /** The counting loop over the files the walk yields. */
  method CountAll(tree: Tree) returns (counts: map<string, nat>)
    ensures counts.Keys == KeysIn(tree)
    ensures forall a :: a in counts ==> counts[a] == Occurrences(tree, a)
  {
    counts := map[];
    for i := 0 to |tree|
      invariant counts.Keys == KeysIn(tree[..i])
      invariant forall a :: a in counts ==> counts[a] == Occurrences(tree[..i], a)
      invariant forall a :: a !in counts ==> Occurrences(tree[..i], a) == 0
    {
      CountStep(tree, Considered, i);
      var (path, aliases) := tree[i];
      if SearchJson(path) && !Reserved(path) {
        counts := AddOne(counts, aliases.Keys);
      }
    }
    assert tree[..|tree|] == tree;
  }

  /** One more file of the walk adds its keys, and one to the count of each, when it is counted. */
  lemma CountStep(tree: Tree, counted: string -> bool, i: nat)
    requires i < |tree|
    ensures KeysBy(tree[..i + 1], counted) == KeysBy(tree[..i], counted) + (if counted(tree[i].0) then tree[i].1.Keys else {})
    ensures forall a :: (OccurrencesBy(tree[..i + 1], counted, a) ==
                          OccurrencesBy(tree[..i], counted, a) + (if counted(tree[i].0) && a in tree[i].1 then 1 else 0))
  {
    var t := tree[..i + 1];
    assert t[..|t| - 1] == tree[..i];
    assert t[|t| - 1] == tree[i];
  }

  /** `get_total_counts(root)` over the files the walk yields. */
  method GetTotalCounts(tree: Tree) returns (r: seq<(string, nat)>)
    ensures r == TotalCounts(tree)
  {
    var counts := CountAll(tree);
    var keys := SortSet(counts.Keys);
    assert forall j :: 0 <= j < |keys| ==> keys[j] in Elems(keys);
    r := seq(|keys|, j requires 0 <= j < |keys| => (keys[j], counts[keys[j]]));
  }

  /** A key of the result is a key of some counted file, and its count is at least one. */
  lemma CountedKeys(tree: Tree, alias: string)
    ensures alias in KeysIn(tree) <==> Occurrences(tree, alias) >= 1
    ensures alias in KeysIn(tree) <==> exists i :: 0 <= i < |tree| && Considered(tree[i].0) && alias in tree[i].1
  {
    KeysOccur(tree, Considered, alias);
    KeysWitness(tree, Considered, alias);
  }

  lemma {:induction false} KeysOccur(tree: Tree, counted: string -> bool, alias: string)
    ensures alias in KeysBy(tree, counted) <==> OccurrencesBy(tree, counted, alias) >= 1
  {
    if tree != [] {
      KeysOccur(tree[..|tree| - 1], counted, alias);
    }
  }

  lemma {:induction false} KeysWitness(tree: Tree, counted: string -> bool, alias: string)
    ensures alias in KeysBy(tree, counted) <==> exists i :: 0 <= i < |tree| && counted(tree[i].0) && alias in tree[i].1
  {
    if tree != [] {
      var init := tree[..|tree| - 1];
      KeysWitness(init, counted, alias);
      if exists i :: 0 <= i < |tree| && counted(tree[i].0) && alias in tree[i].1 {
        var i :| 0 <= i < |tree| && counted(tree[i].0) && alias in tree[i].1;
        if i < |init| {
          assert init[i] == tree[i];
        }
      }
      if exists i :: 0 <= i < |init| && counted(init[i].0) && alias in init[i].1 {
        var i :| 0 <= i < |init| && counted(init[i].0) && alias in init[i].1;
        assert tree[i] == init[i];
      }
    }
  }

  /** The result is ordered by key, holds every counted key, and each count is that of the key. */
  lemma CountsMeaning(tree: Tree)
    ensures var r := TotalCounts(tree);
            && (forall i, j :: 0 <= i < j < |r| ==> Less(r[i].0, r[j].0))
            && (forall i :: 0 <= i < |r| ==> r[i].0 in KeysIn(tree) && r[i].1 == Occurrences(tree, r[i].0) && r[i].1 >= 1)
            && (forall a :: a in KeysIn(tree) ==> exists i :: 0 <= i < |r| && r[i].0 == a)
  {
    CountsOrdered(tree);
    CountsRows(tree);
    CountsComplete(tree);
  }

  lemma CountsOrdered(tree: Tree)
    ensures var r := TotalCounts(tree);
            forall i, j :: 0 <= i < j < |r| ==> Less(r[i].0, r[j].0)
  {
    var keys := Sorted(KeysIn(tree));
    var r := TotalCounts(tree);
    assert forall i :: 0 <= i < |r| ==> r[i].0 == keys[i];
  }

  lemma CountsRows(tree: Tree)
    ensures var r := TotalCounts(tree);
            forall i :: 0 <= i < |r| ==> r[i].0 in KeysIn(tree) && r[i].1 == Occurrences(tree, r[i].0) && r[i].1 >= 1
  {
    var keys := Sorted(KeysIn(tree));
    var r := TotalCounts(tree);
    forall i | 0 <= i < |r| ensures r[i].0 in KeysIn(tree) && r[i].1 == Occurrences(tree, r[i].0) && r[i].1 >= 1 {
      assert r[i] == (keys[i], Occurrences(tree, keys[i]));
      assert keys[i] in Elems(keys);
      KeysOccur(tree, Considered, keys[i]);
    }
  }

  lemma CountsComplete(tree: Tree)
    ensures var r := TotalCounts(tree);
            forall a :: a in KeysIn(tree) ==> exists i :: 0 <= i < |r| && r[i].0 == a
  {
    var keys := Sorted(KeysIn(tree));
    var r := TotalCounts(tree);
    forall a | a in KeysIn(tree) ensures exists i :: 0 <= i < |r| && r[i].0 == a {
      assert a in Elems(keys);
      var i :| 0 <= i < |keys| && keys[i] == a;
      assert r[i].0 == a;
    }
  }

  /** Counts and keys of two parts of a walk add up, whichever files are counted. */
  lemma {:induction false} OccurrencesAppend(a: Tree, b: Tree, counted: string -> bool, alias: string)
    ensures OccurrencesBy(a + b, counted, alias) == OccurrencesBy(a, counted, alias) + OccurrencesBy(b, counted, alias)
    ensures KeysBy(a + b, counted) == KeysBy(a, counted) + KeysBy(b, counted)
    decreases |b|
  {
    if b == [] {
      assert a + b == a;
    } else {
      assert (a + b)[..|a + b| - 1] == a + b[..|b| - 1];
      assert (a + b)[|a + b| - 1] == b[|b| - 1];
      OccurrencesAppend(a, b[..|b| - 1], counted, alias);
    }
  }

  /** The walk's order does not matter: a reordering of the files gives the same counts. */
  lemma {:induction false} OccurrencesPermutation(a: Tree, b: Tree, counted: string -> bool, alias: string)
    requires multiset(a) == multiset(b)
    ensures OccurrencesBy(a, counted, alias) == OccurrencesBy(b, counted, alias) && KeysBy(a, counted) == KeysBy(b, counted)
    decreases |a|
  {
    if a != [] {
      var last := a[|a| - 1];
      var init := a[..|a| - 1];
      LastSplit(a);
      assert last in multiset(b);
      var k :| 0 <= k < |b| && b[k] == last;
      var rest := b[..k] + b[k + 1..];
      RemoveOne(init, last, b, k);
      OccurrencesPermutation(init, rest, counted, alias);
      OccurrencesAppend(b[..k], [last] + b[k + 1..], counted, alias);
      OccurrencesAppend([last], b[k + 1..], counted, alias);
      OccurrencesAppend(b[..k], b[k + 1..], counted, alias);
      OccurrencesAppend(init, [last], counted, alias);
      Rejoin(b, k);
      assert [last][..0] == [];
    }
  }

  lemma Rejoin<T>(b: seq<T>, k: nat)
    requires k < |b|
    ensures b[..k] + ([b[k]] + b[k + 1..]) == b
  {
    assert [b[k]] + b[k + 1..] == b[k..];
  }

  lemma RemoveOne<T>(init: seq<T>, last: T, b: seq<T>, k: nat)
    requires k < |b| && b[k] == last && multiset(init + [last]) == multiset(b)
    ensures multiset(init) == multiset(b[..k] + b[k + 1..])
  {
    var rest := b[..k] + b[k + 1..];
    assert b == b[..k] + [last] + b[k + 1..];
    assert multiset(b) == multiset(rest) + multiset([last]);
    assert multiset(init + [last]) == multiset(init) + multiset([last]);
    assert forall x :: multiset(init)[x] == (multiset(init) + multiset([last]))[x] - multiset([last])[x];
    assert forall x :: multiset(rest)[x] == (multiset(rest) + multiset([last]))[x] - multiset([last])[x];
  }

  lemma TotalCountsPermutation(a: Tree, b: Tree)
    requires multiset(a) == multiset(b)
    ensures TotalCounts(a) == TotalCounts(b)
  {
    var some := "";
    OccurrencesPermutation(a, b, Considered, some);
    forall alias { OccurrencesPermutation(a, b, Considered, alias); }
  }

  /** Adding a reserved file changes nothing. */
  lemma ReservedIgnored(tree: Tree, path: string, aliases: map<string, string>)
    requires Reserved(path)
    ensures TotalCounts(tree + [(path, aliases)]) == TotalCounts(tree)
  {
    var t := tree + [(path, aliases)];
    assert t[..|t| - 1] == tree;
    forall alias ensures Occurrences(t, alias) == Occurrences(tree, alias) {
    }
  }

  /** The search is not a suffix test: `.json` anywhere, with any first character, will do. */
  lemma NotASuffixTest(path: string)
    requires path == "a.jsonl"
    ensures SearchJson(path) && !EndsWith(path, ".json")
  {
    assert JsonAt(path, 1);
    SearchJsonIff(path);
    assert path[|path| - 1] == 'l';
  }

  lemma AnyCharacterBeforeJson(path: string)
    requires path == "/xjson"
    ensures SearchJson(path)
  {
    assert JsonAt(path, 1);
    SearchJsonIff(path);
  }
}
