/** `scripts/calculate_frequency.py`: the stand-alone counter that writes `counts.json`
    under the registry root. */
module FrequencyScript {
  import opened Wrappers
  import opened Strings
  import opened Paths
  import opened Metrics

  const CountsName := "counts.json"

  /** `os.path.join(root, "counts.json")`. */
  function CountsFile(root: string): string
  {
    Join(root, [CountsName])
  }

  /** The counts file lies directly in the root and is one of the reserved names. */
  lemma CountsFileReserved(root: string)
    ensures Basename(CountsFile(root)) == CountsName && Reserved(CountsFile(root))
  {
    var name := CountsName;
    assert name[0] == 'c';
    assert '/' !in name by {
      assert forall k :: 0 <= k < |name| ==> name[k] != '/';
    }
    assert [name][1..] == [];
    assert Join(root, [name]) == Join(JoinOne(root, name), []);
    assert CountsFile(root) == JoinOne(root, name);
    if root == [] || EndsWith(root, "/") {
      assert CountsFile(root) == root + name;
      BasenameOfChild(root, name);
    } else {
      assert CountsFile(root) == (root + "/") + name;
      BasenameOfChild(root + "/", name);
    }
  }

  /** `main` after argument parsing: `rootExists` is `os.path.exists(root)` and `tree` the
      walk of the root. The result is the path written and the ordered counts written to it.
      `sys` is not imported, so a missing root raises a NameError. */
  method Frequency(root: string, rootExists: bool, tree: Tree) returns (r: Result<(string, seq<(string, nat)>)>)
    ensures r.Failure? <==> root == "" || !rootExists
    ensures r.Failure? ==> r.error == SysMissing
    ensures r.Success? ==> r.value.0 == CountsFile(root) && r.value.1 == TotalCounts(tree)
  {
    if root == "" || !rootExists {
      return Failure(SysMissing);
    }
    var counts := GetTotalCounts(tree);
    r := Success((CountsFile(root), counts));
  }

  /** Counting again after the counts were written gives the same counts, in whatever order
      the walk meets the new file. */
  lemma RecountUnchanged(root: string, tree: Tree, written: map<string, string>, again: Tree)
    requires multiset(again) == multiset(tree + [(CountsFile(root), written)])
    ensures TotalCounts(again) == TotalCounts(tree)
  {
    CountsFileReserved(root);
    ReservedIgnored(tree, CountsFile(root), written);
    TotalCountsPermutation(again, tree + [(CountsFile(root), written)]);
  }
}
