/** The filter that decides which paths of an image's diff become aliases. */
module Filters {
  import opened Strings

  /** The sixteen endings that mark a path as not an executable, in the source's order. */
  const Endings: seq<string> := [
    "post-link.sh", ".debug", "pre-link.sh", ".so", ".dll", ".gz", ".dna", ".dox",
    ".db", ".db3", ".config", ".defaults", ".dat", ".dn", ".d", ".md"
  ]

  /** The suffix loop with its early return: some ending of `endings` ends `path`. */
  function EndsWithAny(path: string, endings: seq<string>): bool
  {
    if endings == [] then false
    else if EndsWith(path, endings[0]) then true
    else EndsWithAny(path, endings[1..])
  }

  /** The loop is true exactly when some ending of the list ends the path. */
  lemma {:induction false} EndsWithAnyIff(path: string, endings: seq<string>)
    ensures EndsWithAny(path, endings) <==> exists i :: 0 <= i < |endings| && EndsWith(path, endings[i])
  {
    if endings != [] {
      EndsWithAnyIff(path, endings[1..]);
      assert forall i :: 1 <= i < |endings| ==> endings[i] == endings[1..][i - 1];
    }
  }

  /** `include_path`: the checks in the order the source makes them, each one returning early. */
  function IncludePath(path: string): bool
  {
    if EndsWithAny(path, Endings) then false
    else if StartsWith(Basename(path), "_") then false
    else if StartsWith(Basename(path), ".") then false
    else if Contains(path, "[") || Contains(path, "]") || Contains(path, "README") then false
    else !Contains(path, "sbin") && !Contains(path, "/usr/bin") && !StartsWith(path, "/bin")
  }

  // The four exclusion rules, each on its own.

  ghost predicate NotAnExecutable(path: string)
  {
    exists e :: e in Endings && EndsWith(path, e)
  }

  ghost predicate HiddenOrPrivate(path: string)
  {
    Basename(path) != "" && (Basename(path)[0] == '_' || Basename(path)[0] == '.')
  }

  ghost predicate Marked(path: string)
  {
    '[' in path || ']' in path || Contains(path, "README")
  }

  ghost predicate SystemBinary(path: string)
  {
    Contains(path, "sbin") || Contains(path, "/usr/bin") || StartsWith(path, "/bin")
  }

  /** A path is kept exactly when no rule excludes it, so the order of the checks does not matter. */
  lemma IncludePathIffNoRule(path: string)
    ensures IncludePath(path) <==>
      !NotAnExecutable(path) && !HiddenOrPrivate(path) && !Marked(path) && !SystemBinary(path)
  {
    EndingsRule(path);
    HiddenRule(path);
    CharContains(path, '[');
    CharContains(path, ']');
  }

  lemma EndingsRule(path: string)
    ensures NotAnExecutable(path) <==> EndsWithAny(path, Endings)
  {
    EndsWithAnyIff(path, Endings);
    if NotAnExecutable(path) {
      var e :| e in Endings && EndsWith(path, e);
      var i :| 0 <= i < |Endings| && Endings[i] == e;
    }
  }

  lemma HiddenRule(path: string)
    ensures HiddenOrPrivate(path) <==> StartsWith(Basename(path), "_") || StartsWith(Basename(path), ".")
  {
    var b := Basename(path);
    if b != "" { assert b[..1] == [b[0]]; }
  }

  /** For one character `t in s` is plain membership. */
  lemma CharContains(s: string, c: char)
    ensures Contains(s, [c]) <==> c in s
  {
    if c in s {
      var i :| 0 <= i < |s| && s[i] == c;
      assert s[i..i + 1] == [c];
      ContainsAt(s, [c], i);
    }
    if Contains(s, [c]) {
      var i := ContainsWitness(s, [c]);
      assert s[i] == c;
    }
  }

  // The examples the system documents.

  /** An ordinary tool under `/usr/local/bin` is kept: no rule excludes it. */
  lemma ExampleKept(p: string)
    requires p == "/usr/local/bin/samtools"
    ensures IncludePath(p)
  {
    forall i | 0 <= i < |Endings| ensures !EndsWith(p, Endings[i]) {
      assert Endings[i][|Endings[i]| - 1] != 's' || Endings[i] == ".defaults";
    }
    assert !NotAnExecutable(p);
    assert !HiddenOrPrivate(p);
    KeptNotMarked(p);
    KeptNotSystem(p);
    IncludePathIffNoRule(p);
  }

  lemma KeptNotMarked(p: string)
    requires p == "/usr/local/bin/samtools"
    ensures !Marked(p)
  {
    assert forall i :: 0 <= i < |p| ==> p[i] != '[' && p[i] != ']' && p[i] != 'R';
    assert "README"[0] == 'R';
    NotContainsFirst(p, "README");
  }

  lemma KeptNotSystem(p: string)
    requires p == "/usr/local/bin/samtools"
    ensures !SystemBinary(p)
  {
    KeptNoSbin(p);
    KeptNoUsrBin(p);
    assert p[1] != "/bin"[1];
  }

  lemma KeptNoSbin(p: string)
    requires p == "/usr/local/bin/samtools"
    ensures !Contains(p, "sbin")
  {
    var t := "sbin";
    assert t[0] == 's' && t[1] == 'b' && t[2] == 'i';
    assert forall i :: 0 <= i < |p| - 2 ==> !(p[i] == 's' && p[i + 1] == 'b' && p[i + 2] == 'i');
    NotContainsTriple(p, t, 0);
  }

  lemma KeptNoUsrBin(p: string)
    requires p == "/usr/local/bin/samtools"
    ensures !Contains(p, "/usr/bin")
  {
    var t := "/usr/bin";
    assert t[3] == 'r' && t[4] == '/' && t[5] == 'b';
    assert forall i :: 0 <= i < |p| - 2 ==> !(p[i] == 'r' && p[i + 1] == '/' && p[i + 2] == 'b');
    NotContainsTriple(p, t, 3);
  }

  lemma ExampleSystemBin()
    ensures !IncludePath("/usr/bin/ls")
  {
    ContainsAt("/usr/bin/ls", "/usr/bin", 0);
  }

  lemma ExampleReadme()
    ensures !IncludePath("README.md")
  {
    var p := "README.md";
    assert Endings[15] == ".md";
    assert p[|p| - 3..] == ".md";
    EndingExcluded(p, 15);
  }

  lemma ExampleLibrary()
    ensures !IncludePath("/opt/lib/libfoo.so")
  {
    var p := "/opt/lib/libfoo.so";
    assert Endings[3] == ".so";
    assert p[|p| - 3..] == ".so";
    EndingExcluded(p, 3);
  }

  /** Any one of the endings excludes the path, whatever the later checks say. */
  lemma EndingExcluded(path: string, i: nat)
    requires i < |Endings| && EndsWith(path, Endings[i])
    ensures !IncludePath(path)
  {
    EndsWithAnyIff(path, Endings);
  }

  lemma ExamplePrivate()
    ensures !IncludePath("/opt/bin/_internal")
  {
    var p := "/opt/bin/_internal";
    BasenameOfChild("/opt/bin/", "_internal");
    assert "/opt/bin/" + "_internal" == p;
    assert StartsWith("_internal", "_");
    PrivateExcluded(p);
  }

  /** A basename starting with `_` excludes the path, whatever the earlier checks say. */
  lemma PrivateExcluded(path: string)
    requires StartsWith(Basename(path), "_")
    ensures !IncludePath(path)
  {
  }
}
