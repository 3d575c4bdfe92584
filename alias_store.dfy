/** `cache_aliases`: the alias map of one image and tag, read from the cache when an entry
    exists, otherwise built from the image's diff and written as the entry. */
module AliasStore {
  import opened Wrappers
  import opened Strings
  import opened Filters
  import opened CachePaths

  /** The alias map of a list of unique paths: each path `keep` accepts under its basename,
      a later path replacing an earlier one with the same basename. */
  function AliasesBy(paths: seq<string>, keep: string -> bool): map<string, string>
  {
    if paths == [] then map[]
    else
      var m := AliasesBy(paths[..|paths| - 1], keep);
      var p := paths[|paths| - 1];
      if keep(p) then m[Basename(p) := p] else m
  }

  /** The alias map `cache_aliases` builds: only paths passing `include_path` are kept. */
  function Aliases(paths: seq<string>): map<string, string>
  {
    AliasesBy(paths, IncludePath)
  }

  /** No path after `paths[j]` that `keep` accepts has the same basename. */
  ghost predicate LastWithName(paths: seq<string>, keep: string -> bool, j: int)
    requires 0 <= j < |paths|
  {
    forall k :: j < k < |paths| && keep(paths[k]) ==> Basename(paths[k]) != Basename(paths[j])
  }

  /** Every key is the basename of its value, and every value is a kept path of the list. */
  lemma {:induction false} AliasKeys(paths: seq<string>, keep: string -> bool)
    ensures forall name :: name in AliasesBy(paths, keep) ==>
      name == Basename(AliasesBy(paths, keep)[name]) && keep(AliasesBy(paths, keep)[name]) &&
      AliasesBy(paths, keep)[name] in paths
  {
    if paths != [] {
      var init, p := paths[..|paths| - 1], paths[|paths| - 1];
      AliasKeys(init, keep);
      var m, m' := AliasesBy(paths, keep), AliasesBy(init, keep);
      assert m == if keep(p) then m'[Basename(p) := p] else m';
      assert forall x :: x in init ==> x in paths;
      forall name | name in m ensures name == Basename(m[name]) && keep(m[name]) && m[name] in paths {
        if !(keep(p) && name == Basename(p)) {
          assert name in m' && m[name] == m'[name];
          assert m'[name] in init;
        }
      }
    }
  }

  /** The basename of every kept path is a key. */
  lemma {:induction false} AliasComplete(paths: seq<string>, keep: string -> bool)
    ensures forall j :: 0 <= j < |paths| && keep(paths[j]) ==> Basename(paths[j]) in AliasesBy(paths, keep)
  {
    if paths != [] {
      var init := paths[..|paths| - 1];
      AliasComplete(init, keep);
      var m, m' := AliasesBy(paths, keep), AliasesBy(init, keep);
      assert m'.Keys <= m.Keys;
      forall j | 0 <= j < |paths| && keep(paths[j]) ensures Basename(paths[j]) in m {
        if j < |init| {
          assert init[j] == paths[j];
          assert Basename(init[j]) in m';
        }
      }
    }
  }

  /** A key maps to the last kept path with that basename. */
  lemma AliasLastWins(paths: seq<string>, keep: string -> bool)
    ensures forall j :: 0 <= j < |paths| && keep(paths[j]) && LastWithName(paths, keep, j) ==>
      Basename(paths[j]) in AliasesBy(paths, keep) && AliasesBy(paths, keep)[Basename(paths[j])] == paths[j]
  {
    forall j | 0 <= j < |paths| && keep(paths[j]) && LastWithName(paths, keep, j)
      ensures Basename(paths[j]) in AliasesBy(paths, keep) && AliasesBy(paths, keep)[Basename(paths[j])] == paths[j]
    {
      LastWinsAt(paths, keep, j);
    }
  }

  lemma {:induction false} LastWinsAt(paths: seq<string>, keep: string -> bool, j: nat)
    requires j < |paths| && keep(paths[j]) && LastWithName(paths, keep, j)
    ensures Basename(paths[j]) in AliasesBy(paths, keep) && AliasesBy(paths, keep)[Basename(paths[j])] == paths[j]
  {
    var init, p := paths[..|paths| - 1], paths[|paths| - 1];
    if j < |init| {
      assert forall k :: 0 <= k < |init| ==> init[k] == paths[k];
      assert LastWithName(init, keep, j);
      LastWinsAt(init, keep, j);
      assert keep(p) ==> Basename(p) != Basename(paths[j]);
    }
  }

  /** The same for the map `cache_aliases` builds: keys are basenames of included paths of
      the diff, and on a shared basename the last included path wins. */
  lemma AliasesMeaning(paths: seq<string>)
    ensures forall name :: name in Aliases(paths) ==>
      name == Basename(Aliases(paths)[name]) && IncludePath(Aliases(paths)[name]) && Aliases(paths)[name] in paths
    ensures forall j :: 0 <= j < |paths| && IncludePath(paths[j]) ==> Basename(paths[j]) in Aliases(paths)
    ensures forall j :: 0 <= j < |paths| && IncludePath(paths[j]) && LastWithName(paths, IncludePath, j) ==>
      Basename(paths[j]) in Aliases(paths) && Aliases(paths)[Basename(paths[j])] == paths[j]
  {
    AliasKeys(paths, IncludePath);
    AliasComplete(paths, IncludePath);
    AliasLastWins(paths, IncludePath);
  }

  /** The loop that fills the `aliases` dict; `cache_aliases` runs it with `keep` being `include_path`. */
  method AssembleAliases(paths: seq<string>, keep: string -> bool) returns (aliases: map<string, string>)
    ensures aliases == AliasesBy(paths, keep)
  {
    aliases := map[];
    for i := 0 to |paths|
      invariant aliases == AliasesBy(paths[..i], keep)
    {
      assert paths[..i + 1][..i] == paths[..i];
      var path := paths[i];
      var name := Basename(path);
      if keep(path) {
        aliases := aliases[name := path];
      }
    }
    assert paths[..|paths|] == paths;
  }

  /** How a lookup ends. */
  datatype Lookup =
    | ParseFailed(error: string)                           // the image does not parse
    | ExactHit(aliases: map<string, string>)               // the entry of this tag exists
    | SiblingHit                                           // an entry of another tag exists; which one is read is unspecified
    | DiffFailed(error: string)                            // the diff raised
    | Built(entry: string, aliases: map<string, string>)   // the entry is built from the diff and written

  /** The decision `cache_aliases` takes on the cache `files`; `diff` is the container diff
      (`ManifestGenerator().diff`), giving the unique paths of `image:tag` or an error, and
      `glob` is the search for entries of other tags. */
  function LookupIn(files: Files, image: string, layout: Layout, tag: string,
                    diff: string -> Result<seq<string>>, glob: Glob): Lookup
  {
    LookupBy(files, image, layout, tag, diff, IncludePath, glob)
  }

  /** The same decision with the filter `keep` in place of `include_path`. */
  function LookupBy(files: Files, image: string, layout: Layout, tag: string,
                    diff: string -> Result<seq<string>>, keep: string -> bool, glob: Glob): Lookup
  {
    match CacheEntry(image, layout, tag)
    case Failure(e) => ParseFailed(e)
    case Success(entry) =>
      if entry in files then ExactHit(files[entry])
      else if SearchEntries(glob, image, layout, files).value != {} then SiblingHit
      else
        match diff(image + ":" + tag)
        case Failure(e) => DiffFailed(e)
        case Success(paths) => Built(entry, AliasesBy(paths, keep))
  }

  /** The cache after the lookup: only a built entry is written. */
  function Written(files: Files, lookup: Lookup): Files
  {
    if lookup.Built? then files[lookup.entry := lookup.aliases] else files
  }

  predicate Succeeded(lookup: Lookup)
  {
    lookup.ExactHit? || lookup.SiblingHit? || lookup.Built?
  }

  /** The cache files and the JSON lists (such as the skips file) on disk. */
  class Disk {
    var files: Files
    var lists: map<string, seq<string>>

    constructor(files: Files, lists: map<string, seq<string>>)
      ensures this.files == files && this.lists == lists
    {
      this.files := files;
      this.lists := lists;
    }
  }

  /** The result `cache_aliases` gives on the given values. */
  predicate Answers(glob: Glob, files: Files, image: string, layout: Layout, lookup: Lookup,
                    r: Result<map<string, string>>)
  {
    && (r.Success? <==> Succeeded(lookup))
    && (lookup.ParseFailed? || lookup.DiffFailed? ==> r == Failure(lookup.error))
    && (lookup.ExactHit? || lookup.Built? ==> r == Success(lookup.aliases))
    && (lookup.SiblingHit? ==>
          SearchEntries(glob, image, layout, files).Success? && r.Success? &&
          exists m :: m in SearchEntries(glob, image, layout, files).value && m in files && r.value == files[m])
  }

  /** `cache_aliases(image, args, tag)`. */
  method CacheAliases(disk: Disk, image: string, layout: Layout, tag: string,
                      diff: string -> Result<seq<string>>, glob: Glob) returns (r: Result<map<string, string>>)
    modifies disk
    ensures var lookup := LookupIn(old(disk.files), image, layout, tag, diff, glob);
            && disk.files == Written(old(disk.files), lookup)
            && disk.lists == old(disk.lists)
            && Answers(glob, old(disk.files), image, layout, lookup, r)
  {
    var files := disk.files;
    ghost var lookup := LookupIn(files, image, layout, tag, diff, glob);
    var entry;
    r, entry := FindAliases(files, image, layout, tag, diff, IncludePath, glob);
    if entry.Some? {
      disk.files := files[entry.value := r.value];
    }
  }

  /** The lookup itself, on the cache's contents; `entry` is the file to write, if any. */
  method FindAliases(files: Files, image: string, layout: Layout, tag: string,
                     diff: string -> Result<seq<string>>, keep: string -> bool, glob: Glob)
    returns (r: Result<map<string, string>>, entry: Option<string>)
    ensures var lookup := LookupBy(files, image, layout, tag, diff, keep, glob);
            && Answers(glob, files, image, layout, lookup, r)
            && (entry.Some? <==> lookup.Built?)
            && (entry.Some? ==> entry.value == lookup.entry && r == Success(lookup.aliases))
  {
    ghost var lookup := LookupBy(files, image, layout, tag, diff, keep, glob);
    entry := None;
    var filename := CacheEntry(image, layout, tag);
    if filename.Failure? {
      assert lookup == ParseFailed(filename.error);
      return Failure(filename.error), None;
    }
    if filename.value in files {
      assert lookup == ExactHit(files[filename.value]);
      return Success(files[filename.value]), None;
    }
    var sibling := ReadSibling(files, image, layout, glob);
    if sibling.Some? {
      assert lookup == SiblingHit;
      return Success(sibling.value), None;
    }
    r, entry := BuildEntry(filename.value, image + ":" + tag, diff, keep);
  }

  /** `matches = search_cache_prefix(image, args)` and, when there is a match, the alias map
      of one of them. */
  method ReadSibling(files: Files, image: string, layout: Layout, glob: Glob) returns (found: Option<map<string, string>>)
    requires ParseImage(image).Success?
    ensures found.None? <==> SearchEntries(glob, image, layout, files).value == {}
    ensures found.Some? ==>
      exists m :: m in SearchEntries(glob, image, layout, files).value && m in files && found.value == files[m]
  {
    var matches := SearchEntries(glob, image, layout, files).value;
    if matches == {} {
      return None;
    }
    SearchEntriesMeaning(glob, image, layout, files);
    var aliases := ReadAny(files, matches);
    return Some(aliases);
  }

  /** No entry of the image is cached: ask for the image's manifest paths and build the
      aliases of the new entry from them. */
  method BuildEntry(filename: string, reference: string,
                    diff: string -> Result<seq<string>>, keep: string -> bool)
    returns (r: Result<map<string, string>>, entry: Option<string>)
    ensures diff(reference).Failure? ==> r == Failure(diff(reference).error) && entry == None
    ensures diff(reference).Success? ==>
              r == Success(AliasesBy(diff(reference).value, keep)) && entry == Some(filename)
  {
    var manifests := diff(reference);
    if manifests.Failure? {
      return Failure(manifests.error), None;
    }
    var aliases := AssembleAliases(manifests.value, keep);
    return Success(aliases), Some(filename);
  }

  /** Reads one of the matching entries; which one is left open. */
  method ReadAny(files: Files, matches: set<string>) returns (aliases: map<string, string>)
    requires matches != {} && matches <= files.Keys
    ensures exists m :: m in matches && m in files && aliases == files[m]
  {
    var m :| m in matches;
    aliases := files[m];
  }

  /** A built entry is the entry of this tag, no entry of any tag of the image existed before,
      and the rest of the cache is untouched; this holds under either glob. */
  lemma BuiltIsFresh(files: Files, image: string, layout: Layout, tag: string,
                     diff: string -> Result<seq<string>>, glob: Glob)
    requires LookupIn(files, image, layout, tag, diff, glob).Built?
    ensures var lookup, prefix := LookupIn(files, image, layout, tag, diff, glob), CachePrefix(image, layout).value;
            && lookup.entry == EntryName(prefix, tag)
            && diff(image + ":" + tag).Success?
            && lookup.aliases == Aliases(diff(image + ":" + tag).value)
            && (forall t :: '/' !in t ==> EntryName(prefix, t) !in files)
            && (forall p :: p != lookup.entry ==> (p in Written(files, lookup) <==> p in files))
            && (forall p :: p in files ==> Written(files, lookup)[p] == files[p])
  {
    SearchEntriesMeaning(glob, image, layout, files);
  }

  /** Looking up again after an entry was built finds that entry, with nothing more written. */
  lemma LookupAgain(files: Files, image: string, layout: Layout, tag: string,
                    diff: string -> Result<seq<string>>, diff': string -> Result<seq<string>>, glob: Glob)
    requires LookupIn(files, image, layout, tag, diff, glob).Built?
    ensures var lookup := LookupIn(files, image, layout, tag, diff, glob);
            var files' := Written(files, lookup);
            LookupIn(files', image, layout, tag, diff', glob) == ExactHit(lookup.aliases) &&
            Written(files', LookupIn(files', image, layout, tag, diff', glob)) == files'
  {
  }

  /** When the glob finds no entry of the image, the lookup of a tag without `/` goes to the
      diff. */
  lemma NothingCachedMeansDiff(files: Files, image: string, layout: Layout, tag: string,
                               diff: string -> Result<seq<string>>, glob: Glob)
    requires HasEntry(glob, image, layout, files) == Success(false) && '/' !in tag
    ensures var lookup := LookupIn(files, image, layout, tag, diff, glob);
            lookup.DiffFailed? || lookup.Built?
  {
    SearchEntriesMeaning(glob, image, layout, files);
  }

  /** As written, `cache_aliases("biocontainers/bowtie", args, tag)` on a cache holding only
      an entry of `biocontainers/bowtie2` returns that entry's aliases, writes nothing and
      never asks for the diff, although no entry of `bowtie` exists. */
  lemma SiblingServed(layout: Layout, namespace: string, repo: string, tag: string, files: Files,
                      aliases: map<string, string>, diff: string -> Result<seq<string>>)
    requires layout == Layout("/c", false, false, false)
    requires namespace == "biocontainers" && repo == "bowtie"
    requires files == map["/c/biocontainers/bowtie2:2.4.json" := aliases]
    ensures var lookup := LookupIn(files, namespace + "/" + repo, layout, tag, diff, AsWritten);
            && lookup == SiblingHit
            && Written(files, lookup) == files
            && forall r :: Answers(AsWritten, files, namespace + "/" + repo, layout, lookup, r) ==> r == Success(aliases)
  {
    var image := namespace + "/" + repo;
    SiblingImageMatches(layout, namespace, repo, files, aliases);
    SearchEntriesMeaning(AsWritten, image, layout, files);
    assert CacheEntry(image, layout, tag).value !in files;
  }

  /** With the corrected glob the same lookup of a tag without `/` goes to the diff: its
      paths become the entry of `bowtie`, or its failure is the answer. */
  lemma SiblingBuiltWhenCorrected(layout: Layout, namespace: string, repo: string, tag: string, files: Files,
                                  aliases: map<string, string>, diff: string -> Result<seq<string>>)
    requires layout == Layout("/c", false, false, false)
    requires namespace == "biocontainers" && repo == "bowtie" && '/' !in tag
    requires files == map["/c/biocontainers/bowtie2:2.4.json" := aliases]
    ensures var lookup := LookupIn(files, namespace + "/" + repo, layout, tag, diff, Corrected);
            lookup.DiffFailed? || lookup.Built?
  {
    SiblingNotTagEntry(layout, namespace, repo, files, aliases);
    NothingCachedMeansDiff(files, namespace + "/" + repo, layout, tag, diff, Corrected);
  }
}
