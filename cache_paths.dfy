/** Where the alias cache keeps an image: the prefix derived from the image name, the entry
    file of one tag, and the glob that looks for entries of any tag. */
module CachePaths {
  import opened Wrappers
  import opened Strings
  import opened Paths

  /** An image name cut at its `/`s; a part the name does not give is "". */
  datatype ImageRef = ImageRef(registry: string, namespace: string, repo: string)

  /** The options the cache functions read: the cache root and the three letter-prefix flags. */
  datatype Layout = Layout(root: string, orgPrefix: bool, registryPrefix: bool, repoPrefix: bool)

  /** The cache tree: each entry file with the alias table stored in it. */
  type Files = map<string, map<string, string>>

  /** The parts of a parsed image: none holds a `/`. */
  predicate PlainRef(ref: ImageRef)
  {
    '/' !in ref.registry && '/' !in ref.namespace && '/' !in ref.repo
  }

  function ParseError(image: string): string
  {
    "Cannot parse " + image + ", not properly formatted with namespace."
  }

  /** The three-way split of `get_cache_prefix`: no `/` names a repository in the default
      namespace, one `/` a namespace and repository, two a registry as well; more is fatal. */
  function ParseImage(image: string): (r: Result<ImageRef>)
    ensures r.Success? <==> Count(image, '/') <= 2
    ensures r.Failure? ==> r.error == ParseError(image)
  {
    var n := Count(image, '/');
    if n == 0 then
      Success(ImageRef("", "", image))
    else if n <= 2 then
      var parts := Split(image, '/');
      SplitSmall(image, '/');
      if n == 1 then Success(ImageRef("", parts[0], parts[1]))
      else Success(ImageRef(parts[0], parts[1], parts[2]))
    else
      Failure(ParseError(image))
  }

  /** No `/` gives only a repository, one gives namespace and repository, two give all three
      parts; no part holds a `/`, and the parts rejoined with `/` are the name. */
  lemma ParseImageMeaning(image: string)
    ensures var r := ParseImage(image);
            && (r.Success? ==> PlainRef(r.value))
            && (r.Success? && Count(image, '/') == 0 ==> r.value == ImageRef("", "", image))
            && (r.Success? && Count(image, '/') == 1 ==>
                  r.value.registry == "" && r.value.namespace + "/" + r.value.repo == image)
            && (r.Success? && Count(image, '/') == 2 ==>
                  r.value.registry + "/" + r.value.namespace + "/" + r.value.repo == image)
  {
    var n := Count(image, '/');
    if 1 <= n <= 2 {
      SplitSmall(image, '/');
    }
  }

  /** Parsing gives back the parts a name was made of. */
  lemma ParseImageInverse(registry: string, namespace: string, repo: string)
    requires '/' !in registry && '/' !in namespace && '/' !in repo
    ensures ParseImage(namespace + "/" + repo) == Success(ImageRef("", namespace, repo))
    ensures ParseImage(registry + "/" + namespace + "/" + repo) == Success(ImageRef(registry, namespace, repo))
  {
    var two, three := [namespace, repo], [registry, namespace, repo];
    assert JoinWith(two[1..], '/') == repo;
    assert JoinWith(two, '/') == namespace + "/" + repo;
    SplitJoin(two, '/');
    assert three[1..] == two;
    assert JoinWith(three, '/') == registry + "/" + namespace + "/" + repo;
    SplitJoin(three, '/');
  }

  /** `component.lower()[0]` for a non-empty component (ASCII lower-casing). */
  function Letter(component: string): string
    requires component != ""
  {
    [Lower(component[0])]
  }

  /** The default layout: root, registry, namespace, repository. */
  function DefaultPrefix(root: string, ref: ImageRef): string
  {
    Join(root, [ref.registry, ref.namespace, ref.repo])
  }

  /** The `if`/`elif` chain: the lettered layout of the first flag whose component is
      non-empty, or `None` when no branch applies. */
  function LetteredPrefix(layout: Layout, ref: ImageRef): Option<string>
  {
    if layout.orgPrefix && ref.namespace != "" then
      Some(Join(layout.root, [ref.registry, Letter(ref.namespace), ref.namespace, ref.repo]))
    else if layout.registryPrefix && ref.registry != "" then
      Some(Join(layout.root, [Letter(ref.registry), ref.registry, ref.namespace, ref.repo]))
    else if layout.repoPrefix && ref.repo != "" then
      Some(Join(layout.root, [ref.registry, ref.namespace, Letter(ref.repo), ref.repo]))
    else
      None
  }

  /** The prefix of a parsed image: the lettered layout when one applies and is non-empty,
      else the default. */
  function RefPrefix(layout: Layout, ref: ImageRef): string
  {
    var lettered := LetteredPrefix(layout, ref);
    if lettered.None? || lettered.value == "" then DefaultPrefix(layout.root, ref) else lettered.value
  }

  /** `get_cache_prefix`. */
  function CachePrefix(image: string, layout: Layout): (r: Result<string>)
    ensures r.Success? <==> ParseImage(image).Success?
    ensures r.Failure? ==> r.error == ParseError(image)
  {
    match ParseImage(image)
    case Failure(e) => Failure(e)
    case Success(ref) => Success(RefPrefix(layout, ref))
  }

  /** A join in which some segment is non-empty is itself non-empty. */
  lemma {:induction false} JoinNonEmpty(a: string, segments: seq<string>, k: nat)
    requires k < |segments| && segments[k] != ""
    ensures Join(a, segments) != ""
    decreases |segments|
  {
    var next := JoinOne(a, segments[0]);
    if k == 0 {
      JoinKeepsNonEmpty(next, segments[1..]);
    } else {
      JoinNonEmpty(next, segments[1..], k - 1);
    }
  }

  lemma {:induction false} JoinKeepsNonEmpty(a: string, segments: seq<string>)
    requires a != ""
    ensures Join(a, segments) != ""
    decreases |segments|
  {
    if segments != [] {
      JoinKeepsNonEmpty(JoinOne(a, segments[0]), segments[1..]);
    }
  }

  /** The emptiness test never fires on a lettered layout: the letter is a non-empty segment. */
  lemma LetteredNonEmpty(layout: Layout, ref: ImageRef)
    requires LetteredPrefix(layout, ref).Some?
    ensures LetteredPrefix(layout, ref).value != ""
  {
    if layout.orgPrefix && ref.namespace != "" {
      JoinNonEmpty(layout.root, [ref.registry, Letter(ref.namespace), ref.namespace, ref.repo], 1);
    } else if layout.registryPrefix && ref.registry != "" {
      JoinNonEmpty(layout.root, [Letter(ref.registry), ref.registry, ref.namespace, ref.repo], 0);
    } else {
      JoinNonEmpty(layout.root, [ref.registry, ref.namespace, Letter(ref.repo), ref.repo], 2);
    }
  }

  /** The roots the layout lemmas are stated for: non-empty, without a trailing `/`, such
      as `/c` or `/data/cache`. `--root` accepts any path; for `/`, `cache/` or an empty root
      `os.path.join` puts no extra `/` after the root, which those lemmas do not cover. */
  predicate PlainRoot(root: string)
  {
    root != "" && !EndsWith(root, "/")
  }

  /** The default layout puts `/` before every non-empty part and skips the empty ones; an
      empty repository leaves a trailing `/`. */
  lemma DefaultPrefixShape(root: string, ref: ImageRef)
    requires PlainRoot(root) && PlainRef(ref)
    ensures DefaultPrefix(root, ref) ==
      root + Dirs([ref.registry, ref.namespace, ref.repo]) + (if ref.repo == "" then "/" else "")
  {
    JoinPlain(root, [ref.registry, ref.namespace, ref.repo]);
  }

  /** A component never holds `/`, so neither does its letter. */
  lemma LetterPlain(component: string)
    requires component != "" && '/' !in component
    ensures '/' !in Letter(component)
  {
    assert component[0] != '/';
  }

  /** With the org flag and a namespace, one letter segment goes in just before the namespace
      of the default layout. */
  lemma OrgLetterInserted(layout: Layout, ref: ImageRef)
    requires PlainRoot(layout.root) && PlainRef(ref)
    requires layout.orgPrefix && ref.namespace != ""
    ensures var d := DefaultPrefix(layout.root, ref);
            var k := |layout.root| + |Dirs([ref.registry])|;
            k <= |d| && StartsWith(d[k..], "/" + ref.namespace) &&
            RefPrefix(layout, ref) == d[..k] + "/" + Letter(ref.namespace) + d[k..]
  {
    LetterPlain(ref.namespace);
    OrgBranch(layout, ref);
    InsertSecond(layout.root, ref.registry, Letter(ref.namespace), ref.namespace, ref.repo);
  }

  lemma OrgBranch(layout: Layout, ref: ImageRef)
    requires layout.orgPrefix && ref.namespace != ""
    ensures RefPrefix(layout, ref) == Join(layout.root, [ref.registry, Letter(ref.namespace), ref.namespace, ref.repo])
  {
    LetteredNonEmpty(layout, ref);
  }

  lemma InsertSecond(root: string, a: string, l: string, b: string, c: string)
    requires PlainRoot(root) && '/' !in a && '/' !in b && '/' !in c
    requires l != "" && '/' !in l && b != ""
    ensures var d := Join(root, [a, b, c]);
            var k := |root| + |Dirs([a])|;
            k <= |d| && StartsWith(d[k..], "/" + b) && Join(root, [a, l, b, c]) == d[..k] + "/" + l + d[k..]
  {
    var front, back := [a], [b, c];
    assert front + back == [a, b, c];
    assert front + [l] + back == [a, l, b, c];
    JoinInsert(root, front, l, back);
    DirsStartsWith(back, Trail(back));
  }

  /** With the registry flag and a registry (the org branch not taken), the letter segment
      goes in right after the root. */
  lemma RegistryLetterInserted(layout: Layout, ref: ImageRef)
    requires PlainRoot(layout.root) && PlainRef(ref)
    requires !(layout.orgPrefix && ref.namespace != "")
    requires layout.registryPrefix && ref.registry != ""
    ensures var d := DefaultPrefix(layout.root, ref);
            var k := |layout.root|;
            k <= |d| && StartsWith(d[k..], "/" + ref.registry) &&
            RefPrefix(layout, ref) == d[..k] + "/" + Letter(ref.registry) + d[k..]
  {
    LetterPlain(ref.registry);
    RegistryBranch(layout, ref);
    InsertFirst(layout.root, Letter(ref.registry), ref.registry, ref.namespace, ref.repo);
  }

  lemma RegistryBranch(layout: Layout, ref: ImageRef)
    requires !(layout.orgPrefix && ref.namespace != "") && layout.registryPrefix && ref.registry != ""
    ensures RefPrefix(layout, ref) == Join(layout.root, [Letter(ref.registry), ref.registry, ref.namespace, ref.repo])
  {
    LetteredNonEmpty(layout, ref);
  }

  lemma InsertFirst(root: string, l: string, a: string, b: string, c: string)
    requires PlainRoot(root) && '/' !in a && '/' !in b && '/' !in c
    requires l != "" && '/' !in l && a != ""
    ensures var d := Join(root, [a, b, c]);
            var k := |root|;
            k <= |d| && StartsWith(d[k..], "/" + a) && Join(root, [l, a, b, c]) == d[..k] + "/" + l + d[k..]
  {
    var front: seq<string>, back := [], [a, b, c];
    assert front + back == back;
    assert front + [l] + back == [l, a, b, c];
    JoinInsert(root, front, l, back);
    assert Dirs(front) == "";
    DirsStartsWith(back, Trail(back));
  }

  /** Plain segments whose first is non-empty give a path that starts with `/` and that segment. */
  lemma DirsStartsWith(back: seq<string>, t: string)
    requires back != [] && back[0] != ""
    ensures StartsWith(Dirs(back) + t, "/" + back[0])
  {
    var x := "/" + back[0];
    assert Dirs(back) + t == x + (Dirs(back[1..]) + t);
  }

  /** With the repository flag and a repository (neither earlier branch taken), the letter
      segment goes in just before the repository. */
  lemma RepoLetterInserted(layout: Layout, ref: ImageRef)
    requires PlainRoot(layout.root) && PlainRef(ref)
    requires !(layout.orgPrefix && ref.namespace != "")
    requires !(layout.registryPrefix && ref.registry != "")
    requires layout.repoPrefix && ref.repo != ""
    ensures var d := DefaultPrefix(layout.root, ref);
            var k := |layout.root| + |Dirs([ref.registry, ref.namespace])|;
            k <= |d| && d[k..] == "/" + ref.repo &&
            RefPrefix(layout, ref) == d[..k] + "/" + Letter(ref.repo) + d[k..]
  {
    LetterPlain(ref.repo);
    RepoBranch(layout, ref);
    InsertThird(layout.root, ref.registry, ref.namespace, Letter(ref.repo), ref.repo);
  }

  lemma RepoBranch(layout: Layout, ref: ImageRef)
    requires !(layout.orgPrefix && ref.namespace != "") && !(layout.registryPrefix && ref.registry != "")
    requires layout.repoPrefix && ref.repo != ""
    ensures RefPrefix(layout, ref) == Join(layout.root, [ref.registry, ref.namespace, Letter(ref.repo), ref.repo])
  {
    LetteredNonEmpty(layout, ref);
  }

  lemma InsertThird(root: string, a: string, b: string, l: string, c: string)
    requires PlainRoot(root) && '/' !in a && '/' !in b && '/' !in c
    requires l != "" && '/' !in l && c != ""
    ensures var d := Join(root, [a, b, c]);
            var k := |root| + |Dirs([a, b])|;
            k <= |d| && d[k..] == "/" + c && Join(root, [a, b, l, c]) == d[..k] + "/" + l + d[k..]
  {
    var front, back := [a, b], [c];
    JoinInsert(root, front, l, back);
    assert front + back == [a, b, c];
    assert front + [l] + back == [a, b, l, c];
    assert Dirs(back) + Trail(back) == "/" + c;
  }

  /** When the flag that is set finds its component empty (or no flag is set), the default
      layout is used. */
  lemma FallbackToDefault(layout: Layout, ref: ImageRef)
    requires !(layout.orgPrefix && ref.namespace != "")
    requires !(layout.registryPrefix && ref.registry != "")
    requires !(layout.repoPrefix && ref.repo != "")
    ensures RefPrefix(layout, ref) == DefaultPrefix(layout.root, ref)
  {
  }

  /** The entry file name of one image and tag (`get_cache_entry`). */
  function EntryName(prefix: string, tag: string): string
  {
    prefix + EntrySuffix(tag)
  }

  function EntrySuffix(tag: string): string
  {
    ":" + tag + ".json"
  }

  function CacheEntry(image: string, layout: Layout, tag: string): (r: Result<string>)
    ensures r.Success? <==> ParseImage(image).Success?
  {
    match CachePrefix(image, layout)
    case Failure(e) => Failure(e)
    case Success(prefix) => Success(EntryName(prefix, tag))
  }

  /** The entry extends the prefix and ends in `.json`. */
  lemma EntryShape(prefix: string, tag: string)
    ensures StartsWith(EntryName(prefix, tag), prefix) && EndsWith(EntryName(prefix, tag), ".json")
  {
    var e, x := EntryName(prefix, tag), EntrySuffix(tag);
    assert e[..|prefix|] == prefix;
    assert e[|e| - 5..] == x[|x| - 5..] == ".json";
  }

  /** A tag without `/` adds no directory level: the entry sits in the prefix's directory. */
  lemma EntryStaysInDirectory(prefix: string, tag: string)
    requires '/' !in tag
    ensures Basename(EntryName(prefix, tag)) == Basename(prefix) + EntrySuffix(tag)
    ensures DirPart(EntryName(prefix, tag)) == DirPart(prefix)
  {
    SameDirectory(prefix, EntrySuffix(tag));
  }

  lemma SameDirectory(p: string, x: string)
    requires '/' !in x
    ensures Basename(p + x) == Basename(p) + x && DirPart(p + x) == DirPart(p)
  {
    BasenameAppend(p, x);
    var k := |p| - |Basename(p)|;
    assert DirPart(p + x) == (p + x)[..k];
    assert (p + x)[..k] == p[..k];
  }

  /** Python's `glob.glob(stem + "*.json")` as a test on one file: the name is the stem, then
      text without `/`, then `.json`; a name starting with `.` is passed over when the
      pattern's own file part starts with the wildcard. */
  predicate GlobMatch(stem: string, path: string)
  {
    |stem| + 5 <= |path| && StartsWith(path, stem) && EndsWith(path, ".json") &&
    '/' !in path[|stem|..|path| - 5] &&
    (Basename(stem) != "" || path[|stem|] != '.')
  }

  function GlobFiles(stem: string, files: Files): set<string>
  {
    set p | p in files && GlobMatch(stem, p)
  }

  /** Every glob match is a cache file that starts with the stem and ends in `.json`. */
  lemma GlobFilesMeaning(stem: string, files: Files)
    ensures forall p :: p in GlobFiles(stem, files) ==> p in files && StartsWith(p, stem) && EndsWith(p, ".json")
  {
  }

  /** `search_cache_prefix` as written: every file matching `prefix*.json`. */
  function SearchCachePrefix(image: string, layout: Layout, files: Files): (r: Result<set<string>>)
    ensures r.Success? <==> ParseImage(image).Success?
  {
    match CachePrefix(image, layout)
    case Failure(e) => Failure(e)
    case Success(prefix) => Success(GlobFiles(prefix, files))
  }

  /** Every match is a cache file that starts with the image's prefix and ends in `.json`. */
  lemma SearchCachePrefixMeaning(image: string, layout: Layout, files: Files)
    requires ParseImage(image).Success?
    ensures forall p :: p in SearchCachePrefix(image, layout, files).value ==>
      p in files && StartsWith(p, CachePrefix(image, layout).value) && EndsWith(p, ".json")
  {
    GlobFilesMeaning(CachePrefix(image, layout).value, files);
  }

  /** `has_cache_entry` as written: the same glob finds something. */
  function HasCacheEntry(image: string, layout: Layout, files: Files): (r: Result<bool>)
    ensures r.Success? <==> ParseImage(image).Success?
    ensures r.Success? ==>
      (r.value <==> SearchCachePrefix(image, layout, files).value != {})
  {
    match SearchCachePrefix(image, layout, files)
    case Failure(e) => Failure(e)
    case Success(matches) => Success(|matches| > 0)
  }

  /** An existing entry of any tag without `/` is found by the glob. */
  lemma EntryImpliesHasCacheEntry(image: string, layout: Layout, files: Files, tag: string)
    requires ParseImage(image).Success? && '/' !in tag
    requires CacheEntry(image, layout, tag).value in files
    ensures HasCacheEntry(image, layout, files) == Success(true)
  {
    var prefix := CachePrefix(image, layout).value;
    var e := EntryName(prefix, tag);
    EntryMatches(prefix, tag);
    GlobNarrower(prefix, e);
    assert e in GlobFiles(prefix, files);
    WithPrefix(image, layout, files, prefix);
  }

  /** The search meant for "an entry of this image for any tag": the glob `prefix:*.json`. */
  function SearchTagEntries(image: string, layout: Layout, files: Files): (r: Result<set<string>>)
    ensures r.Success? <==> ParseImage(image).Success?
  {
    match CachePrefix(image, layout)
    case Failure(e) => Failure(e)
    case Success(prefix) => Success(GlobFiles(prefix + ":", files))
  }

  /** The corrected search finds cache files, and a subset of what the written glob finds. */
  lemma SearchTagEntriesNarrower(image: string, layout: Layout, files: Files)
    requires ParseImage(image).Success?
    ensures SearchTagEntries(image, layout, files).value <= SearchCachePrefix(image, layout, files).value
    ensures SearchTagEntries(image, layout, files).value <= files.Keys
  {
    var prefix := CachePrefix(image, layout).value;
    forall p | p in GlobFiles(prefix + ":", files) ensures p in GlobFiles(prefix, files) {
      GlobNarrower(prefix, p);
    }
  }

  /** A match of `prefix:*.json` is a match of `prefix*.json`. */
  lemma GlobNarrower(prefix: string, p: string)
    requires GlobMatch(prefix + ":", p)
    ensures GlobMatch(prefix, p)
  {
    var m := p[|prefix|..|p| - 5];
    assert p[..|prefix + ":"|][..|prefix|] == p[..|prefix|];
    assert m == [':'] + p[|prefix| + 1..|p| - 5];
    assert p[|prefix|] == ':';
  }

  function HasTagEntry(image: string, layout: Layout, files: Files): (r: Result<bool>)
    ensures r.Success? <==> ParseImage(image).Success?
    ensures r.Success? ==> (r.value <==> SearchTagEntries(image, layout, files).value != {})
  {
    match SearchTagEntries(image, layout, files)
    case Failure(e) => Failure(e)
    case Success(matches) => Success(|matches| > 0)
  }

  /** The corrected search finds something exactly when the entry of some tag exists. */
  lemma HasTagEntryIff(image: string, layout: Layout, files: Files)
    requires ParseImage(image).Success?
    ensures HasTagEntry(image, layout, files).value <==>
      exists tag :: '/' !in tag && EntryName(CachePrefix(image, layout).value, tag) in files
  {
    var prefix := CachePrefix(image, layout).value;
    assert SearchTagEntries(image, layout, files).value == GlobFiles(prefix + ":", files);
    if GlobFiles(prefix + ":", files) != {} {
      TagGlobFinds(prefix, files);
    }
    if exists tag :: '/' !in tag && EntryName(prefix, tag) in files {
      TagGlobComplete(prefix, files);
    }
  }

  lemma TagGlobFinds(prefix: string, files: Files)
    requires GlobFiles(prefix + ":", files) != {}
    ensures exists tag :: '/' !in tag && EntryName(prefix, tag) in files
  {
    var p :| p in GlobFiles(prefix + ":", files);
    MatchIsEntry(prefix, p);
  }

  lemma TagGlobComplete(prefix: string, files: Files)
    requires exists tag :: '/' !in tag && EntryName(prefix, tag) in files
    ensures GlobFiles(prefix + ":", files) != {}
  {
    var tag :| '/' !in tag && EntryName(prefix, tag) in files;
    EntryMatches(prefix, tag);
    assert EntryName(prefix, tag) in GlobFiles(prefix + ":", files);
  }

  /** Which glob looks for the entries of an image: `prefix*.json` as `search_cache_prefix`
      and `has_cache_entry` are written, or the corrected `prefix:*.json`. */
  datatype Glob = AsWritten | Corrected

  /** The entries of the image the chosen glob finds. */
  function SearchEntries(glob: Glob, image: string, layout: Layout, files: Files): (r: Result<set<string>>)
    ensures r.Success? <==> ParseImage(image).Success?
  {
    if glob == AsWritten then SearchCachePrefix(image, layout, files) else SearchTagEntries(image, layout, files)
  }

  /** Whether the chosen glob finds an entry of the image. */
  function HasEntry(glob: Glob, image: string, layout: Layout, files: Files): (r: Result<bool>)
    ensures r.Success? <==> ParseImage(image).Success?
    ensures r.Success? ==> (r.value <==> SearchEntries(glob, image, layout, files).value != {})
  {
    if glob == AsWritten then HasCacheEntry(image, layout, files) else HasTagEntry(image, layout, files)
  }

  /** Under either glob, the matches are cache files, and when there are none no tag of the
      image has an entry. */
  lemma SearchEntriesMeaning(glob: Glob, image: string, layout: Layout, files: Files)
    requires ParseImage(image).Success?
    ensures SearchEntries(glob, image, layout, files).value <= files.Keys
    ensures SearchEntries(glob, image, layout, files).value == {} ==>
      forall tag :: '/' !in tag ==> EntryName(CachePrefix(image, layout).value, tag) !in files
  {
    SearchTagEntriesNarrower(image, layout, files);
    HasTagEntryIff(image, layout, files);
    GlobFilesMeaning(CachePrefix(image, layout).value, files);
  }

  /** Every match of `prefix:*.json` is the entry of the tag between `:` and `.json`. */
  lemma MatchIsEntry(prefix: string, p: string)
    requires GlobMatch(prefix + ":", p)
    ensures '/' !in p[|prefix| + 1..|p| - 5] && EntryName(prefix, p[|prefix| + 1..|p| - 5]) == p
  {
    var stem := prefix + ":";
    var tag := p[|stem|..|p| - 5];
    assert p == p[..|stem|] + tag + p[|p| - 5..];
    assert p[..|stem|] == stem && p[|p| - 5..] == ".json";
    assert p == prefix + ":" + tag + ".json";
  }

  /** The entry of a tag without `/` matches `prefix:*.json`. */
  lemma EntryMatches(prefix: string, tag: string)
    requires '/' !in tag
    ensures GlobMatch(prefix + ":", EntryName(prefix, tag))
  {
    var stem, e := prefix + ":", EntryName(prefix, tag);
    assert e == stem + tag + ".json";
    assert e[..|stem|] == stem && e[|stem|..|e| - 5] == tag && e[|e| - 5..] == ".json";
    BasenameAppend(prefix, ":");
  }

  /** `ensure_unique_prefix`: the number of flags set is at most one. */
  function EnsureUniquePrefix(orgPrefix: bool, registryPrefix: bool, repoPrefix: bool): (r: bool)
    ensures r <==> !(orgPrefix && registryPrefix) && !(orgPrefix && repoPrefix) && !(registryPrefix && repoPrefix)
  {
    (if orgPrefix then 1 else 0) + (if registryPrefix then 1 else 0) + (if repoPrefix then 1 else 0) <= 1
  }

  // Examples of the layouts and of the two searches.

  /** `biocontainers/<repo>` under `/c` in the default layout. */
  lemma ExampleDefaultLayout(layout: Layout, namespace: string, repo: string)
    requires layout == Layout("/c", false, false, false)
    requires namespace == "biocontainers" && repo != "" && '/' !in repo
    ensures CachePrefix(namespace + "/" + repo, layout) == Success("/c/biocontainers/" + repo)
  {
    var none := "";
    var ref := ImageRef(none, namespace, repo);
    ParseImageInverse(none, namespace, repo);
    ExampleDirs(layout.root, ref);
    Spell(layout.root, namespace, repo);
  }

  /** The same image with the org letter. */
  lemma ExampleOrgLayout(layout: Layout, namespace: string, repo: string)
    requires layout == Layout("/c", true, false, false)
    requires namespace == "biocontainers" && repo != "" && '/' !in repo
    ensures CachePrefix(namespace + "/" + repo, layout) == Success("/c/b/biocontainers/" + repo)
  {
    var none := "";
    var ref := ImageRef(none, namespace, repo);
    ParseImageInverse(none, namespace, repo);
    OrgLetterInserted(layout, ref);
    ExampleDirs(layout.root, ref);
    var d := layout.root + ("/" + namespace + ("/" + repo));
    assert Dirs([ref.registry]) == "";
    assert d[..|layout.root|] == layout.root;
    assert d[|layout.root|..] == "/" + namespace + ("/" + repo);
    assert Letter(namespace) == "b";
    Spell(layout.root, namespace, repo);
  }

  lemma ExampleDirs(root: string, ref: ImageRef)
    requires PlainRoot(root) && PlainRef(ref)
    requires ref.registry == "" && ref.namespace != "" && ref.repo != ""
    ensures DefaultPrefix(root, ref) == root + ("/" + ref.namespace + ("/" + ref.repo))
  {
    var segs := [ref.registry, ref.namespace, ref.repo];
    DefaultPrefixShape(root, ref);
    assert Dirs(segs[2..]) == "/" + ref.repo;
    assert Dirs(segs[1..]) == "/" + ref.namespace + Dirs(segs[2..]);
    assert Dirs(segs) == Dirs(segs[1..]);
  }

  /** Proof step: the example strings spelled out, apart from the layout proofs. */
  lemma Spell(root: string, namespace: string, repo: string)
    requires root == "/c" && namespace == "biocontainers"
    ensures root + ("/" + namespace + ("/" + repo)) == "/c/biocontainers/" + repo
    ensures root + "/" + "b" + ("/" + namespace + ("/" + repo)) == "/c/b/biocontainers/" + repo
  {
  }

  /** Proof step: once the prefix is known, the entry names and both searches follow from it. */
  lemma WithPrefix(image: string, layout: Layout, files: Files, prefix: string)
    requires CachePrefix(image, layout) == Success(prefix)
    ensures forall tag :: CacheEntry(image, layout, tag) == Success(EntryName(prefix, tag))
    ensures HasCacheEntry(image, layout, files) == Success(GlobFiles(prefix, files) != {})
    ensures HasTagEntry(image, layout, files) == Success(GlobFiles(prefix + ":", files) != {})
  {
  }

  /** The glob `prefix*.json` takes the entry of another image whose name extends this one's:
      `biocontainers/bowtie` counts as cached once `biocontainers/bowtie2` is, although no
      entry of `bowtie` exists; the corrected search does not. */
  lemma SiblingImageMatches(layout: Layout, namespace: string, repo: string, files: Files,
                             aliases: map<string, string>)
    requires layout == Layout("/c", false, false, false)
    requires namespace == "biocontainers" && repo == "bowtie"
    requires files == map["/c/biocontainers/bowtie2:2.4.json" := aliases]
    ensures HasCacheEntry(namespace + "/" + repo, layout, files) == Success(true)
    ensures forall tag :: CacheEntry(namespace + "/" + repo, layout, tag).value !in files
  {
    var image, prefix := namespace + "/" + repo, "/c/biocontainers/" + repo;
    ExampleDefaultLayout(layout, namespace, repo);
    WithPrefix(image, layout, files, prefix);
    SiblingGlob(repo, files, aliases);
  }

  /** The corrected search finds no entry for `biocontainers/bowtie` in the same tree. */
  lemma SiblingNotTagEntry(layout: Layout, namespace: string, repo: string, files: Files,
                            aliases: map<string, string>)
    requires layout == Layout("/c", false, false, false)
    requires namespace == "biocontainers" && repo == "bowtie"
    requires files == map["/c/biocontainers/bowtie2:2.4.json" := aliases]
    ensures HasTagEntry(namespace + "/" + repo, layout, files) == Success(false)
  {
    var image, prefix := namespace + "/" + repo, "/c/biocontainers/" + repo;
    ExampleDefaultLayout(layout, namespace, repo);
    WithPrefix(image, layout, files, prefix);
    SiblingGlob(repo, files, aliases);
    HasTagEntryIff(image, layout, files);
  }

  lemma SiblingGlob(repo: string, files: Files, aliases: map<string, string>)
    requires repo == "bowtie"
    requires files == map["/c/biocontainers/bowtie2:2.4.json" := aliases]
    ensures GlobFiles("/c/biocontainers/" + repo, files) != {}
    ensures forall tag :: EntryName("/c/biocontainers/" + repo, tag) !in files
  {
    SiblingKey("/c/biocontainers/" + repo, files, aliases);
  }

  lemma SiblingKey(prefix: string, files: Files, aliases: map<string, string>)
    requires prefix == "/c/biocontainers/bowtie"
    requires files == map["/c/biocontainers/bowtie2:2.4.json" := aliases]
    ensures GlobFiles(prefix, files) != {}
    ensures forall tag :: EntryName(prefix, tag) !in files
  {
    var key := "/c/biocontainers/bowtie2:2.4.json";
    SiblingGlobbed(prefix, key);
    assert key in GlobFiles(prefix, files);
    forall tag ensures EntryName(prefix, tag) !in files {
      assert EntryName(prefix, tag)[|prefix|] != key[|prefix|];
    }
  }

  lemma SiblingGlobbed(prefix: string, key: string)
    requires prefix == "/c/biocontainers/bowtie" && key == "/c/biocontainers/bowtie2:2.4.json"
    ensures GlobMatch(prefix, key)
  {
    assert key[..|prefix|] == prefix;
    assert key[|prefix|..|key| - 5] == "2:2.4";
    assert key[|key| - 5..] == ".json";
    BasenameOfChild("/c/biocontainers/", "bowtie");
    assert "/c/biocontainers/" + "bowtie" == prefix;
  }
}
