/** `update`: one pass over a batch of containers that fills the cache, remembers the images
    that cannot be cached in a skip set, and keeps the skips file on disk. */
module Batch {
  import opened Wrappers
  import opened Strings
  import opened Paths
  import opened StringOrder
  import opened CachePaths
  import opened Tags
  import opened AliasStore

  const UniquePrefixMessage := "Only one type of prefix is allowed!"
  /** What `tags[0]` raises on an empty tag answer. */
  const IndexErrorMessage := "list index out of range"

  /** The collaborators of one run: the cache layout, the skips file, the registry's tag
      answer per image (or the exception the request raised), the tag-ordering pipeline, the container diff, and the glob that
      `has_cache_entry` and `search_cache_prefix` use. */
  datatype Env = Env(layout: Layout, skipsPath: string, tagSource: string -> Result<string>,
                     order: seq<string> -> Ordering, diff: string -> Result<seq<string>>, glob: Glob)

  /** The state a run carries from image to image: the disk, the skip set, the tag lines
      fetched per image, and the error that stopped the run, if any. */
  datatype Run = Run(files: Files, lists: map<string, seq<string>>, skips: set<string>,
                     uris: map<string, seq<string>>, error: Option<string>)

  /** The skips file: the one given, else `skips.json` under the root. */
  function SkipsPath(root: string, skipsFile: string): string
  {
    if skipsFile == "" then Join(root, ["skips.json"]) else skipsFile
  }

  /** `"%s/%s" % (namespace, x)` for every container when a namespace is given. */
  function Qualify(namespace: string, containers: seq<string>): (r: seq<string>)
    ensures |r| == |containers|
    ensures forall i :: 0 <= i < |r| ==> r[i] == if namespace == "" then containers[i] else namespace + "/" + containers[i]
  {
    if namespace == "" then containers
    else seq(|containers|, i requires 0 <= i < |containers| => namespace + "/" + containers[i])
  }

  /** The state before the loop: the skip set is read from the skips file when it exists. */
  ghost function Start(files: Files, lists: map<string, seq<string>>, skipsPath: string): Run
  {
    Run(files, lists, if skipsPath in lists then Elems(lists[skipsPath]) else {}, map[], None)
  }

  /** One image of the loop: nothing once the run has stopped; otherwise the image (the
      container without its tag) is visited with what the cache search and the registry say.
      The request is outside every `try`, so its exception stops the run. */
  ghost function Step(run: Run, container: string, env: Env): Run
  {
    if run.error.Some? then run
    else
      var image := StripTag(container);
      Visit(run, image, HasEntry(env.glob, image, env.layout, run.files), Fetched(env.tagSource(image)), env)
  }

  /** The image is passed over when cached, already fetched or skipped; otherwise its tags
      are requested, their lines recorded and the selection decides. A name that does not
      parse, or a request that raises, stops the run. */
  ghost function Visit(run: Run, image: string, cached: Result<bool>, fetched: Result<seq<string>>, env: Env): Run
  {
    match cached
    case Failure(e) => run.(error := Some(e))
    case Success(hit) =>
      if hit || image in run.uris || image in run.skips then run
      else
        match fetched
        case Failure(e) => run.(error := Some(e))
        case Success(tags) => Choose(run.(uris := run.uris[image := tags]), image, Select(tags, env.order), env)
  }

  /** What the tag selection means for the skip set. */
  ghost function Choose(run: Run, image: string, selection: Selection, env: Env): Run
  {
    match selection
    case NoTagLines => run.(error := Some(IndexErrorMessage))
    case Unauthorized => run.(skips := run.skips + {image})
    case OrderingFailed => run
    case NothingOrdered => run.(skips := run.skips + {image})
    case Selected(tag) => Store(run, image, LookupIn(run.files, image, env.layout, tag, env.diff, env.glob), env)
  }

  /** After `cache_aliases`: a failure adds the image to the skips, and the skips are saved. */
  ghost function Store(run: Run, image: string, lookup: Lookup, env: Env): Run
  {
    var skips := if Succeeded(lookup) then run.skips else run.skips + {image};
    run.(files := Written(run.files, lookup), skips := skips, lists := run.lists[env.skipsPath := Sorted(skips)])
  }

  /** The loop over `containers`, in order. */
  ghost function RunAll(run: Run, containers: seq<string>, env: Env): Run
  {
    if containers == [] then run
    else Step(RunAll(run, containers[..|containers| - 1], env), containers[|containers| - 1], env)
  }

  /** `list(set(containers))`: the distinct containers in some order. */
  method Enumerate(containers: set<string>) returns (batch: seq<string>)
    ensures Elems(batch) == containers && |batch| == |containers|
  {
    batch := [];
    var rest := containers;
    while rest != {}
      invariant Elems(batch) + rest == containers && Elems(batch) !! rest
      invariant |batch| + |rest| == |containers|
      decreases rest
    {
      var x :| x in rest;
      batch := batch + [x];
      rest := rest - {x};
    }
  }

  /** The body of the loop for one container. */
  method ProcessImage(disk: Disk, container: string, env: Env, skips: set<string>,
                      uris: map<string, seq<string>>)
    returns (skips': set<string>, uris': map<string, seq<string>>, error: Option<string>)
    modifies disk
    ensures Run(disk.files, disk.lists, skips', uris', error) ==
            Step(Run(old(disk.files), old(disk.lists), skips, uris, None), container, env)
  {
    ghost var run := Run(disk.files, disk.lists, skips, uris, None);
    skips', uris', error := skips, uris, None;
    var image := container;
    if ':' in image {
      image := image[..IndexOf(image, ':')];
    }
    assert image == StripTag(container);
    var cached := HasEntry(env.glob, image, env.layout, disk.files);
    if cached.Failure? {
      return skips, uris, Some(cached.error);
    }
    if cached.value || image in uris || image in skips {
      return;
    }
    var answer := env.tagSource(image);
    if answer.Failure? {
      return skips, uris, Some(answer.error);
    }
    var tags := TagLines(answer.value);
    uris' := uris[image := tags];
    assert Step(run, container, env) == Choose(run.(uris := uris'), image, Select(tags, env.order), env);
    skips', error := SelectAndStore(disk, image, tags, env, skips, uris');
  }

  /** The rest of the loop body once the tag lines are in: the checks on the lines and the
      pipeline's answer, then `cache_aliases` and saving the skips. */
  method SelectAndStore(disk: Disk, image: string, tags: seq<string>, env: Env, skips: set<string>,
                        uris: map<string, seq<string>>) returns (skips': set<string>, error: Option<string>)
    modifies disk
    ensures Run(disk.files, disk.lists, skips', uris, error) ==
            Choose(Run(old(disk.files), old(disk.lists), skips, uris, None), image, Select(tags, env.order), env)
  {
    ghost var run := Run(disk.files, disk.lists, skips, uris, None);
    ChooseCases(run, image, Select(tags, env.order), env);
    skips', error := skips, None;
    if tags == [] {
      error := Some(IndexErrorMessage);
      return;
    }
    if Contains(tags[0], UnauthorizedMark) {
      skips' := skips + {image};
      return;
    }
    var ordered := env.order(tags);
    if ordered.OrderError? {
      return;
    }
    if ordered.tags == [] {
      skips' := skips + {image};
      return;
    }
    var tag := ordered.tags[0];
    assert Select(tags, env.order) == Selected(tag);
    var result := CacheAliases(disk, image, env.layout, tag, env.diff, env.glob);
    if result.Failure? {
      skips' := skips + {image};
    }
    var persisted := SortSet(skips');
    disk.lists := disk.lists[env.skipsPath := persisted];
  }

  /** The loop of `update` over the qualified images, stopping at the first error. */
  method RunImages(disk: Disk, images: seq<string>, env: Env, skips0: set<string>)
    returns (skips: set<string>, uris: map<string, seq<string>>, error: Option<string>)
    modifies disk
    ensures Run(disk.files, disk.lists, skips, uris, error) ==
            RunAll(Run(old(disk.files), old(disk.lists), skips0, map[], None), images, env)
  {
    ghost var start := Run(disk.files, disk.lists, skips0, map[], None);
    skips, uris, error := skips0, map[], None;
    var i := 0;
    while i < |images| && error.None?
      invariant 0 <= i <= |images|
      invariant Run(disk.files, disk.lists, skips, uris, error) == RunAll(start, images[..i], env)
      invariant error.Some? ==> RunAll(start, images, env) == RunAll(start, images[..i], env)
    {
      skips, uris, error := ProcessImage(disk, images[i], env, skips, uris);
      RunLast(start, images[..i], images[i], env);
      Extend(images, i);
      assert Run(disk.files, disk.lists, skips, uris, error) == RunAll(start, images[..i + 1], env);
      if error.Some? {
        ErrorIsFinal(start, images[..i + 1], images[i + 1..], env);
        Whole(images, i + 1);
      }
      i := i + 1;
    }
    if i == |images| {
      assert images[..i] == images;
    }
  }

  /** `update(containers, root, namespace, org_prefix, registry_prefix, repo_prefix,
      skips_file)`: an empty `namespace` or `skipsFile` stands for none given. Returns the
      tag lines fetched per image and the skip set; `batch` is the order the set was
      enumerated in. */
  method Update(disk: Disk, containers: set<string>, namespace: string, layout: Layout,
                skipsFile: string, tagSource: string -> Result<string>, order: seq<string> -> Ordering,
                diff: string -> Result<seq<string>>, glob: Glob)
    returns (r: Result<(map<string, seq<string>>, set<string>)>, batch: seq<string>)
    modifies disk
    ensures Elems(batch) == containers && |batch| == |containers|
    ensures !EnsureUniquePrefix(layout.orgPrefix, layout.registryPrefix, layout.repoPrefix) ==>
      r == Failure(UniquePrefixMessage) && disk.files == old(disk.files) && disk.lists == old(disk.lists)
    ensures EnsureUniquePrefix(layout.orgPrefix, layout.registryPrefix, layout.repoPrefix) ==>
      var skipsPath := SkipsPath(layout.root, skipsFile);
      var final := RunAll(Start(old(disk.files), old(disk.lists), skipsPath), Qualify(namespace, batch),
                          Env(layout, skipsPath, tagSource, order, diff, glob));
      && disk.files == final.files
      && (final.error.Some? ==> r == Failure(final.error.value) && disk.lists == final.lists)
      && (final.error.None? ==> r == Success((final.uris, final.skips)) &&
                                disk.lists == final.lists[skipsPath := Sorted(final.skips)])
  {
    batch := Enumerate(containers);
    if !EnsureUniquePrefix(layout.orgPrefix, layout.registryPrefix, layout.repoPrefix) {
      return Failure(UniquePrefixMessage), batch;
    }
    var images := Qualify(namespace, batch);
    var skipsPath := SkipsPath(layout.root, skipsFile);
    var env := Env(layout, skipsPath, tagSource, order, diff, glob);
    var skips: set<string> := {};
    if skipsPath in disk.lists {
      skips := set x | x in disk.lists[skipsPath];
    }
    ghost var start := Start(disk.files, disk.lists, skipsPath);
    assert start == Run(disk.files, disk.lists, skips, map[], None);
    var uris, error;
    skips, uris, error := RunImages(disk, images, env, skips);
    if error.Some? {
      return Failure(error.value), batch;
    }
    var persisted := SortSet(skips);
    disk.lists := disk.lists[skipsPath := persisted];
    return Success((uris, skips)), batch;
  }

  /** Proof step: `RunAll` unfolded once at the end of a prefix of the containers. */
  lemma RunLast(run: Run, containers: seq<string>, c: string, env: Env)
    ensures RunAll(run, containers + [c], env) == Step(RunAll(run, containers, env), c, env)
  {
    assert (containers + [c])[..|containers|] == containers;
  }

  /** Proof step: a prefix one longer is the prefix and the next element. */
  lemma Extend(xs: seq<string>, i: nat)
    requires i < |xs|
    ensures xs[..i + 1] == xs[..i] + [xs[i]]
  {
  }

  /** Proof step: a sequence is its prefix and the rest. */
  lemma Whole(xs: seq<string>, i: nat)
    requires i <= |xs|
    ensures xs[..i] + xs[i..] == xs
  {
  }

  /** Running a concatenation runs the first part, then the second from where it ended. */
  lemma {:induction false} RunAppend(run: Run, a: seq<string>, b: seq<string>, env: Env)
    ensures RunAll(run, a + b, env) == RunAll(RunAll(run, a, env), b, env)
    decreases |b|
  {
    if b == [] {
      assert a + b == a;
    } else {
      assert (a + b)[..|a + b| - 1] == a + b[..|b| - 1];
      assert (a + b)[|a + b| - 1] == b[|b| - 1];
      RunAppend(run, a, b[..|b| - 1], env);
    }
  }

  /** A stopped run stays as it is. */
  lemma {:induction false} Stopped(run: Run, containers: seq<string>, env: Env)
    requires run.error.Some?
    ensures RunAll(run, containers, env) == run
    decreases |containers|
  {
    if containers != [] {
      Stopped(run, containers[..|containers| - 1], env);
    }
  }

  /** Nothing happens after the error that stops a run. */
  lemma ErrorIsFinal(run: Run, a: seq<string>, b: seq<string>, env: Env)
    requires RunAll(run, a, env).error.Some?
    ensures RunAll(run, a + b, env) == RunAll(run, a, env)
  {
    RunAppend(run, a, b, env);
    Stopped(RunAll(run, a, env), b, env);
  }

  /** An image is passed over when some tag of it is cached, its tags were already fetched
      in this run, or it is in the skip set. */
  lemma NoRepeats(run: Run, container: string, env: Env)
    requires run.error.None?
    requires var image := StripTag(container);
             && ParseImage(image).Success?
             && (HasEntry(env.glob, image, env.layout, run.files) == Success(true) || image in run.uris || image in run.skips)
    ensures Step(run, container, env) == run
  {
  }

  /** Once an image has been looked at without stopping the run, any later container with
      the same image changes nothing. */
  lemma SeenOnce(run: Run, container: string, other: string, env: Env)
    requires run.error.None? && Step(run, container, env).error.None?
    requires StripTag(other) == StripTag(container)
    ensures Step(Step(run, container, env), other, env) == Step(run, container, env)
  {
    var image, next := StripTag(container), Step(run, container, env);
    var cached := HasEntry(env.glob, image, env.layout, run.files);
    VisitRecords(run, image, cached, Fetched(env.tagSource(image)), env);
    NoRepeats(next, other, env);
  }

  /** A visit that does not stop the run leaves the image cached, fetched or skipped. */
  lemma VisitRecords(run: Run, image: string, cached: Result<bool>, fetched: Result<seq<string>>, env: Env)
    requires Visit(run, image, cached, fetched, env).error.None?
    ensures var r := Visit(run, image, cached, fetched, env);
            cached.Success? && (cached.value || image in r.uris || image in r.skips)
  {
  }

  /** What one image does when it is looked at: a request that raises stops the run with
      nothing recorded; otherwise its tag lines are recorded; an `UNAUTHORIZED` answer or an
      empty ordering adds it to the skips with nothing written; a failing ordering changes
      nothing more; an empty answer stops the run; a chosen tag ends with the sorted skips
      saved to the skips file. */
  lemma StepCases(run: Run, container: string, env: Env)
    requires run.error.None?
    requires var image := StripTag(container);
             HasEntry(env.glob, image, env.layout, run.files) == Success(false) && image !in run.uris && image !in run.skips
    ensures var image, r := StripTag(container), Step(run, container, env);
            match env.tagSource(image)
            case Failure(e) => r == run.(error := Some(e))
            case Success(text) =>
              var tags := TagLines(text);
              var sel := Select(tags, env.order);
              && r.uris == run.uris[image := tags]
              && (sel == Unauthorized || sel == NothingOrdered ==>
                    r == run.(uris := r.uris, skips := run.skips + {image}))
              && (sel == OrderingFailed ==> r == run.(uris := r.uris))
              && (sel == NoTagLines ==> r == run.(uris := r.uris, error := Some(IndexErrorMessage)))
              && (sel.Selected? ==> r.error.None? && r.lists == run.lists[env.skipsPath := Sorted(r.skips)])
  {
    var image := StripTag(container);
    VisitCases(run, image, Fetched(env.tagSource(image)), env);
  }

  lemma VisitCases(run: Run, image: string, fetched: Result<seq<string>>, env: Env)
    requires run.error.None? && image !in run.uris && image !in run.skips
    ensures var r := Visit(run, image, Success(false), fetched, env);
            match fetched
            case Failure(e) => r == run.(error := Some(e))
            case Success(tags) =>
              var sel := Select(tags, env.order);
              && r.uris == run.uris[image := tags]
              && (sel == Unauthorized || sel == NothingOrdered ==>
                    r == run.(uris := r.uris, skips := run.skips + {image}))
              && (sel == OrderingFailed ==> r == run.(uris := r.uris))
              && (sel == NoTagLines ==> r == run.(uris := r.uris, error := Some(IndexErrorMessage)))
              && (sel.Selected? ==> r.error.None? && r.lists == run.lists[env.skipsPath := Sorted(r.skips)])
  {
    if fetched.Success? {
      var tags := fetched.value;
      ChooseCases(run.(uris := run.uris[image := tags]), image, Select(tags, env.order), env);
    }
  }

  /** The outcome rules for a given selection. */
  lemma ChooseCases(run: Run, image: string, sel: Selection, env: Env)
    ensures var r := Choose(run, image, sel, env);
            && r.uris == run.uris
            && (sel == Unauthorized || sel == NothingOrdered ==> r == run.(skips := run.skips + {image}))
            && (sel == OrderingFailed ==> r == run)
            && (sel == NoTagLines ==> r == run.(error := Some(IndexErrorMessage)))
            && (sel.Selected? ==> r.error == run.error && r.lists == run.lists[env.skipsPath := Sorted(r.skips)])
  {
  }

  /** A chosen tag without `/` always reaches the diff, because no entry of the image is
      cached: the diff of `image:tag` decides between a new entry and a skip. */
  lemma SelectedCase(run: Run, container: string, env: Env, tag: string)
    requires run.error.None?
    requires var image := StripTag(container);
             && HasEntry(env.glob, image, env.layout, run.files) == Success(false) && image !in run.uris && image !in run.skips
             && env.tagSource(image).Success?
             && Select(TagLines(env.tagSource(image).value), env.order) == Selected(tag)
    requires '/' !in tag
    ensures var image, r := StripTag(container), Step(run, container, env);
            var entry := EntryName(CachePrefix(image, env.layout).value, tag);
            match env.diff(image + ":" + tag)
            case Failure(_) => r.files == run.files && r.skips == run.skips + {image}
            case Success(paths) => r.files == run.files[entry := Aliases(paths)] && r.skips == run.skips
  {
    var image := StripTag(container);
    NothingCachedMeansDiff(run.files, image, env.layout, tag, env.diff, env.glob);
    var seen := run.(uris := run.uris[image := TagLines(env.tagSource(image).value)]);
    assert Step(run, container, env) == Store(seen, image, LookupIn(run.files, image, env.layout, tag, env.diff, env.glob), env);
  }

  /** The skip set and the fetched images only grow. */
  lemma VisitGrows(run: Run, image: string, cached: Result<bool>, fetched: Result<seq<string>>, env: Env)
    ensures var r := Visit(run, image, cached, fetched, env);
            run.skips <= r.skips && run.uris.Keys <= r.uris.Keys
  {
  }

  lemma {:induction false} RunGrows(run: Run, containers: seq<string>, env: Env)
    ensures var r := RunAll(run, containers, env);
            run.skips <= r.skips && run.uris.Keys <= r.uris.Keys
    decreases |containers|
  {
    if containers != [] {
      var init, c := containers[..|containers| - 1], containers[|containers| - 1];
      RunGrows(run, init, env);
      var before := RunAll(run, init, env);
      if before.error.None? {
        var image := StripTag(c);
        VisitGrows(before, image, HasEntry(env.glob, image, env.layout, before.files), Fetched(env.tagSource(image)), env);
      }
    }
  }

  /** The skips file holds no image outside the skip set. */
  ghost predicate Persisted(run: Run, skipsPath: string)
  {
    skipsPath in run.lists ==> Elems(run.lists[skipsPath]) <= run.skips
  }

  /** A visit keeps the skips file within the skip set and touches no other JSON list. */
  lemma VisitPersists(run: Run, image: string, cached: Result<bool>, fetched: Result<seq<string>>, env: Env)
    requires Persisted(run, env.skipsPath)
    ensures var r := Visit(run, image, cached, fetched, env);
            Persisted(r, env.skipsPath) &&
            forall k :: k != env.skipsPath ==> (k in r.lists <==> k in run.lists) && (k in run.lists ==> r.lists[k] == run.lists[k])
  {
  }

  /** Whatever the batch and wherever the run stops, the skips file names only skipped
      images, and the other JSON lists are as they were. */
  lemma {:induction false} RunPersists(files: Files, lists: map<string, seq<string>>, containers: seq<string>, env: Env)
    ensures var r := RunAll(Start(files, lists, env.skipsPath), containers, env);
            Persisted(r, env.skipsPath) &&
            forall k :: k != env.skipsPath ==> (k in r.lists <==> k in lists) && (k in lists ==> r.lists[k] == lists[k])
    decreases |containers|
  {
    if containers != [] {
      var init, c := containers[..|containers| - 1], containers[|containers| - 1];
      RunPersists(files, lists, init, env);
      var before := RunAll(Start(files, lists, env.skipsPath), init, env);
      if before.error.None? {
        var image := StripTag(c);
        VisitPersists(before, image, HasEntry(env.glob, image, env.layout, before.files), Fetched(env.tagSource(image)), env);
      }
    }
  }

  /** As written, `update` passes over `biocontainers/bowtie` once the cache holds an entry
      of `biocontainers/bowtie2`: its tags are never fetched and nothing changes. */
  lemma SiblingPassedOver(run: Run, namespace: string, repo: string, env: Env, aliases: map<string, string>)
    requires run.error.None? && env.glob == AsWritten && env.layout == Layout("/c", false, false, false)
    requires namespace == "biocontainers" && repo == "bowtie"
    requires run.files == map["/c/biocontainers/bowtie2:2.4.json" := aliases]
    ensures Step(run, namespace + "/" + repo, env) == run
  {
    var image := namespace + "/" + repo;
    NoColon(namespace, repo);
    SiblingImageMatches(env.layout, namespace, repo, run.files, aliases);
  }

  /** With the corrected glob the same image is looked at: its tags are requested, and the
      lines of the answer are recorded or the request's exception stops the run. */
  lemma SiblingLookedAt(run: Run, namespace: string, repo: string, env: Env, aliases: map<string, string>)
    requires run.error.None? && env.glob == Corrected && env.layout == Layout("/c", false, false, false)
    requires namespace == "biocontainers" && repo == "bowtie"
    requires run.files == map["/c/biocontainers/bowtie2:2.4.json" := aliases]
    requires namespace + "/" + repo !in run.uris && namespace + "/" + repo !in run.skips
    ensures var image := namespace + "/" + repo;
            match env.tagSource(image)
            case Failure(e) => Step(run, image, env) == run.(error := Some(e))
            case Success(text) => Step(run, image, env).uris == run.uris[image := TagLines(text)]
  {
    var image := namespace + "/" + repo;
    NoColon(namespace, repo);
    SiblingNotTagEntry(env.layout, namespace, repo, run.files, aliases);
    if env.tagSource(image).Success? {
      var tags := TagLines(env.tagSource(image).value);
      ChooseCases(run.(uris := run.uris[image := tags]), image, Select(tags, env.order), env);
    }
  }

  lemma NoColon(namespace: string, repo: string)
    requires namespace == "biocontainers" && repo == "bowtie"
    ensures StripTag(namespace + "/" + repo) == namespace + "/" + repo
  {
    var image := namespace + "/" + repo;
    assert forall i :: 0 <= i < |image| ==> image[i] != ':';
  }
}
