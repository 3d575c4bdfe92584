# Container executable discovery, modelled in Dafny

The system finds the executables a container image provides and keeps an on-disk cache of
them. Each cached entry is a JSON file that maps an alias (an executable's file name) to its
path inside the image. The system also derives a table of how many cached images offer each
alias.

This project models the algorithmic core of that system and proves properties of the model:

- **Cache paths.** The image name is split into registry, namespace and repository.
  From these parts the cache prefix is built, with an optional one-letter directory inserted.
  The entry file of a tag lives under that prefix. The `prefix*.json` glob looks for entries
  of any tag (modules `CachePaths` and `Paths`).
- **Path filter.** This filter decides which paths of an image's diff become aliases
  (module `Filters`).
- **`cache_aliases`.** An image's alias map is read from the cache, taken from another tag's
  entry, or built from the image's diff and written (module `AliasStore`). The disk is a
  `Disk` object whose `files` field maps each entry file to its alias map.
- **`update`.** This is the batch loop over containers. It fetches tags, chooses one, fills
  the cache, and keeps a skip set and the skips file (module `Batch`). The tag choice that
  `update` shares with `iter_tags` is in module `Tags`.
- **`iter_tags`.** This generator yields `image:tag`, with the first tag the ordering pipeline
  returns, for every container not already known (module `Listing`).
- **`get_total_counts`.** It counts, per alias, the cache entries that hold it
  (module `Metrics`). Python's string order and `sorted` live in module `StringOrder`.
- **The stand-alone scripts.** `scripts/update_containers.py` has its own image split and its
  own container-list preparation (module `UpdateScript`). `scripts/calculate_frequency.py` is
  the counter that writes `counts.json` (module `FrequencyScript`). The scripts' filter and
  alias loop are identical to the library's, so the same members model them.

The collaborators are parameters of the model:

- the registry's tag listing, a function from image to the response text or to the
  exception the request raises, which ends the run like any uncaught exception;
- the tag-ordering pipeline, a function from tag lines to an `Ordering` that is either an
  error or the list of kept tags;
- the container diff, a function from `image:tag` to a `Result` holding the unique paths.

`sys.exit` and uncaught exceptions become `Failure` results.

Where the code's own comments promise something else, the model follows the code:

- The tag loops take the **first** tag the ordering pipeline returns (`ordered[0]` at
  `lib/container_discovery/cache.py` line 205 and `lib/container_discovery/listing.py`
  line 44). The comment at `cache.py` line 170 says "Use the latest for each unique". The
  comment on the pipeline at `lib/container_discovery/pipelines.py` line 8 says it returns
  the tags sorted ascending. The pipeline is a parameter here, so the model promises only
  "the first tag the pipeline returns".
- The skips file is rewritten after an image reaches the `cache_aliases` stage
  (`cache.py` line 215, "Save as we go"), and once more at the end of the run (line 218).
  The `continue` branches at lines 190, 197 and 203 skip the first of these writes.
- The counter selects files with the unanchored regular expression `.json` over the whole
  path (`lib/container_discovery/utils.py` line 17), not with a suffix test.
- `has_cache_entry` and `search_cache_prefix` glob `prefix*.json`, which also finds the
  entries of other images whose names extend this one's (see Findings). The cache search is
  a parameter, `Glob`: `AsWritten` is the glob as written and `Corrected` is
  `prefix:*.json`. The lookup, `cache_aliases` and `update` are modelled for both, and
  the consequences of the written glob are proved on an example.

## Model

| member | source | states |
|---|---|---|
| CachePaths.ParseImage | lib/container_discovery/cache.py:42-55 | The split succeeds exactly when the name has at most two `/`; otherwise the result is the `Cannot parse` failure. |
| CachePaths.ParseImageMeaning | lib/container_discovery/cache.py:42-55 | No `/` gives only a repository. One `/` gives namespace and repository, and two give registry, namespace and repository. The parts rejoined with `/` are the name, and no part holds a `/`. |
| CachePaths.ParseImageInverse | lib/container_discovery/cache.py:50-53 | A name made of two or three plain parts parses back into exactly those parts. |
| CachePaths.LetteredPrefix | lib/container_discovery/cache.py:57-68 | The three flag branches in their order: the org flag with a namespace, then the registry flag with a registry, then the repository flag with a repository, each putting the part's letter into the join; no branch when none applies. Its results are stated by the three `LetterInserted` lemmas. |
| CachePaths.RefPrefix | lib/container_discovery/cache.py:57-73 | The lettered path when a branch applied and gave a non-empty path, else the default join `os.path.join(root, registry, namespace, repo)`. Its results are stated by `DefaultPrefixShape`, the `LetterInserted` lemmas and `FallbackToDefault`. |
| CachePaths.CachePrefix | lib/container_discovery/cache.py:38-73 | The prefix exists exactly when the name parses; otherwise the result is the parse failure. |
| CachePaths.DefaultPrefixShape | lib/container_discovery/cache.py:70-72 | For a root that is not empty and does not end in `/`, the default layout is the root followed by `/part` for each non-empty part; empty parts add no segment, and an empty repository leaves a trailing `/`. |
| CachePaths.OrgLetterInserted | lib/container_discovery/cache.py:60-62 | For a root that is not empty and does not end in `/`, with the org flag and a namespace, the prefix is the default layout with one extra segment, the lower-cased first letter of the namespace, just before the namespace. |
| CachePaths.RegistryLetterInserted | lib/container_discovery/cache.py:63-65 | For a root that is not empty and does not end in `/`, with the registry flag and a registry, when the org branch is not taken, the registry's letter goes in right after the root. |
| CachePaths.RepoLetterInserted | lib/container_discovery/cache.py:66-68 | For a root that is not empty and does not end in `/`, with the repository flag and a repository, when neither earlier branch is taken, the repository's letter goes in just before the repository. |
| CachePaths.FallbackToDefault | lib/container_discovery/cache.py:70-72 | When no flag finds its part non-empty, the prefix is the default layout. |
| CachePaths.LetteredNonEmpty | lib/container_discovery/cache.py:71 | A lettered path is never empty, so the `not cache_path` fallback only fires when no branch applied. |
| CachePaths.ExampleDefaultLayout | lib/container_discovery/cache.py:70-72 | `biocontainers/<repo>` under `/c` in the default layout is `/c/biocontainers/<repo>`. |
| CachePaths.ExampleOrgLayout | lib/container_discovery/cache.py:60-62 | With the org flag, the same image is `/c/b/biocontainers/<repo>`. |
| Paths.JoinPlain | lib/container_discovery/cache.py:62-72 | `os.path.join` of plain names under a plain root puts one `/` before each non-empty name, skips empty ones, and ends in `/` exactly when the last name is empty. |
| Paths.JoinInsert | lib/container_discovery/cache.py:60-68 | Adding one plain name to the joined segments inserts `/name` at exactly the point where the following segments start. |
| CachePaths.CacheEntry | lib/container_discovery/cache.py:14-19 | An entry name exists exactly when the image parses. |
| CachePaths.EntryShape | lib/container_discovery/cache.py:14-19 | An entry extends its prefix and ends in `.json`. |
| CachePaths.EntryStaysInDirectory | lib/container_discovery/cache.py:14-19 | A tag without `/` adds no directory level: the entry's directory is the prefix's directory, and its basename is the prefix's basename plus `:tag.json`. |
| CachePaths.GlobFilesMeaning | lib/container_discovery/cache.py:35 | Every glob match is a cache file that starts with the stem and ends in `.json`. |
| CachePaths.SearchCachePrefix | lib/container_discovery/cache.py:30-35 | The search succeeds exactly when the name parses. |
| CachePaths.SearchCachePrefixMeaning | lib/container_discovery/cache.py:30-35 | Every match is a cache file that starts with the image's prefix and ends in `.json`. |
| CachePaths.HasCacheEntry | lib/container_discovery/cache.py:22-27 | It is true exactly when `search_cache_prefix` finds something. |
| CachePaths.EntryImpliesHasCacheEntry | lib/container_discovery/cache.py:22-27 | An existing entry of any tag without `/` makes `has_cache_entry` true. |
| CachePaths.SiblingImageMatches | lib/container_discovery/cache.py:26-27 | As written, the glob reports `biocontainers/bowtie` as cached when only `biocontainers/bowtie2` has an entry, although no tag of `bowtie` has one. |
| CachePaths.SearchTagEntries | lib/container_discovery/cache.py:30-35 | The corrected search `prefix:*.json` succeeds exactly when the name parses. |
| CachePaths.SearchTagEntriesNarrower | lib/container_discovery/cache.py:30-35 | The corrected search finds cache files only, and a subset of what the written glob finds. |
| CachePaths.HasTagEntryIff | lib/container_discovery/cache.py:22-27 | The corrected search finds something exactly when the entry of some tag without `/` exists. |
| CachePaths.SearchEntries | lib/container_discovery/cache.py:30-35 | The search under the chosen glob, `prefix*.json` as written or `prefix:*.json` corrected, succeeds exactly when the name parses. |
| CachePaths.HasEntry | lib/container_discovery/cache.py:22-27 | The cache test under the chosen glob succeeds exactly when the name parses, and is true exactly when that search finds something. |
| CachePaths.SearchEntriesMeaning | lib/container_discovery/cache.py:22-35 | Under either glob the matches are cache files, and when there are none no tag without `/` has an entry of the image. |
| CachePaths.SiblingNotTagEntry | lib/container_discovery/cache.py:26-27 | In the `bowtie2` tree the corrected search finds no entry for `bowtie`. |
| CachePaths.EnsureUniquePrefix | lib/container_discovery/cache.py:76-96 | It is true exactly when no two of the three flags are set. |
| Filters.EndsWithAnyIff | lib/container_discovery/filters.py:8-27 | The suffix loop with early return is true exactly when some listed ending ends the path. |
| Filters.IncludePathIffNoRule | lib/container_discovery/filters.py:8-34 | A path is kept exactly when it has none of the sixteen endings, its basename does not start with `_` or `.`, and it contains no `[`, `]`, `README`, `sbin` or `/usr/bin` and does not start with `/bin`. So the order of the checks does not matter. The script's filter at `scripts/update_containers.py` lines 227-257 is the same function. |
| Filters.ExampleKept | lib/container_discovery/filters.py:8-34 | `/usr/local/bin/samtools` is kept. |
| Filters.ExampleSystemBin | lib/container_discovery/filters.py:34 | `/usr/bin/ls` is excluded. |
| Filters.ExampleReadme | lib/container_discovery/filters.py:26-27 | `README.md` is excluded. |
| Filters.ExampleLibrary | lib/container_discovery/filters.py:26-27 | `/opt/lib/libfoo.so` is excluded. |
| Filters.ExamplePrivate | lib/container_discovery/filters.py:28-29 | `/opt/bin/_internal` is excluded. |
| AliasStore.AssembleAliases | lib/container_discovery/cache.py:245-254 | The loop builds exactly the alias map of the diff's paths under the filter it is given; `cache_aliases` gives it `include_path`. The script's alias loop at `scripts/update_containers.py` lines 280-289 is the same loop. |
| AliasStore.LookupBy | lib/container_discovery/cache.py:228-254 | The five cases of `cache_aliases` in their order: the name's parse failure, this tag's entry, an entry found by the chosen glob, the diff's failure, and the alias map built from the diff's paths. Its outcomes are stated by `CacheAliases`, `BuiltIsFresh`, `LookupAgain` and `NothingCachedMeansDiff`. |
| AliasStore.AliasesMeaning | lib/container_discovery/cache.py:245-254 | Every key is the basename of its value, and every value is an included path of the diff. Every included path's basename is a key. On a shared basename, the last included path wins. The same holds for the script's loop at `scripts/update_containers.py` lines 280-289. |
| AliasStore.AliasKeys | lib/container_discovery/cache.py:246-254 | For any filter, each key is the basename of a kept path of the list, and that path is the key's value. |
| AliasStore.AliasComplete | lib/container_discovery/cache.py:246-254 | For any filter, every kept path's basename is a key. |
| AliasStore.AliasLastWins | lib/container_discovery/cache.py:251-254 | For any filter, a key maps to the last kept path with that basename. |
| AliasStore.CacheAliases | lib/container_discovery/cache.py:224-260 | There are five outcomes, under either glob. An unparsable name fails. An existing entry of this tag is returned, with nothing written. Otherwise an entry found by the glob is returned, with nothing written. Otherwise a failing diff fails, with nothing written. Otherwise the new alias map is written as this tag's entry and returned. No other file changes. |
| AliasStore.FindAliases | lib/container_discovery/cache.py:228-260 | The lookup on the cache's contents, under either glob, gives the answer of the five-case lookup. It names this tag's entry as the file to write exactly when the alias map was built. |
| AliasStore.ReadSibling | lib/container_discovery/cache.py:235-237 | There is a result exactly when the glob finds a match, and it is the alias map of one of the matches. |
| AliasStore.BuildEntry | lib/container_discovery/cache.py:240-260 | A failing diff fails with nothing to write. A successful one gives the alias map of its paths under the filter, and this tag's entry as the file to write. |
| AliasStore.BuiltIsFresh | lib/container_discovery/cache.py:234-259 | Under either glob, a built entry is this tag's entry and holds the diff's alias map. No entry of any tag of the image existed before, and every other file is unchanged. |
| AliasStore.LookupAgain | lib/container_discovery/cache.py:228-232 | Under either glob, looking up again after an entry was built returns that entry, with nothing written. |
| AliasStore.NothingCachedMeansDiff | lib/container_discovery/cache.py:234-242 | When the chosen glob finds no entry of the image, a tag without `/` always reaches the diff. |
| AliasStore.SiblingServed | lib/container_discovery/cache.py:235-237 | As written, with a cache holding only an entry of `biocontainers/bowtie2`, the lookup for `biocontainers/bowtie` is a sibling hit: it writes nothing, never calls the diff, and every answer it allows is `bowtie2`'s alias map. |
| AliasStore.SiblingBuiltWhenCorrected | lib/container_discovery/cache.py:234-242 | With the corrected glob the same lookup of a tag without `/` reaches the diff, so the entry of `bowtie` is built or the diff's failure is the answer. |
| Tags.StripTag | lib/container_discovery/cache.py:172-173 | The image is the container name up to its first `:` (all of it when there is none), and it holds no `:`. |
| Tags.Select | lib/container_discovery/cache.py:186-205 | The checks of both tag loops in their order: no tag lines (`tags[0]` raises), `UNAUTHORIZED` in the first line, the pipeline raising, the pipeline keeping nothing, else its first tag. Its outcomes are stated by `SelectedIff`, `UnauthorizedFirst` and `EmptyAnswer`. |
| Tags.NonEmptyMeaning | lib/container_discovery/cache.py:183 | Dropping empty lines keeps exactly the non-empty lines, each as many times as it occurs. |
| Tags.NonEmptyAppend | lib/container_discovery/cache.py:183 | The comprehension keeps the order of the lines: the kept lines of a concatenation are those of the first part followed by those of the second. |
| Tags.NonEmptyOne | lib/container_discovery/cache.py:183 | A single line is kept exactly when it is not empty. |
| Tags.NonEmptyFirst | lib/container_discovery/cache.py:183 | The first kept line is the first line that is not empty. |
| Tags.TagLinesMeaning | lib/container_discovery/cache.py:182-183 | The tag lines are exactly the non-empty lines of the answer, each as many times as it occurs; none holds a newline; there are none exactly when every line is empty. |
| Tags.TagLinesFirst | lib/container_discovery/cache.py:183-188 | `tags[0]`, the line tested for `UNAUTHORIZED`, is the first non-empty line of the answer. |
| Tags.SelectedIff | lib/container_discovery/cache.py:186-205 | A tag is chosen exactly when there are tag lines, the first has no `UNAUTHORIZED`, and the pipeline keeps at least one tag; the tag chosen is the pipeline's first. |
| Tags.UnauthorizedFirst | lib/container_discovery/cache.py:187-190 | `UNAUTHORIZED` anywhere in the first line decides, whatever the pipeline would say. |
| Tags.EmptyAnswer | lib/container_discovery/cache.py:187 | An empty answer has no tag lines, so `tags[0]` raises. |
| StringOrder.Sorted | lib/container_discovery/cache.py:215 | `sorted` of a set is strictly ascending in Python's string order and holds exactly the set's elements. |
| StringOrder.SortSet | lib/container_discovery/cache.py:215 | Sorting the set by insertion gives `sorted` of the set, whatever order the set is enumerated in. |
| StringOrder.SortedUnique | lib/container_discovery/cache.py:215 | Two ascending sequences with the same elements are equal. |
| StringOrder.LessTotal | lib/container_discovery/cache.py:215 | Python's string order is total on distinct strings. |
| StringOrder.LessTransitive | lib/container_discovery/cache.py:215 | Python's string order is transitive. |
| Batch.Enumerate | lib/container_discovery/cache.py:139 | `list(set(containers))` lists every container of the set exactly once, in an unspecified order. |
| Batch.Qualify | lib/container_discovery/cache.py:146-147 | With a namespace, every container becomes `namespace/container`, and the order is kept. |
| Batch.Step | lib/container_discovery/cache.py:171-183 | One container of the loop: nothing after an error; otherwise the container without its tag is visited with the chosen glob's cache test and the registry's tag lines or the request's exception. The loop is proved equal to it by `ProcessImage` and `RunImages`. |
| Batch.Visit | lib/container_discovery/cache.py:177-184 | An unparsable name stops the run; a cached, fetched or skipped image is passed over; otherwise a tag request that raises stops the run, and an answer has its tag lines recorded and the selection decides. Stated by `NoRepeats`, `VisitRecords` and `VisitCases`. |
| Batch.Choose | lib/container_discovery/cache.py:186-209 | The selection's effect: an empty answer stops the run with the IndexError, `UNAUTHORIZED` and an empty ordering add a skip, a failing ordering changes nothing, and a chosen tag goes to `cache_aliases`. Stated by `ChooseCases` through `StepCases`. |
| Batch.Store | lib/container_discovery/cache.py:208-215 | After `cache_aliases`: a failure adds the image to the skips, a built entry is written, and the sorted skips are saved. Stated by `SelectedCase` and `VisitPersists`. |
| Batch.ProcessImage | lib/container_discovery/cache.py:171-215 | One pass of the loop body, with the cache test of the chosen glob, leaves the disk, the skips, the tag lines and the error exactly as the step function says. |
| Batch.SelectAndStore | lib/container_discovery/cache.py:187-215 | The second half of the loop body, from the tag lines on, leaves the disk, the skips and the error exactly as the step function says for the selection those lines give. |
| Batch.RunImages | lib/container_discovery/cache.py:170-215 | The loop leaves exactly the state of running the steps over the images, stopping at the first error. |
| Batch.Update | lib/container_discovery/cache.py:125-221 | The containers are enumerated once each. Two prefix flags fail with the prefix message before anything is read or written. Otherwise the steps run over the qualified names under the chosen glob, starting from the skips file if it exists. An error fails with the disk as the error left it. A completed run returns the tag lines and the skip set, with the skips file holding `sorted(skips)`. |
| Batch.RunAppend | lib/container_discovery/cache.py:171 | Running a concatenation runs the first part, then the second part from where the first ended. |
| Batch.ErrorIsFinal | lib/container_discovery/cache.py:187 | After the error that stops a run, no later container changes anything. |
| Batch.NoRepeats | lib/container_discovery/cache.py:177-179 | An image that the chosen glob reports as cached, that was already fetched, or that is skipped is passed over, and nothing changes. |
| Batch.SeenOnce | lib/container_discovery/cache.py:177-184 | After an image has been looked at without an error, any later container with the same image changes nothing. |
| Batch.VisitRecords | lib/container_discovery/cache.py:177-189 | A visit without an error leaves the image cached, fetched or skipped. |
| Batch.StepCases | lib/container_discovery/cache.py:181-215 | For an image looked at, a tag request that raises stops the run with nothing else changed, so the final skips write is not reached. Given an answer, its tag lines are recorded. `UNAUTHORIZED` or an empty ordering adds it to the skips and changes nothing else. A failing ordering changes nothing more. An empty answer stops the run with the IndexError. A chosen tag ends with the skips file holding the sorted skip set. |
| Batch.VisitCases | lib/container_discovery/cache.py:182-215 | The same outcome rules, stated for a given answer or request exception. |
| Batch.SelectedCase | lib/container_discovery/cache.py:205-215 | With a chosen tag and no entry of the image found by the glob, a failing diff adds the image to the skips and writes no entry. A successful diff writes the tag's entry with the diff's alias map and leaves the skips as they were. |
| Batch.VisitGrows | lib/container_discovery/cache.py:184-211 | One visit only adds to the skips and to the fetched images. |
| Batch.RunGrows | lib/container_discovery/cache.py:171-215 | Over a whole run, the skips and the fetched images only grow. |
| Batch.VisitPersists | lib/container_discovery/cache.py:214-215 | One visit keeps the skips file within the skip set and touches no other list file. |
| Batch.RunPersists | lib/container_discovery/cache.py:153-218 | Wherever a run stops, the skips file names only skipped images, and every other list file is as it was. |
| Batch.SiblingPassedOver | lib/container_discovery/cache.py:177-179 | As written, once the cache holds only an entry of `biocontainers/bowtie2`, the container `biocontainers/bowtie` is passed over: its tags are never fetched and nothing changes. |
| Batch.SiblingLookedAt | lib/container_discovery/cache.py:177-184 | With the corrected glob the same container is looked at: its tags are requested, and the answer's tag lines are recorded or the request's exception stops the run. |
| Listing.ListOne | lib/container_discovery/listing.py:12-45 | One input of the generator: passed over when its image or itself is known, crashing when the tag request raises, then the shared tag checks, crashing on an empty answer, else `image:tag` with the pipeline's first tag. Stated by `ListOneCases`. |
| Listing.ListOneCases | lib/container_discovery/listing.py:11-45 | An input whose image or itself is known is passed over. Otherwise a tag request that raises crashes the generator. Given an answer, the input is passed over exactly when the answer is unauthorized, the ordering fails, or nothing is ordered; it crashes exactly on an empty answer; otherwise it yields `image:tag` with the pipeline's first tag. |
| Listing.ListStep | lib/container_discovery/listing.py:12-45 | One pass of the loop body gives the input's outcome: passed over, crashed, or the name it yields. |
| Listing.IterTags | lib/container_discovery/listing.py:5-45 | The loop yields exactly what the generator definition yields over the inputs, and reports whether it stopped on an exception (the request's or the IndexError). |
| Listing.CollectAppend | lib/container_discovery/listing.py:11 | Collecting a concatenation collects the first part, then, unless it crashed, the second. |
| Listing.ListAppend | lib/container_discovery/listing.py:11-45 | Listing a concatenation of inputs lists the first part, then, unless it crashed, the second. |
| Listing.CrashIsFinal | lib/container_discovery/listing.py:24-30 | After an exception (the request's or the IndexError) nothing more is yielded. |
| Listing.CollectYielded | lib/container_discovery/listing.py:44-45 | Without a crash, the names collected are exactly those some outcome yields. |
| Listing.ListAllYields | lib/container_discovery/listing.py:11-45 | Without a crash, the generator yields exactly the names its inputs select. |
| Listing.Twice | lib/container_discovery/listing.py:11-19 | There is no de-duplication: an input given twice is yielded twice. |
| Metrics.SearchJsonIff | lib/container_discovery/utils.py:17 | `re.search(".json", path)` holds exactly when some character other than a newline is followed by `json`. The script's copy at `scripts/calculate_frequency.py` line 19 is the same test. |
| Metrics.NotASuffixTest | lib/container_discovery/metrics.py:14 | `a.jsonl` is selected although it does not end in `.json`. |
| Metrics.AnyCharacterBeforeJson | lib/container_discovery/metrics.py:14 | `/xjson` is selected: the dot matches any character. |
| Metrics.AddOne | lib/container_discovery/metrics.py:21-24 | The aliases of one file each get one more count, and no other count changes. |
| Metrics.CountAll | lib/container_discovery/metrics.py:14-24 | The counting loop's keys are exactly the aliases of the considered files, and each count is the number of considered files holding the alias. |
| Metrics.GetTotalCounts | lib/container_discovery/metrics.py:7-26 | The loop's result is the ordered count table of the tree. The script's counting loop at `scripts/calculate_frequency.py` lines 79-94 is the same loop. |
| Metrics.TotalCounts | lib/container_discovery/metrics.py:26 | The table has one row per counted alias. |
| Metrics.CountedKeys | lib/container_discovery/metrics.py:20-24 | An alias is counted exactly when some considered file holds it, and then its count is at least one. |
| Metrics.CountsMeaning | lib/container_discovery/metrics.py:20-26 | The table is strictly ascending by alias. Each count is the number of considered files holding the alias, at least one. Every alias of a considered file appears. |
| Metrics.OccurrencesAppend | lib/container_discovery/metrics.py:14-24 | Counts and aliases of two parts of a walk add up. |
| Metrics.OccurrencesPermutation | lib/container_discovery/metrics.py:14-24 | Any reordering of the files gives the same counts and the same aliases. |
| Metrics.TotalCountsPermutation | lib/container_discovery/metrics.py:14-26 | The result depends only on the multiset of files, not on the walk's order. |
| Metrics.ReservedIgnored | lib/container_discovery/metrics.py:16-19 | A file named `skips.json` or `counts.json` changes nothing. |
| UpdateScript.ScriptPrefixAgrees | scripts/update_containers.py:82-114 | The script accepts a name exactly when it has one or two `/`, and then gives the library's prefix with the same letter rules. A bare repository name, which the library accepts, is refused, and so is a name with more `/`. |
| UpdateScript.ScriptCachePrefix | scripts/update_containers.py:82-114 | The script's own prefix: names with one or two `/` get the library's lettered or default prefix, and every other name stops at the `sys.exit` call, a NameError because `sys` is not imported. Stated by `ScriptPrefixAgrees`. |
| UpdateScript.StrippedNamesMeaning | scripts/update_containers.py:154-158 | The names are exactly the stripped lines that are not blank, without white space at either end. |
| UpdateScript.ContainerLinesMeaning | scripts/update_containers.py:154-158 | The same for the lines of the containers file. |
| UpdateScript.StrippedNamesAppend | scripts/update_containers.py:154-158 | The names keep the order of their lines and repeat as the lines do: the names of a concatenation are those of each part in turn. |
| UpdateScript.StrippedNamesOne | scripts/update_containers.py:157-158 | One line gives its stripped text, or nothing when it is blank. |
| UpdateScript.ContainerLinesNext | scripts/update_containers.py:154-158 | The file is read from the top: its names are those of its first line followed by those of the rest, so a container listed twice is read twice. |
| UpdateScript.PrepareMeaning | scripts/update_containers.py:132-162 | Two flags, or a missing containers file, abort. Otherwise the result is the file's names in order, each under `namespace/` when a namespace is given. |
| UpdateScript.PrepareContainers | scripts/update_containers.py:132-162 | The flag check, then the containers file check, then the stripped non-blank lines with the namespace. Stated by `PrepareMeaning` and `FlagsCheckedFirst`. |
| UpdateScript.FlagsCheckedFirst | scripts/update_containers.py:132-151 | With two flags set, the abort does not depend on the files. |
| FrequencyScript.Frequency | scripts/calculate_frequency.py:65-97 | A missing root fails. Otherwise the result is `root/counts.json` with the ordered count table of the walk. |
| FrequencyScript.CountsFileReserved | scripts/calculate_frequency.py:95 | The counts file's basename is `counts.json`, a reserved name. |
| FrequencyScript.RecountUnchanged | scripts/calculate_frequency.py:83-97 | Counting again after the counts file was written gives the same table, wherever the walk meets the new file. |

## Left out

- The retention selector is not modelled. It keeps aliases by their counts, and none of the modelled source files contains it.
- `cleanup()` and the docker `os.system` and `shutil.rmtree` calls are left out: they are best-effort side effects.
- Logging with `print` is left out.
- `mkdir_p` of the root and the entry's directory is left out: the cache is a map, not a tree of directories.
- JSON encoding, pretty-printing and reading are left out. Files hold values directly: alias maps in `Disk.files`, and the skips list in `Disk.lists`.
- Files in the cache that do not hold an alias map are not modelled.
- The HTTP request for tags is a parameter: the response text per image, or the exception the request raises. HTTP status codes are not modelled; `requests.get` returns the text of an error response as it would any other.
- The tag-ordering pipeline is a parameter, and semantic-version sorting is not modelled.
- `ManifestGenerator().diff` is a parameter that gives the unique paths or a failure.
- `os.walk` is a parameter, the sequence of files with their alias maps.
- Glob magic characters (`*`, `?`, `[`) inside the prefix are not modelled; the prefix is matched literally.
- The order of `glob` results is not modelled. `matches[0]` is an arbitrary match.
- The order of `list(set(...))` is not modelled; it is an arbitrary enumeration.
- `str.lower()` is modelled on ASCII letters only.
- `os.path.abspath` is not modelled: the walk's paths and the root are taken as given.
- `os.path.exists` is an explicit parameter, or membership in a map.
- An absent `existing`, `namespace` or `skips_file` stands for `[]`, `""` and `""` respectively. Python treats these the same way.
- CachePaths.DefaultPrefixShape: it is stated for a root that is not empty and does not end in `/`. `--root` also accepts `/`, `cache/` or the working directory `/`, where `os.path.join` adds no `/` after the root.
- CachePaths.OrgLetterInserted: the same restriction on the root.
- CachePaths.RegistryLetterInserted: the same restriction on the root.
- CachePaths.RepoLetterInserted: the same restriction on the root.
- Batch.SelectedCase: it is stated for tags without `/`. A tag containing `/` would put the entry in another directory, which the registry does not produce.
- AliasStore.CacheAliases: when the glob finds entries, it promises only that one of them is returned, not which one.
- `scripts/update_containers.py` `main` after line 162 is not modelled. It calls the undefined `get_cache_path` (lines 62, 70, 78), and reads the undefined `uri` at line 183. Its `cache_aliases` reads the undefined `container` at line 277. It would stop with a NameError at the first image.
- In `scripts/update_containers.py` and `scripts/calculate_frequency.py`, `sys` is never imported. Each `sys.exit` therefore raises `name 'sys' is not defined`, and the model gives that as the failure.
- The command-line parsers, the `Options` attribute bag, `client/` and `version.py` are left out. A `Layout` record stands for the options.

## Findings

| source | as written | input that shows it | evidently intended | confidence | as-written member | corrected member |
|---|---|---|---|---|---|---|
| lib/container_discovery/cache.py:22-35 | `has_cache_entry` and `search_cache_prefix` glob `prefix*.json`, which also matches the entries of any image whose name extends this one's | root `/c`, default layout, a cache holding only `/c/biocontainers/bowtie2:2.4.json`: `biocontainers/bowtie` counts as cached. `update` then never fetches it, and `cache_aliases` would return `bowtie2`'s aliases for it. | look for entries of this image only, `prefix:*.json` | not executed | CachePaths.SiblingImageMatches | CachePaths.HasTagEntryIff |
| lib/container_discovery/cache.py:177-179 | `update` passes over an image when `has_cache_entry`'s glob finds an entry, including an entry of another image whose name extends this one's | root `/c`, default layout, a cache holding only `/c/biocontainers/bowtie2:2.4.json`: the container `biocontainers/bowtie` changes nothing, so its tags are never fetched | fetch the tags of every image with no entry of its own | not executed | Batch.SiblingPassedOver | Batch.SiblingLookedAt |
| lib/container_discovery/cache.py:235-237 | `cache_aliases` returns the first match of `search_cache_prefix`, which may be an entry of another image | the same cache and `cache_aliases("biocontainers/bowtie", args, tag)`: it returns `bowtie2`'s alias map, writes nothing and never calls the diff | build the entry of this image from its own diff when no tag of it is cached | not executed | AliasStore.SiblingServed | AliasStore.SiblingBuiltWhenCorrected |
