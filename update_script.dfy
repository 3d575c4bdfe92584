/** `scripts/update_containers.py`: the older stand-alone updater. Its path strategy has its
    own image split; its filter and alias loop are those of the library. */
module UpdateScript {
  import opened Wrappers
  import opened Strings
  import opened CachePaths
  import opened Tags
  import opened Batch

  /** The script's `get_cache_prefix`: only names with one or two `/` are accepted. Any other
      name reaches `sys.exit`, which raises a NameError because `sys` is not imported. */
  function ScriptCachePrefix(image: string, layout: Layout): (r: Result<string>)
  {
    var n := Count(image, '/');
    if n == 1 || n == 2 then Success(RefPrefix(layout, ParseImage(image).value)) else Failure(SysMissing)
  }

  /** Where the script accepts a name it agrees with the library; a bare repository name,
      which the library files under the default namespace, is refused. */
  lemma ScriptPrefixAgrees(image: string, layout: Layout)
    ensures var n := Count(image, '/');
            && (ScriptCachePrefix(image, layout).Success? <==> n == 1 || n == 2)
            && (n == 1 || n == 2 ==> ScriptCachePrefix(image, layout) == CachePrefix(image, layout))
            && (n == 0 ==> ScriptCachePrefix(image, layout) == Failure(SysMissing) &&
                           CachePrefix(image, layout) == Success(RefPrefix(layout, ImageRef("", "", image))))
            && (n > 2 ==> ScriptCachePrefix(image, layout) == Failure(SysMissing) && CachePrefix(image, layout).Failure?)
  {
  }

  /** `[x.strip() for x in lines if x.strip()]`. */
  function StrippedNames(lines: seq<string>): seq<string>
  {
    NonEmpty(seq(|lines|, i requires 0 <= i < |lines| => Strip(lines[i])))
  }

  /** The names read from a containers file. */
  function ContainerLines(text: string): seq<string>
  {
    StrippedNames(Split(text, '\n'))
  }

  lemma StrippedNamesMeaning(lines: seq<string>)
    ensures forall x :: x in StrippedNames(lines) <==> x != "" && exists line :: line in lines && Strip(line) == x
    ensures forall x :: x in StrippedNames(lines) ==> !IsSpace(x[0]) && !IsSpace(x[|x| - 1])
  {
    var stripped := seq(|lines|, i requires 0 <= i < |lines| => Strip(lines[i]));
    NonEmptyMeaning(stripped);
    forall x ensures x in stripped <==> exists line :: line in lines && Strip(line) == x {
      if x in stripped {
        var i :| 0 <= i < |stripped| && stripped[i] == x;
        assert lines[i] in lines;
      }
      if exists line :: line in lines && Strip(line) == x {
        var line :| line in lines && Strip(line) == x;
        var i :| 0 <= i < |lines| && lines[i] == line;
        assert stripped[i] == x;
      }
    }
    forall x | x in StrippedNames(lines) ensures !IsSpace(x[0]) && !IsSpace(x[|x| - 1]) {
      var line :| line in lines && Strip(line) == x;
      StripMeaning(line);
    }
  }

  /** The names read are the stripped lines that are not blank: none is empty or has white
      space at either end, and every line with some text contributes its stripped text. */
  lemma ContainerLinesMeaning(text: string)
    ensures forall x :: x in ContainerLines(text) <==> x != "" && exists line :: line in Split(text, '\n') && Strip(line) == x
    ensures forall x :: x in ContainerLines(text) ==> !IsSpace(x[0]) && !IsSpace(x[|x| - 1])
  {
    StrippedNamesMeaning(Split(text, '\n'));
  }

  /** The names keep the order of their lines, one per line with text, so a container listed
      twice is read twice: the names of a concatenation are those of each part in turn. */
  lemma StrippedNamesAppend(a: seq<string>, b: seq<string>)
    ensures StrippedNames(a + b) == StrippedNames(a) + StrippedNames(b)
  {
    var sa := seq(|a|, i requires 0 <= i < |a| => Strip(a[i]));
    var sb := seq(|b|, i requires 0 <= i < |b| => Strip(b[i]));
    var ab := a + b;
    assert seq(|ab|, i requires 0 <= i < |ab| => Strip(ab[i])) == sa + sb;
    NonEmptyAppend(sa, sb);
  }

  /** One line gives its stripped text, or nothing when it is blank. */
  lemma StrippedNamesOne(line: string)
    ensures StrippedNames([line]) == if Strip(line) == "" then [] else [Strip(line)]
  {
    assert seq(1, i requires 0 <= i < 1 => Strip([line][i])) == [Strip(line)];
    NonEmptyOne(Strip(line));
  }

  /** The file is read line by line from the top: the names of a file are those of its
      first line followed by those of the rest. */
  lemma ContainerLinesNext(text: string, first: string, rest: string)
    requires '\n' !in first && text == first + "\n" + rest
    ensures ContainerLines(text) == StrippedNames([first]) + ContainerLines(rest)
  {
    IndexOfAfter(first, '\n', rest);
    assert text[..|first|] == first;
    assert text[|first| + 1..] == rest;
    assert Split(text, '\n') == [first] + Split(rest, '\n');
    StrippedNamesAppend([first], Split(rest, '\n'));
  }

  /** The checks and the list preparation of `main` before its loop: the flags are checked
      first, then the containers file (`texts` holds the files that exist, with their text),
      then the names are read and qualified by the namespace. */
  function PrepareContainers(orgPrefix: bool, registryPrefix: bool, repoPrefix: bool,
                             containersPath: string, namespace: string, texts: map<string, string>): Result<seq<string>>
  {
    if !EnsureUniquePrefix(orgPrefix, registryPrefix, repoPrefix) then Failure(SysMissing)
    else if containersPath == "" || containersPath !in texts then Failure(SysMissing)
    else Success(Qualify(namespace, ContainerLines(texts[containersPath])))
  }

  /** More than one flag aborts whatever the files are; otherwise a missing file aborts, and
      a present one gives its names, each under `namespace/` when a namespace is given. */
  lemma PrepareMeaning(orgPrefix: bool, registryPrefix: bool, repoPrefix: bool,
                       containersPath: string, namespace: string, texts: map<string, string>)
    ensures var r := PrepareContainers(orgPrefix, registryPrefix, repoPrefix, containersPath, namespace, texts);
            var unique := !(orgPrefix && registryPrefix) && !(orgPrefix && repoPrefix) && !(registryPrefix && repoPrefix);
            && (r.Failure? <==> !unique || containersPath == "" || containersPath !in texts)
            && (r.Failure? ==> r.error == SysMissing)
            && (r.Success? ==>
                  var names := ContainerLines(texts[containersPath]);
                  |r.value| == |names| &&
                  forall i :: 0 <= i < |names| ==>
                    r.value[i] == (if namespace == "" then names[i] else namespace + "/" + names[i]))
  {
  }

  /** The flag check comes before the containers file is looked at. */
  lemma FlagsCheckedFirst(orgPrefix: bool, registryPrefix: bool, repoPrefix: bool, containersPath: string,
                          namespace: string, texts: map<string, string>, texts': map<string, string>)
    requires !EnsureUniquePrefix(orgPrefix, registryPrefix, repoPrefix)
    ensures PrepareContainers(orgPrefix, registryPrefix, repoPrefix, containersPath, namespace, texts) ==
            PrepareContainers(orgPrefix, registryPrefix, repoPrefix, containersPath, namespace, texts')
  {
  }
}
