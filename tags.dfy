/** The rules `update` and `iter_tags` share for turning a container name and the tag
    registry's answer into the one tag to use. */
module Tags {
  import opened Wrappers
  import opened Strings

  /** `image.split(":", 1)[0]` when the name has a `:`: the image without its tag. */
  function StripTag(container: string): (image: string)
    ensures ':' !in image && StartsWith(container, image)
    ensures |image| < |container| ==> container[|image|] == ':'
    ensures ':' !in container ==> image == container
  {
    if ':' in container then container[..IndexOf(container, ':')] else container
  }

  /** The lines that are not empty, in order. */
  function NonEmpty(lines: seq<string>): seq<string>
  {
    if lines == [] then []
    else (if lines[0] == "" then [] else [lines[0]]) + NonEmpty(lines[1..])
  }

  /** Dropping the empty lines keeps every other line as many times as it occurs. */
  lemma {:induction false} NonEmptyMeaning(lines: seq<string>)
    ensures forall x :: x in NonEmpty(lines) <==> x != "" && x in lines
    ensures forall x :: multiset(NonEmpty(lines))[x] == if x == "" then 0 else multiset(lines)[x]
  {
    if lines != [] {
      NonEmptyMeaning(lines[1..]);
      assert lines == [lines[0]] + lines[1..];
    }
  }

  /** The filter works line by line and keeps the order: the kept lines of a concatenation
      are those of its first part followed by those of its second. */
  lemma {:induction false} NonEmptyAppend(a: seq<string>, b: seq<string>)
    ensures NonEmpty(a + b) == NonEmpty(a) + NonEmpty(b)
    decreases |a|
  {
    if a == [] {
      assert a + b == b;
    } else {
      assert (a + b)[1..] == a[1..] + b;
      NonEmptyAppend(a[1..], b);
      assert NonEmpty(a + b) == (if a[0] == "" then [] else [a[0]]) + NonEmpty(a[1..] + b);
    }
  }

  /** One line is kept unless it is empty. */
  lemma NonEmptyOne(line: string)
    ensures NonEmpty([line]) == if line == "" then [] else [line]
  {
    assert [line][1..] == [];
  }

  /** The first kept line is the first line that is not empty; none is kept when all are. */
  lemma {:induction false} NonEmptyFirst(lines: seq<string>, k: nat)
    requires k < |lines| && lines[k] != ""
    requires forall j :: 0 <= j < k ==> lines[j] == ""
    ensures NonEmpty(lines) != [] && NonEmpty(lines)[0] == lines[k]
    decreases k
  {
    if k > 0 {
      NonEmptyFirst(lines[1..], k - 1);
    }
  }

  /** `[x for x in text.split("\n") if x]`: the registry's answer cut into tag lines. */
  function TagLines(text: string): seq<string>
  {
    NonEmpty(Split(text, '\n'))
  }

  /** The tag lines are the non-empty lines of the answer, each as often as it occurs: none
      is empty or holds a newline, and there are none exactly when every line is empty. */
  lemma TagLinesMeaning(text: string)
    ensures forall x :: x in TagLines(text) <==> x != "" && x in Split(text, '\n')
    ensures forall x :: multiset(TagLines(text))[x] == if x == "" then 0 else multiset(Split(text, '\n'))[x]
    ensures forall x :: x in TagLines(text) ==> x != "" && '\n' !in x
    ensures TagLines(text) == [] <==> forall i :: 0 <= i < |Split(text, '\n')| ==> Split(text, '\n')[i] == ""
  {
    var lines := Split(text, '\n');
    NonEmptyMeaning(lines);
    if TagLines(text) != [] {
      assert TagLines(text)[0] in TagLines(text);
    }
  }

  /** `tags[0]`, the line tested for `UNAUTHORIZED`, is the first non-empty line of the answer. */
  lemma TagLinesFirst(text: string, k: nat)
    requires k < |Split(text, '\n')| && Split(text, '\n')[k] != ""
    requires forall j :: 0 <= j < k ==> Split(text, '\n')[j] == ""
    ensures TagLines(text) != [] && TagLines(text)[0] == Split(text, '\n')[k]
  {
    NonEmptyFirst(Split(text, '\n'), k);
  }

  /** The answer to the tag request: its tag lines, or the exception the request raised. */
  function Fetched(answer: Result<string>): Result<seq<string>>
  {
    match answer
    case Failure(e) => Failure(e)
    case Success(text) => Success(TagLines(text))
  }

  /** What the tag-ordering pipeline gives back: an error, or the `_original` of each tag
      it kept, in its order. */
  datatype Ordering = OrderError(message: string) | Ordered(tags: seq<string>)

  /** How tag selection for one image ends. */
  datatype Selection =
    | NoTagLines        // `tags[0]` on an empty answer: the run stops with an IndexError
    | Unauthorized      // the first line reports `UNAUTHORIZED`
    | OrderingFailed    // the pipeline raised
    | NothingOrdered    // the pipeline kept no tag
    | Selected(tag: string)

  const UnauthorizedMark := "UNAUTHORIZED"

  /** The checks of both loops in their order: the first line, then the pipeline, then its
      first result. */
  function Select(tags: seq<string>, order: seq<string> -> Ordering): Selection
  {
    if tags == [] then NoTagLines
    else if Contains(tags[0], UnauthorizedMark) then Unauthorized
    else
      match order(tags)
      case OrderError(_) => OrderingFailed
      case Ordered(kept) => if kept == [] then NothingOrdered else Selected(kept[0])
  }

  /** A tag is chosen exactly when there are tag lines, the first is not an authorisation
      error, and the pipeline keeps at least one tag; it is the pipeline's first. */
  lemma SelectedIff(tags: seq<string>, order: seq<string> -> Ordering, tag: string)
    ensures Select(tags, order) == Selected(tag) <==>
      tags != [] && !Contains(tags[0], UnauthorizedMark) &&
      order(tags).Ordered? && order(tags).tags != [] && order(tags).tags[0] == tag
  {
  }

  /** `UNAUTHORIZED` anywhere in the first line decides, whatever the pipeline would say. */
  lemma UnauthorizedFirst(tags: seq<string>, order: seq<string> -> Ordering, i: nat)
    requires tags != [] && i + |UnauthorizedMark| <= |tags[0]|
    requires tags[0][i..i + |UnauthorizedMark|] == UnauthorizedMark
    ensures Select(tags, order) == Unauthorized
  {
    ContainsAt(tags[0], UnauthorizedMark, i);
  }

  /** An empty answer has no tag lines, so the run stops at `tags[0]`. */
  lemma EmptyAnswer(text: string, order: seq<string> -> Ordering)
    requires text == ""
    ensures Select(TagLines(text), order) == NoTagLines
  {
    assert Split(text, '\n') == [""];
  }
}
