/** `iter_tags`: `image:tag`, with the first tag the ordering pipeline returns, for every
    listed container not already known, without touching the cache. */
module Listing {
  import opened Wrappers
  import opened Strings
  import opened Tags

  /** What one input contributes: nothing, one `image:tag`, or an exception that ends the
      generator (the tag request raising, or the IndexError of an empty tag answer). */
  datatype Outcome = Passed | Yielded(uri: string) | Crashed

  /** What the generator has produced: the names yielded, in order, and whether it ended
      by raising. */
  datatype Listed = Listed(uris: seq<string>, crashed: bool)

  /** One input of the loop. `existing` holds both bare images and names with tags;
      `tagSource` is the registry's answer for an image, or the exception the request
      raised, and `order` the tag pipeline. */
  function ListOne(container: string, existing: seq<string>, tagSource: string -> Result<string>,
                   order: seq<string> -> Ordering): Outcome
  {
    var image := StripTag(container);
    if image in existing || container in existing then Passed
    else
      match tagSource(image)
      case Failure(_) => Crashed
      case Success(text) =>
        match Select(TagLines(text), order)
        case NoTagLines => Crashed
        case Selected(tag) => Yielded(image + ":" + tag)
        case _ => Passed
  }

  /** The three outcomes of one input: a name already known passes; otherwise a request that
      raises crashes, and given an answer, a refused or empty choice passes, an empty answer
      crashes, and otherwise the image with its chosen tag is yielded. */
  lemma ListOneCases(container: string, existing: seq<string>, tagSource: string -> Result<string>,
                     order: seq<string> -> Ordering)
    ensures var r, image := ListOne(container, existing, tagSource, order), StripTag(container);
            var known := image in existing || container in existing;
            && (known ==> r == Passed)
            && (!known && tagSource(image).Failure? ==> r == Crashed)
            && (!known && tagSource(image).Success? ==>
                  var sel := Select(TagLines(tagSource(image).value), order);
                  && (r.Passed? <==> sel in {Unauthorized, OrderingFailed, NothingOrdered})
                  && (r.Crashed? <==> sel == NoTagLines)
                  && (r.Yielded? <==> sel.Selected?)
                  && (r.Yielded? ==> r.uri == image + ":" + sel.tag))
  {
  }

  /** What each input contributes, in input order. */
  function Outcomes(containers: seq<string>, existing: seq<string>, tagSource: string -> Result<string>,
                    order: seq<string> -> Ordering): (r: seq<Outcome>)
    ensures |r| == |containers|
    ensures forall i :: 0 <= i < |r| ==> r[i] == ListOne(containers[i], existing, tagSource, order)
  {
    seq(|containers|, i requires 0 <= i < |containers| => ListOne(containers[i], existing, tagSource, order))
  }

  /** The generator's output from the outcomes of its inputs, taken one by one, stopping at
      the first crash. */
  function Collect(outcomes: seq<Outcome>): Listed
  {
    if outcomes == [] then Listed([], false)
    else
      var prev := Collect(outcomes[..|outcomes| - 1]);
      if prev.crashed then prev
      else
        match outcomes[|outcomes| - 1]
        case Passed => prev
        case Yielded(uri) => Listed(prev.uris + [uri], false)
        case Crashed => Listed(prev.uris, true)
  }

  /** The whole generator over `containers`. */
  function ListAll(containers: seq<string>, existing: seq<string>, tagSource: string -> Result<string>,
                   order: seq<string> -> Ordering): Listed
  {
    Collect(Outcomes(containers, existing, tagSource, order))
  }

  /** The body of the loop for one input: strip the tag, skip a known name, then choose a tag. */
  method ListStep(container: string, existing: seq<string>, tagSource: string -> Result<string>,
                  order: seq<string> -> Ordering) returns (outcome: Outcome)
    ensures outcome == ListOne(container, existing, tagSource, order)
  {
    var image := container;
    if ':' in image {
      image := image[..IndexOf(image, ':')];
    }
    assert image == StripTag(container);
    if image in existing || container in existing {
      return Passed;
    }
    var answer := tagSource(image);
    if answer.Failure? {
      return Crashed;
    }
    var tags := TagLines(answer.value);
    var selection := Select(tags, order);
    if selection == NoTagLines {
      return Crashed;
    }
    if selection.Selected? {
      return Yielded(image + ":" + selection.tag);
    }
    return Passed;
  }

  /** The generator, consumed into a sequence. */
  method IterTags(containers: seq<string>, existing: seq<string>, tagSource: string -> Result<string>,
                  order: seq<string> -> Ordering) returns (uris: seq<string>, crashed: bool)
    ensures Listed(uris, crashed) == ListAll(containers, existing, tagSource, order)
  {
    uris, crashed := [], false;
    var i := 0;
    while i < |containers|
      invariant 0 <= i <= |containers|
      invariant Listed(uris, crashed) == ListAll(containers[..i], existing, tagSource, order)
      invariant !crashed
    {
      var outcome := ListStep(containers[i], existing, tagSource, order);
      ListNext(containers, i, existing, tagSource, order);
      match outcome {
        case Passed =>
        case Yielded(uri) =>
          uris := uris + [uri];
        case Crashed =>
          crashed := true;
          ListRest(containers, i + 1, existing, tagSource, order);
          return;
      }
      i := i + 1;
    }
    assert containers[..|containers|] == containers;
  }

  /** One more input: unless the generator has crashed, its outcome is added. */
  lemma ListNext(containers: seq<string>, i: nat, existing: seq<string>,
                 tagSource: string -> Result<string>, order: seq<string> -> Ordering)
    requires i < |containers|
    ensures var prev := ListAll(containers[..i], existing, tagSource, order);
            ListAll(containers[..i + 1], existing, tagSource, order) ==
              if prev.crashed then prev
              else match ListOne(containers[i], existing, tagSource, order)
                case Passed => prev
                case Yielded(uri) => Listed(prev.uris + [uri], false)
                case Crashed => Listed(prev.uris, true)
  {
    var c := containers[i];
    assert containers[..i + 1] == containers[..i] + [c];
    ListAppend(containers[..i], [c], existing, tagSource, order);
    var o := ListOne(c, existing, tagSource, order);
    assert Outcomes([c], existing, tagSource, order) == [o];
    CollectOne(o);
    var prev := ListAll(containers[..i], existing, tagSource, order);
    assert prev.uris + [] == prev.uris;
  }

  lemma CollectOne(o: Outcome)
    ensures Collect([o]) == match o
      case Passed => Listed([], false)
      case Yielded(uri) => Listed([uri], false)
      case Crashed => Listed([], true)
  {
    assert [o][..0] == [];
  }

  /** Once the first `i` inputs crash the generator, the rest are never looked at. */
  lemma ListRest(containers: seq<string>, i: nat, existing: seq<string>,
                 tagSource: string -> Result<string>, order: seq<string> -> Ordering)
    requires i <= |containers| && ListAll(containers[..i], existing, tagSource, order).crashed
    ensures ListAll(containers, existing, tagSource, order) == ListAll(containers[..i], existing, tagSource, order)
  {
    assert containers[..i] + containers[i..] == containers;
    ListAppend(containers[..i], containers[i..], existing, tagSource, order);
  }

  /** Collecting a concatenation collects the first part and then, unless it crashed, the second. */
  lemma {:induction false} CollectAppend(a: seq<Outcome>, b: seq<Outcome>)
    ensures var la, lb := Collect(a), Collect(b);
            Collect(a + b) == if la.crashed then la else Listed(la.uris + lb.uris, lb.crashed)
    decreases |b|
  {
    if b == [] {
      assert a + b == a;
    } else {
      var b' := b[..|b| - 1];
      assert (a + b)[..|a + b| - 1] == a + b';
      assert (a + b)[|a + b| - 1] == b[|b| - 1];
      CollectAppend(a, b');
      var la, lb' := Collect(a), Collect(b');
      if !la.crashed && !lb'.crashed && b[|b| - 1].Yielded? {
        assert la.uris + lb'.uris + [b[|b| - 1].uri] == la.uris + (lb'.uris + [b[|b| - 1].uri]);
      }
    }
  }

  /** Listing a concatenation of inputs lists the first part and then, unless it crashed,
      the second. */
  lemma ListAppend(a: seq<string>, b: seq<string>, existing: seq<string>,
                   tagSource: string -> Result<string>, order: seq<string> -> Ordering)
    ensures var la, lb := ListAll(a, existing, tagSource, order), ListAll(b, existing, tagSource, order);
            ListAll(a + b, existing, tagSource, order) ==
              if la.crashed then la else Listed(la.uris + lb.uris, lb.crashed)
  {
    OutcomesAppend(a, b, existing, tagSource, order);
    CollectAppend(Outcomes(a, existing, tagSource, order), Outcomes(b, existing, tagSource, order));
  }

  lemma OutcomesAppend(a: seq<string>, b: seq<string>, existing: seq<string>,
                       tagSource: string -> Result<string>, order: seq<string> -> Ordering)
    ensures Outcomes(a + b, existing, tagSource, order) ==
            Outcomes(a, existing, tagSource, order) + Outcomes(b, existing, tagSource, order)
  {
    var oa, ob := Outcomes(a, existing, tagSource, order), Outcomes(b, existing, tagSource, order);
    var o := Outcomes(a + b, existing, tagSource, order);
    assert forall i :: 0 <= i < |o| ==> o[i] == (oa + ob)[i];
  }

  /** After a crash nothing more is collected. */
  lemma CrashIsFinal(a: seq<Outcome>, b: seq<Outcome>)
    requires Collect(a).crashed
    ensures Collect(a + b) == Collect(a)
  {
    CollectAppend(a, b);
  }

  /** Without a crash, exactly the yielded names are collected. */
  lemma {:induction false} CollectYielded(outcomes: seq<Outcome>)
    requires forall i :: 0 <= i < |outcomes| ==> !outcomes[i].Crashed?
    ensures !Collect(outcomes).crashed
    ensures forall u :: u in Collect(outcomes).uris <==>
      exists i :: 0 <= i < |outcomes| && outcomes[i] == Yielded(u)
    decreases |outcomes|
  {
    if outcomes != [] {
      var init := outcomes[..|outcomes| - 1];
      assert forall i :: 0 <= i < |init| ==> init[i] == outcomes[i];
      CollectYielded(init);
    }
  }

  /** Without a crash the generator yields exactly the names its inputs select. */
  lemma ListAllYields(containers: seq<string>, existing: seq<string>,
                      tagSource: string -> Result<string>, order: seq<string> -> Ordering)
    requires forall i :: 0 <= i < |containers| ==> !ListOne(containers[i], existing, tagSource, order).Crashed?
    ensures !ListAll(containers, existing, tagSource, order).crashed
    ensures forall u :: u in ListAll(containers, existing, tagSource, order).uris <==>
      exists i :: 0 <= i < |containers| && ListOne(containers[i], existing, tagSource, order) == Yielded(u)
  {
    CollectYielded(Outcomes(containers, existing, tagSource, order));
  }

  /** There is no de-duplication: an input given twice is listed twice. */
  lemma Twice(container: string, existing: seq<string>, tagSource: string -> Result<string>,
              order: seq<string> -> Ordering)
    requires ListOne(container, existing, tagSource, order).Yielded?
    ensures var u := ListOne(container, existing, tagSource, order).uri;
            ListAll([container, container], existing, tagSource, order).uris == [u, u]
  {
    var o := Outcomes([container, container], existing, tagSource, order);
    assert o[..1][..0] == [];
    assert Collect(o[..1]).uris == [o[0].uri];
  }
}
