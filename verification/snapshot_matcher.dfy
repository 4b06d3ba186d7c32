/** The snapshot matcher: the component/image combination a build implies, the
    comparison used to deduplicate snapshots, and the first-match search. */
module SnapshotMatcher {

  import opened Wrappers
  import opened Objects

  // ---------------------------------------------------------------------------
  // Comparison of component lists
  // ---------------------------------------------------------------------------

  /** The inner loop of the comparison: does `c` occur among `found`? */
  function Contains(found: seq<SnapshotComponent>, c: SnapshotComponent): (r: bool)
    ensures r <==> c in found
  {
    if found == [] then false else found[0] == c || Contains(found[1..], c)
  }

  /** The outer loop of the comparison: is every expected entry found? */
  function AllFound(expected: seq<SnapshotComponent>, found: seq<SnapshotComponent>): (r: bool)
    ensures r <==> forall i :: 0 <= i < |expected| ==> expected[i] in found
  {
    if expected == [] then true
    else Contains(found, expected[0]) && AllFound(expected[1..], found)
  }

  /** Dedup test between the desired combination and an existing snapshot's
      components: equal counts, and every expected entry present in `found`. */
  function Compare(expected: seq<SnapshotComponent>, found: seq<SnapshotComponent>): (r: bool)
    ensures |expected| != |found| ==> !r
    ensures r <==> |expected| == |found| && forall c :: c in expected ==> c in found
  {
    |expected| == |found| && AllFound(expected, found)
  }

  /** The (name, image) pairs a component list holds, ignoring order and repetition. */
  ghost function Pairs(cs: seq<SnapshotComponent>): set<SnapshotComponent>
  {
    set c | c in cs
  }

  predicate Distinct(cs: seq<SnapshotComponent>)
  {
    forall i, j :: 0 <= i < j < |cs| ==> cs[i] != cs[j]
  }

  lemma CompareReflexive(cs: seq<SnapshotComponent>)
    ensures Compare(cs, cs)
  {
  }

  /** Reordering either list (any permutation) leaves the comparison unchanged. */
  lemma CompareIgnoresOrder(e: seq<SnapshotComponent>, e': seq<SnapshotComponent>,
                            f: seq<SnapshotComponent>, f': seq<SnapshotComponent>)
    requires multiset(e) == multiset(e') && multiset(f) == multiset(f')
    ensures Compare(e, f) == Compare(e', f')
  {
    assert |e| == |multiset(e)| == |e'|;
    assert |f| == |multiset(f)| == |f'|;
    forall c
      ensures c in e <==> c in e'
      ensures c in f <==> c in f'
    {
      assert c in e <==> c in multiset(e);
      assert c in e' <==> c in multiset(e');
      assert c in f <==> c in multiset(f);
      assert c in f' <==> c in multiset(f');
    }
  }

  /** A duplicate-free list holds as many distinct pairs as entries. */
  lemma {:induction false} DistinctPairsCount(cs: seq<SnapshotComponent>)
    requires Distinct(cs)
    ensures |Pairs(cs)| == |cs|
  {
    if cs != [] {
      var tail := cs[1..];
      assert Distinct(tail) by {
        forall i, j | 0 <= i < j < |tail| ensures tail[i] != tail[j] {
          assert tail[i] == cs[i + 1] && tail[j] == cs[j + 1];
        }
      }
      DistinctPairsCount(tail);
      assert cs[0] !in tail by {
        forall k | 0 <= k < |tail| ensures tail[k] != cs[0] {
          assert tail[k] == cs[k + 1];
        }
      }
      assert cs == [cs[0]] + tail;
      assert Pairs(cs) == Pairs(tail) + {cs[0]};
    }
  }

  lemma SubsetOfSameSize(a: set<SnapshotComponent>, b: set<SnapshotComponent>)
    requires a <= b && |a| == |b|
    ensures a == b
  {
    var rest := b - a;
    assert a + rest == b && a * rest == {};
    assert |b| == |a| + |rest|;
    assert rest == {};
  }

  /** For duplicate-free lists the comparison is equality of the pair sets. */
  lemma CompareIsSetEqualityWhenDistinct(e: seq<SnapshotComponent>, f: seq<SnapshotComponent>)
    requires Distinct(e) && Distinct(f)
    ensures Compare(e, f) <==> Pairs(e) == Pairs(f)
  {
    DistinctPairsCount(e);
    DistinctPairsCount(f);
    if Compare(e, f) {
      assert Pairs(e) <= Pairs(f);
      SubsetOfSameSize(Pairs(e), Pairs(f));
    }
    if Pairs(e) == Pairs(f) {
      forall c | c in e ensures c in f {
        assert c in Pairs(e);
      }
    }
  }

  /** For duplicate-free lists the comparison is symmetric. */
  lemma CompareSymmetricWhenDistinct(e: seq<SnapshotComponent>, f: seq<SnapshotComponent>)
    requires Distinct(e) && Distinct(f)
    ensures Compare(e, f) == Compare(f, e)
  {
    CompareIsSetEqualityWhenDistinct(e, f);
    CompareIsSetEqualityWhenDistinct(f, e);
  }

  /** With a repeated entry the comparison can be asymmetric. */
  lemma CompareAsymmetricWithDuplicates()
    ensures exists e, f :: Compare(e, f) && !Compare(f, e)
  {
    var a := SnapshotComponent("a", "quay.io/a@sha256:1");
    var b := SnapshotComponent("b", "quay.io/b@sha256:2");
    assert b in [a, b] && b !in [a, a];
    assert Compare([a, a], [a, b]) && !Compare([a, b], [a, a]);
  }

  // ---------------------------------------------------------------------------
  // Image pull spec of a build
  // ---------------------------------------------------------------------------

  /** `p` is the part of `image` before its first ':' (all of it when it has none). */
  ghost predicate IsNamePart(p: string, image: string)
  {
    && p <= image
    && ':' !in p
    && (|p| < |image| ==> image[|p|] == ':')
  }

  /** The first element of Go's strings.Split(image, ":"). */
  function NamePart(image: string): (r: string)
    ensures IsNamePart(r, image)
  {
    if image == [] || image[0] == ':' then [] else [image[0]] + NamePart(image[1..])
  }

  /** The name part of an image is uniquely determined. */
  lemma NamePartUnique(p: string, q: string, image: string)
    requires IsNamePart(p, image) && IsNamePart(q, image)
    ensures p == q
  {
  }

  /** The pull spec of a build's output: the image's name part, '@', and the digest.
      A failure reading either value is passed on. */
  function ImagePullSpec(outputImage: Result<string>, digest: Result<string>): (r: Result<string>)
    ensures outputImage.Failure? ==> r == Failure(outputImage.error)
    ensures outputImage.Success? && digest.Failure? ==> r == Failure(digest.error)
    ensures r.Success? <==> outputImage.Success? && digest.Success?
    ensures r.Success? ==>
      var n := |r.value| - |digest.value| - 1;
      && 0 <= n
      && IsNamePart(r.value[..n], outputImage.value)
      && r.value[n] == '@'
      && r.value[n + 1..] == digest.value
  {
    var image :- outputImage;
    var d :- digest;
    var p := NamePart(image);
    var r := p + "@" + d;
    assert r[..|p|] == p && r[|p|] == '@' && r[|p| + 1..] == d;
    Success(r)
  }

  /** An image without ':' is kept whole in front of the '@'. */
  lemma PullSpecOfImageWithoutTag(image: string, digest: string)
    requires ':' !in image
    ensures ImagePullSpec(Success(image), Success(digest)) == Success(image + "@" + digest)
  {
    var r := ImagePullSpec(Success(image), Success(digest)).value;
    var n := |r| - |digest| - 1;
    NamePartUnique(r[..n], image, image);
    assert r == r[..n] + "@" + digest;
  }

  // ---------------------------------------------------------------------------
  // The snapshot a build implies
  // ---------------------------------------------------------------------------

  /** `out` is `cs` with the component named `built` given the image `pullSpec`
      and every other component keeping its current image. */
  ghost predicate IsOverlay(cs: seq<Component>, built: string, pullSpec: Result<string>,
                            out: seq<SnapshotComponent>)
  {
    && |out| == |cs|
    && forall i :: 0 <= i < |cs| ==>
         && out[i].name == cs[i].name
         && (if cs[i].name == built then pullSpec == Success(out[i].containerImage)
             else out[i].containerImage == cs[i].containerImage)
  }

  /** The loop building Spec.Components: every component in order, the built
      one with the freshly computed pull spec. */
  function Overlay(cs: seq<Component>, built: string, pullSpec: Result<string>)
    : (r: Result<seq<SnapshotComponent>>)
    ensures r.Failure? <==> pullSpec.Failure? && exists i :: 0 <= i < |cs| && cs[i].name == built
    ensures r.Failure? ==> r == Failure(pullSpec.error)
    ensures r.Success? ==> IsOverlay(cs, built, pullSpec, r.value)
  {
    if cs == [] then Success([])
    else
      var image :- if cs[0].name == built then pullSpec else Success(cs[0].containerImage);
      var rest :- Overlay(cs[1..], built, pullSpec);
      assert forall i :: 1 <= i < |cs| ==> cs[i] == cs[1..][i - 1];
      Success([SnapshotComponent(cs[0].name, image)] + rest)
  }

  /** The error reported when the application's components cannot be listed. */
  function ComponentsError(app: Application): Error
  {
    "failed to get all Application Components for Application " + app.name
  }

  /** prepareApplicationSnapshotForPipelineRun: the snapshot the build implies,
      from the store's answer to listing the application's components. */
  function PrepareSnapshot(app: Application, built: string, components: Result<seq<Component>>,
                           pullSpec: Result<string>): (r: Result<Snapshot>)
    ensures components.Failure? ==> r == Failure(ComponentsError(app))
    ensures components.Success? ==>
      (r.Failure? <==>
         (pullSpec.Failure? && exists i :: 0 <= i < |components.value| && components.value[i].name == built))
    ensures components.Success? && r.Failure? ==> r == Failure(pullSpec.error)
    ensures r.Success? ==>
      && components.Success?
      && IsOverlay(components.value, built, pullSpec, r.value.components)
      && r.value.name == ""
      && r.value.labels == map[ComponentLabel := built]
      && r.value.generateName == app.name + "-"
      && r.value.application == app.name
      && r.value.namespace == app.namespace
      && r.value.conditions == []
  {
    match components
    case Failure(_) => Failure(ComponentsError(app))
    case Success(cs) =>
      var overlaid :- Overlay(cs, built, pullSpec);
      Success(Snapshot(
        name := "",
        generateName := app.name + "-",
        namespace := app.namespace,
        labels := map[ComponentLabel := built],
        application := app.name,
        components := overlaid,
        conditions := []))
  }

  /** When no component carries the built name, a failing pull spec is never
      computed and every component keeps its image. */
  lemma PrepareWithoutBuiltComponent(app: Application, built: string, cs: seq<Component>,
                                     pullSpec: Result<string>)
    requires forall i :: 0 <= i < |cs| ==> cs[i].name != built
    ensures PrepareSnapshot(app, built, Success(cs), pullSpec).Success?
    ensures var out := PrepareSnapshot(app, built, Success(cs), pullSpec).value.components;
      |out| == |cs| &&
      forall i :: 0 <= i < |cs| ==> out[i] == SnapshotComponent(cs[i].name, cs[i].containerImage)
  {
  }

  // ---------------------------------------------------------------------------
  // First-match search
  // ---------------------------------------------------------------------------

  /** `i` is the first snapshot in list order whose components compare equal. */
  ghost predicate IsFirstMatch(expected: seq<SnapshotComponent>, snapshots: seq<Snapshot>, i: int)
  {
    && 0 <= i < |snapshots|
    && Compare(expected, snapshots[i].components)
    && forall j :: 0 <= j < i ==> !Compare(expected, snapshots[j].components)
  }

  /** The loop of findMatchingApplicationSnapshot, as the index it stops at. */
  function FirstMatch(expected: seq<SnapshotComponent>, snapshots: seq<Snapshot>): (r: Option<nat>)
    ensures r.Some? ==> IsFirstMatch(expected, snapshots, r.value)
    ensures r.None? <==> forall j :: 0 <= j < |snapshots| ==> !Compare(expected, snapshots[j].components)
  {
    if snapshots == [] then None
    else if Compare(expected, snapshots[0].components) then Some(0)
    else
      match FirstMatch(expected, snapshots[1..])
      case None => None
      case Some(k) => Some(k + 1)
  }

  /** findMatchingApplicationSnapshot: prepare the desired snapshot, list the
      application's snapshots, and return the first that compares equal. */
  function FindMatchingSnapshot(app: Application, built: string, components: Result<seq<Component>>,
                                pullSpec: Result<string>, listed: Result<seq<Snapshot>>)
    : (r: Result<Option<Snapshot>>)
    ensures PrepareSnapshot(app, built, components, pullSpec).Failure? ==>
      r == Failure(PrepareSnapshot(app, built, components, pullSpec).error)
    ensures PrepareSnapshot(app, built, components, pullSpec).Success? && listed.Failure? ==>
      r == Failure(listed.error)
    ensures r.Success? <==> PrepareSnapshot(app, built, components, pullSpec).Success? && listed.Success?
    ensures r.Success? && r.value.Some? ==>
      exists i :: IsFirstMatch(PrepareSnapshot(app, built, components, pullSpec).value.components,
                               listed.value, i)
               && listed.value[i] == r.value.value
    ensures r.Success? && r.value.None? ==>
      forall j :: 0 <= j < |listed.value| ==>
        !Compare(PrepareSnapshot(app, built, components, pullSpec).value.components,
                 listed.value[j].components)
  {
    var expected :- PrepareSnapshot(app, built, components, pullSpec);
    var all :- listed;
    match FirstMatch(expected.components, all)
    case None => Success(None)
    case Some(i) => Success(Some(all[i]))
  }
}
