/** The development sample: images with a known quality condition first, then all images in
    digest order, until the sample is full; the result depends on the set of images only. */
module DeterministicSample {
  import opened Sequences
  import opened Sorting

  /** Digests and conditions are texts, of which only the order matters here.  An image without a
      condition sorts behind all that have one. */
  datatype Image = Image(sha: nat, condition: Option<nat>)

  predicate BySha(a: nat, b: nat) { a < b }

  /** The key of the coverage order: first condition, then digest. */
  predicate ByCondition(a: Image, b: Image) {
    match (a.condition, b.condition)
    case (Some(c), Some(d)) => c < d || (c == d && a.sha < b.sha)
    case (Some(_), None) => true
    case (None, Some(_)) => false
    case (None, None) => a.sha < b.sha
  }

  function ShaSet(images: seq<Image>): set<nat> { set image | image in images :: image.sha }

  predicate DistinctShas(images: seq<Image>) {
    forall i, j :: 0 <= i < j < |images| ==> images[i].sha != images[j].sha
  }

  /** The sample is in digest order, has the wanted size, and no image left out comes before
      one taken: by condition and digest, those without a condition last. */
  ghost predicate IsSample(images: seq<Image>, sample: seq<Image>, size: nat) {
    && |sample| == size
    && (forall i, j :: 0 <= i < j < |sample| ==> sample[i].sha < sample[j].sha)
    && (forall image :: image in sample ==> image in images)
    && (forall a, b :: a in sample && b in images && b !in sample ==> ByCondition(a, b))
  }

  lemma OrdersAreTotal()
    ensures TotalOrder(BySha) && TotalOrder(ByCondition)
  {
  }

  lemma SameShaSameImage(images: seq<Image>, a: Image, b: Image)
    requires DistinctShas(images) && a in images && b in images && a.sha == b.sha
    ensures a == b
  {
  }

  // ---- The sample is unique ----

  function Elements<T>(xs: seq<T>): set<T> { set x | x in xs }

  lemma ElementsGrow<T>(xs: seq<T>, x: T)
    ensures Elements(xs + [x]) == Elements(xs) + {x}
  {
  }

  lemma {:induction false} DistinctCount<T>(xs: seq<T>)
    requires forall i, j :: 0 <= i < j < |xs| ==> xs[i] != xs[j]
    ensures |Elements(xs)| == |xs|
  {
    if xs != [] {
      var init, last := xs[..|xs| - 1], xs[|xs| - 1];
      assert xs == init + [last];
      DistinctCount(init);
      ElementsGrow(init, last);
    }
  }

  function ShaSeq(images: seq<Image>): seq<nat> { seq(|images|, i requires 0 <= i < |images| => images[i].sha) }

  lemma SampleShas(sample: seq<Image>)
    requires forall i, j :: 0 <= i < j < |sample| ==> sample[i].sha < sample[j].sha
    ensures |ShaSet(sample)| == |sample| && Sorted(ShaSeq(sample), BySha)
    ensures forall sha :: sha in ShaSeq(sample) <==> sha in ShaSet(sample)
  {
    DistinctCount(ShaSeq(sample));
    forall sha ensures sha in ShaSeq(sample) <==> sha in ShaSet(sample) {
      if sha in ShaSet(sample) {
        var image :| image in sample && image.sha == sha;
        var i :| 0 <= i < |sample| && sample[i] == image;
        assert ShaSeq(sample)[i] == sha;
      }
    }
    assert Elements(ShaSeq(sample)) == ShaSet(sample);
  }

  /** Of two samples of one size, one cannot lack an image without having another. */
  lemma Another(images: seq<Image>, r: seq<Image>, t: seq<Image>, size: nat, a: Image) returns (b: Image)
    requires DistinctShas(images) && IsSample(images, r, size) && IsSample(images, t, size) && a in r && a !in t
    ensures b in t && b !in r
  {
    SampleShas(r);
    SampleShas(t);
    if forall b :: b in t ==> b in r {
      forall sha | sha in ShaSet(t) ensures sha in ShaSet(r) && sha != a.sha {
        var b :| b in t && b.sha == sha;
        assert b in images && a in images;
        if b.sha == a.sha { SameShaSameImage(images, a, b); }
      }
      Smaller(ShaSet(t), ShaSet(r) - {a.sha});
      assert false;
    }
    b :| b in t && b !in r;
  }

  lemma NoneMissing(images: seq<Image>, r: seq<Image>, t: seq<Image>, size: nat, a: Image)
    requires DistinctShas(images) && IsSample(images, r, size) && IsSample(images, t, size) && a in r
    ensures a in t
  {
    if a !in t {
      var b := Another(images, r, t, size, a);
      assert false;
    }
  }

  lemma Smaller<T>(a: set<T>, b: set<T>)
    requires a <= b
    ensures |a| <= |b|
  {
    assert b == a + (b - a);
  }

  /** The sample depends on the set of images alone: every order of the input gives the same. */
  lemma SampleIsOrderIndependent(images: seq<Image>, permuted: seq<Image>, r: seq<Image>, t: seq<Image>, size: nat)
    requires DistinctShas(images) && (forall image :: image in images <==> image in permuted)
    requires IsSample(images, r, size) && IsSample(permuted, t, size)
    ensures r == t
  {
    assert IsSample(images, t, size);
    forall a ensures a in r <==> a in t {
      if a in r { NoneMissing(images, r, t, size, a); }
      if a in t { NoneMissing(images, t, r, size, a); }
    }
    SampleShas(r);
    SampleShas(t);
    OrdersAreTotal();
    SortedUnique(ShaSeq(r), ShaSeq(t), BySha);
    forall i | 0 <= i < |r| ensures r[i] == t[i] {
      assert ShaSeq(r)[i] == ShaSeq(t)[i];
      SameShaSameImage(images, r[i], t[i]);
    }
  }

  function Covered(images: seq<Image>): set<Image> { set image | image in images && image.condition.Some? }

  lemma SampleCount(images: seq<Image>, sample: seq<Image>, size: nat)
    requires IsSample(images, sample, size)
    ensures |Elements(sample)| == size
  {
    DistinctCount(sample);
  }

  /** Images with a quality condition come first: all of them are taken if they fit, and if
      they fill the sample nothing else is. */
  lemma ConditionsComeFirst(images: seq<Image>, sample: seq<Image>, size: nat)
    requires IsSample(images, sample, size)
    ensures |Covered(images)| <= size ==> Covered(images) <= Elements(sample)
    ensures |Covered(images)| >= size ==> Elements(sample) <= Covered(images)
  {
    SampleCount(images, sample, size);
    if !(Covered(images) <= Elements(sample)) {
      var missing :| missing in Covered(images) && missing !in Elements(sample);
      assert Elements(sample) <= Covered(images) - {missing} by {
        forall a | a in sample ensures a.condition.Some? {
          assert ByCondition(a, missing);
        }
      }
      Smaller(Elements(sample), Covered(images) - {missing});
    } else if |Covered(images)| >= size {
      Smaller(Covered(images), Elements(sample));
      SameSize(Covered(images), Elements(sample));
    }
  }

  lemma SameSize<T>(a: set<T>, b: set<T>)
    requires a <= b && |a| >= |b|
    ensures a == b
  {
    assert b == a + (b - a);
  }

  // ---- Drawing it ----

  /** The digests in the order the tool considers them. */
  ghost predicate IsOrder(images: seq<Image>, coverage: seq<Image>, shas: seq<nat>) {
    && Sorted(coverage, ByCondition) && (forall image :: image in coverage <==> image in images && image.condition.Some?)
    && Sorted(shas, BySha) && (forall sha :: sha in shas <==> sha in ShaSet(images))
  }

  lemma PlainIsNotCovered(images: seq<Image>, coverage: seq<Image>, a: Image, k: nat)
    requires DistinctShas(images) && a in images && a.condition.None?
    requires forall image :: image in coverage ==> image in images && image.condition.Some?
    ensures k < |coverage| ==> coverage[k].sha != a.sha
  {
    if k < |coverage| {
      assert coverage[k] in images && coverage[k] != a;
      if coverage[k].sha == a.sha { SameShaSameImage(images, a, coverage[k]); }
    }
  }

  lemma InPrefix(order: seq<nat>, n: nat, i: nat)
    requires i < |order| && n <= |order|
    ensures i < n ==> order[i] in order[..n]
  {
    if i < n { assert order[..n][i] == order[i]; }
  }

  /** Whatever was considered before comes before whatever was not. */
  lemma ConsideredFirst(images: seq<Image>, coverage: seq<Image>, shas: seq<nat>, n: nat, a: Image, b: Image)
    requires DistinctShas(images) && IsOrder(images, coverage, shas) && n <= |coverage| + |shas|
    requires a in images && b in images
    requires a.sha in (ShaSeq(coverage) + shas)[..n] && b.sha !in (ShaSeq(coverage) + shas)[..n]
    ensures ByCondition(a, b)
  {
    var order := ShaSeq(coverage) + shas;
    var k :| 0 <= k < n && order[k] == a.sha;
    assert b.sha in ShaSet(images) && b.sha in shas;
    if b.condition.Some? {
      var l :| 0 <= l < |coverage| && coverage[l] == b;
      assert order[l] == b.sha;
      InPrefix(order, n, l);
      SameShaSameImage(images, a, coverage[k]);
    } else if a.condition.None? {
      var l :| 0 <= l < |shas| && shas[l] == b.sha;
      assert order[|coverage| + l] == b.sha;
      InPrefix(order, n, |coverage| + l);
      PlainIsNotCovered(images, coverage, a, k);
      assert order[k] == shas[k - |coverage|];
    }
  }

  /** The dictionary of the images under their digests. */
  method Unique(images: seq<Image>) returns (unique: map<nat, Image>)
    ensures unique.Keys == ShaSet(images)
    ensures forall sha :: sha in unique ==> unique[sha] in images && unique[sha].sha == sha
  {
    unique := map[];
    for i := 0 to |images|
      invariant unique.Keys == ShaSet(images[..i])
      invariant forall sha :: sha in unique ==> unique[sha] in images && unique[sha].sha == sha
    {
      assert images[..i + 1] == images[..i] + [images[i]];
      unique := unique[images[i].sha := images[i]];
    }
    assert images[..|images|] == images;
  }

  lemma ShaSetGrows(init: seq<Image>, last: Image)
    ensures ShaSet(init + [last]) == ShaSet(init) + {last.sha}
  {
  }

  lemma ClashFound(init: seq<Image>, last: Image)
    requires last.sha in ShaSet(init)
    ensures !DistinctShas(init + [last])
  {
    var images := init + [last];
    var image :| image in init && image.sha == last.sha;
    var i :| 0 <= i < |init| && init[i] == image;
    assert images[i].sha == images[|init|].sha;
  }

  lemma Clash(init: seq<Image>, last: Image)
    ensures DistinctShas(init + [last]) <==> DistinctShas(init) && last.sha !in ShaSet(init)
  {
    var images := init + [last];
    if last.sha in ShaSet(init) { ClashFound(init, last); }
    if DistinctShas(images) {
      forall i, j | 0 <= i < j < |init| ensures init[i].sha != init[j].sha {
        assert images[i].sha != images[j].sha;
      }
    }
  }

  /** Fewer digests than images exactly when two images share one. */
  lemma {:induction false} DuplicatesShow(images: seq<Image>)
    ensures |ShaSet(images)| <= |images| && (|ShaSet(images)| == |images| <==> DistinctShas(images))
  {
    if images != [] {
      var init, last := images[..|images| - 1], images[|images| - 1];
      assert images == init + [last];
      DuplicatesShow(init);
      ShaSetGrows(init, last);
      Clash(init, last);
      if last.sha in ShaSet(init) {
        assert ShaSet(images) == ShaSet(init);
      }
    }
  }

  /** The loop: take digests in order, skipping those taken, until there are enough. */
  method Select(order: seq<nat>, size: nat) returns (selected: seq<nat>, n: nat)
    requires size > 0
    ensures n <= |order| && |selected| <= size && (|selected| == size || n == |order|)
    ensures forall i, j :: 0 <= i < j < |selected| ==> selected[i] != selected[j]
    ensures forall sha :: sha in selected <==> sha in order[..n]
  {
    selected, n := [], 0;
    while n < |order|
      invariant n <= |order| && |selected| < size
      invariant forall i, j :: 0 <= i < j < |selected| ==> selected[i] != selected[j]
      invariant forall sha :: sha in selected <==> sha in order[..n]
    {
      assert order[..n + 1] == order[..n] + [order[n]];
      if order[n] !in selected { selected := selected + [order[n]]; }
      n := n + 1;
      if |selected| == size { return; }
    }
  }

  method Draw(images: seq<Image>, unique: map<nat, Image>, size: nat) returns (sample: seq<Image>)
    requires 1 <= size <= |images| && DistinctShas(images) && unique.Keys == ShaSet(images)
    requires forall sha :: sha in unique ==> unique[sha] in images && unique[sha].sha == sha
    ensures IsSample(images, sample, size)
  {
    OrdersAreTotal();
    var coverage := SortSet(Covered(images), ByCondition);
    var shas := SortSet(unique.Keys, BySha);
    assert IsOrder(images, coverage, shas);
    var selected, n := Select(ShaSeq(coverage) + shas, size);
    EnoughSelected(images, coverage, shas, selected, n, size);
    var ordered := SortSet(Elements(selected), BySha);
    IsTheSample(images, coverage, shas, unique, selected, n, ordered, size);
    sample := seq(|ordered|, i requires 0 <= i < |ordered| && ordered[i] in unique => unique[ordered[i]]);
  }

  /** `deterministic_sample` */
  method Sample(images: seq<Image>, size: int) returns (sample: Option<seq<Image>>)
    ensures sample.Some? <==> 1 <= size <= 30 && size <= |images| && DistinctShas(images)
    ensures sample.Some? ==> IsSample(images, sample.value, size)
  {
    if !(1 <= size <= 30) || size > |images| { return None; }
    var unique := Unique(images);
    DuplicatesShow(images);
    if |unique.Keys| != |images| { return None; }
    var drawn := Draw(images, unique, size);
    return Some(drawn);
  }

  lemma EnoughSelected(images: seq<Image>, coverage: seq<Image>, shas: seq<nat>, selected: seq<nat>, n: nat, size: nat)
    requires DistinctShas(images) && IsOrder(images, coverage, shas) && size <= |images|
    requires n <= |coverage| + |shas| && |selected| <= size && (|selected| == size || n == |coverage| + |shas|)
    requires forall i, j :: 0 <= i < j < |selected| ==> selected[i] != selected[j]
    requires forall sha :: sha in selected <==> sha in (ShaSeq(coverage) + shas)[..n]
    ensures |selected| == size && forall sha :: sha in selected ==> sha in ShaSet(images)
  {
    var order := ShaSeq(coverage) + shas;
    forall sha | sha in selected ensures sha in ShaSet(images) {
      var k :| 0 <= k < n && order[k] == sha;
      if k < |coverage| { assert coverage[k] in images; } else { assert shas[k - |coverage|] in ShaSet(images); }
    }
    if n == |order| {
      forall sha | sha in ShaSet(images) ensures sha in selected {
        var k :| 0 <= k < |shas| && shas[k] == sha;
        assert order[..n][|coverage| + k] == sha;
      }
      DistinctCount(selected);
      DuplicatesShow(images);
      assert Elements(selected) == ShaSet(images);
    }
  }

  lemma IsTheSample(images: seq<Image>, coverage: seq<Image>, shas: seq<nat>, unique: map<nat, Image>, selected: seq<nat>,
                    n: nat, ordered: seq<nat>, size: nat)
    requires DistinctShas(images) && IsOrder(images, coverage, shas) && n <= |coverage| + |shas|
    requires unique.Keys == ShaSet(images) && forall sha :: sha in unique ==> unique[sha] in images && unique[sha].sha == sha
    requires |selected| == size && forall i, j :: 0 <= i < j < |selected| ==> selected[i] != selected[j]
    requires forall sha :: sha in selected <==> sha in (ShaSeq(coverage) + shas)[..n]
    requires forall sha :: sha in selected ==> sha in ShaSet(images)
    requires Sorted(ordered, BySha) && forall sha :: sha in ordered <==> sha in selected
    ensures forall i :: 0 <= i < |ordered| ==> ordered[i] in unique
    ensures IsSample(images, seq(|ordered|, i requires 0 <= i < |ordered| && ordered[i] in unique => unique[ordered[i]]), size)
  {
    assert forall i :: 0 <= i < |ordered| ==> ordered[i] in ordered && ordered[i] in unique;
    var sample := seq(|ordered|, i requires 0 <= i < |ordered| && ordered[i] in unique => unique[ordered[i]]);
    DistinctCount(ordered);
    DistinctCount(selected);
    assert Elements(ordered) == Elements(selected);
    forall a, b | a in sample && b in images && b !in sample ensures ByCondition(a, b) {
      assert a.sha in ordered;
      if b.sha in ordered {
        var k :| 0 <= k < |ordered| && ordered[k] == b.sha;
        SameShaSameImage(images, b, sample[k]);
      }
      ConsideredFirst(images, coverage, shas, n, a, b);
    }
  }
}
