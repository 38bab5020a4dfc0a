/** The layer classifier of `getImageInfo`: the loop over the manifest's
    layers that hoists bootstrap (OCI gzip) layers to the front, appends
    Nydus blob layers, drops the rest and sums sizes. The registry lookup
    that yields the layer list is not modelled: the list is an input. */
module Image {
  import opened Common

  /** The part of the source's `imageInfo` this model uses; the manifest
      object itself is not kept. */
  datatype ImageInfo = ImageInfo(
    imagePath: string,
    layerDigest: seq<Digest>,
    layerSize: seq<nat>,
    totalSize: int)

  /** The layers of a list that carry media type t, in list order. */
  function Filter(ls: seq<Descriptor>, t: string): (r: seq<Descriptor>)
    ensures |r| <= |ls|
  {
    if ls == [] then []
    else Filter(ls[..|ls| - 1], t) + (if ls[|ls| - 1].mediaType == t then [ls[|ls| - 1]] else [])
  }

  predicate Recognised(l: Descriptor) {
    l.mediaType == MediaTypeOCI1LayerGzip || l.mediaType == MediaTypeNydusBlob
  }

  /** The layers matching neither media type, in list order. */
  function Unrecognised(ls: seq<Descriptor>): seq<Descriptor> {
    if ls == [] then []
    else Unrecognised(ls[..|ls| - 1]) + (if Recognised(ls[|ls| - 1]) then [] else [ls[|ls| - 1]])
  }

  function Reversed<T>(s: seq<T>): seq<T> {
    if s == [] then [] else [s[|s| - 1]] + Reversed(s[..|s| - 1])
  }

  /** The layer order the classifier produces: bootstrap layers, latest
      first, then blob layers in manifest order. */
  function Classified(ls: seq<Descriptor>): seq<Descriptor> {
    Reversed(Filter(ls, MediaTypeOCI1LayerGzip)) + Filter(ls, MediaTypeNydusBlob)
  }

  function Digests(ls: seq<Descriptor>): (r: seq<Digest>)
    ensures |r| == |ls| && forall k :: 0 <= k < |ls| ==> r[k] == ls[k].digest
  {
    seq(|ls|, k requires 0 <= k < |ls| => ls[k].digest)
  }

  function Sizes(ls: seq<Descriptor>): (r: seq<nat>)
    ensures |r| == |ls| && forall k :: 0 <= k < |ls| ==> r[k] == ls[k].size
  {
    seq(|ls|, k requires 0 <= k < |ls| => ls[k].size)
  }

  function Sum(s: seq<nat>): nat {
    if s == [] then 0 else Sum(s[..|s| - 1]) + s[|s| - 1]
  }

  /** The sum of the sizes of a list of layers. */
  function TotalSize(ls: seq<Descriptor>): nat {
    Sum(Sizes(ls))
  }

  /** The classification `getImageInfo` performs, step by step: prepend on
      gzip, append on Nydus blob, and add every layer's size to totalSize. */
  method GetImageInfo(imagePath: string, layers: seq<Descriptor>) returns (image: ImageInfo)
    ensures image.imagePath == imagePath
    ensures image.layerDigest == Digests(Classified(layers))
    ensures image.layerSize == Sizes(Classified(layers))
    ensures image.totalSize == TotalSize(layers)
  {
    var totalSize := 0;
    var layerDigest: seq<Digest> := [];
    var layerSize: seq<nat> := [];
    for i := 0 to |layers|
      invariant layerDigest == Digests(Classified(layers[..i]))
      invariant layerSize == Sizes(Classified(layers[..i]))
      invariant totalSize == TotalSize(layers[..i])
    {
      var v := layers[i];
      ghost var c := Classified(layers[..i]);
      ClassifiedSnoc(layers[..i], v);
      TotalSizeSnoc(layers[..i], v);
      assert layers[..i + 1] == layers[..i] + [v];
      if v.mediaType == MediaTypeOCI1LayerGzip {
        // gzip layers go to the front
        layerDigest := [v.digest] + layerDigest;
        layerSize := [v.size] + layerSize;
        assert Classified(layers[..i + 1]) == [v] + c;
        DigestsSizesConcat([v], c);
        assert Digests([v]) == [v.digest] && Sizes([v]) == [v.size];
      } else if v.mediaType == MediaTypeNydusBlob {
        layerDigest := layerDigest + [v.digest];
        layerSize := layerSize + [v.size];
        assert Classified(layers[..i + 1]) == c + [v];
        DigestsSizesConcat(c, [v]);
        assert Digests([v]) == [v.digest] && Sizes([v]) == [v.size];
      } else {
        assert Classified(layers[..i + 1]) == c;
      }
      totalSize := totalSize + v.size;
    }
    assert layers[..|layers|] == layers;
    image := ImageInfo(imagePath, layerDigest, layerSize, totalSize);
  }

  lemma DigestsSizesConcat(a: seq<Descriptor>, b: seq<Descriptor>)
    ensures Digests(a + b) == Digests(a) + Digests(b)
    ensures Sizes(a + b) == Sizes(a) + Sizes(b)
  {
  }

  /** One more layer: a gzip layer goes to the front, a blob layer to the
      back, any other layer changes nothing. */
  lemma ClassifiedSnoc(ls: seq<Descriptor>, v: Descriptor)
    ensures Classified(ls + [v]) ==
      if v.mediaType == MediaTypeOCI1LayerGzip then [v] + Classified(ls)
      else if v.mediaType == MediaTypeNydusBlob then Classified(ls) + [v]
      else Classified(ls)
  {
    var s := ls + [v];
    assert s[..|s| - 1] == ls;
    MediaTypesDiffer();
    var g := Filter(ls, MediaTypeOCI1LayerGzip);
    if v.mediaType == MediaTypeOCI1LayerGzip {
      var g' := g + [v];
      assert Filter(s, MediaTypeOCI1LayerGzip) == g';
      assert g'[..|g'| - 1] == g;
      assert Reversed(g') == [v] + Reversed(g);
      assert Filter(s, MediaTypeNydusBlob) == Filter(ls, MediaTypeNydusBlob);
    } else if v.mediaType == MediaTypeNydusBlob {
      assert Filter(s, MediaTypeOCI1LayerGzip) == g;
      assert Filter(s, MediaTypeNydusBlob) == Filter(ls, MediaTypeNydusBlob) + [v];
    } else {
      assert Filter(s, MediaTypeOCI1LayerGzip) == g;
      assert Filter(s, MediaTypeNydusBlob) == Filter(ls, MediaTypeNydusBlob);
    }
  }

  lemma TotalSizeSnoc(ls: seq<Descriptor>, v: Descriptor)
    ensures TotalSize(ls + [v]) == TotalSize(ls) + v.size
  {
    var s := Sizes(ls + [v]);
    assert s[..|s| - 1] == Sizes(ls);
  }

  // ----- properties of the classification -----

  lemma {:induction false} ReversedAt<T>(s: seq<T>, k: nat)
    requires k < |s|
    ensures |Reversed(s)| == |s| && Reversed(s)[k] == s[|s| - 1 - k]
    decreases |s|
  {
    if k > 0 {
      ReversedAt(s[..|s| - 1], k - 1);
    } else if |s| > 1 {
      ReversedAt(s[..|s| - 1], 0);
    } else {
      assert s[..0] == [];
    }
  }

  lemma {:induction false} ReversedLength<T>(s: seq<T>)
    ensures |Reversed(s)| == |s|
    decreases |s|
  {
    if s != [] { ReversedLength(s[..|s| - 1]); }
  }

  lemma ClassifiedLength(ls: seq<Descriptor>)
    ensures |Classified(ls)| == |Filter(ls, MediaTypeOCI1LayerGzip)| + |Filter(ls, MediaTypeNydusBlob)|
  {
    ReversedLength(Filter(ls, MediaTypeOCI1LayerGzip));
  }

  /** The output lists the bootstrap layers latest first, then the blob
      layers in manifest order, and nothing else. */
  lemma ClassifiedAt(ls: seq<Descriptor>, k: nat)
    requires k < |Classified(ls)|
    ensures var g := Filter(ls, MediaTypeOCI1LayerGzip);
            var b := Filter(ls, MediaTypeNydusBlob);
            |Classified(ls)| == |g| + |b| &&
            (k < |g| ==> Classified(ls)[k] == g[|g| - 1 - k]) &&
            (k >= |g| ==> Classified(ls)[k] == b[k - |g|])
  {
    var g := Filter(ls, MediaTypeOCI1LayerGzip);
    ReversedLength(g);
    if k < |g| { ReversedAt(g, k); }
  }

  /** Filtering distributes over concatenation. */
  lemma {:induction false} FilterAppend(a: seq<Descriptor>, b: seq<Descriptor>, t: string)
    ensures Filter(a + b, t) == Filter(a, t) + Filter(b, t)
    decreases |b|
  {
    if b == [] {
      assert a + b == a;
    } else {
      var ab := a + b;
      assert ab[..|ab| - 1] == a + b[..|b| - 1];
      FilterAppend(a, b[..|b| - 1], t);
    }
  }

  lemma FilterMembers(ls: seq<Descriptor>, t: string, l: Descriptor)
    ensures l in Filter(ls, t) <==> l in ls && l.mediaType == t
  {
    if ls != [] {
      var p := ls[..|ls| - 1];
      FilterMembers(p, t, l);
      assert ls == p + [ls[|ls| - 1]];
    }
  }

  lemma ReversedMembers<T>(s: seq<T>, x: T)
    ensures x in Reversed(s) <==> x in s
  {
    ReversedLength(s);
    if x in s {
      var i :| 0 <= i < |s| && s[i] == x;
      ReversedAt(s, |s| - 1 - i);
    }
    if x in Reversed(s) {
      var i :| 0 <= i < |s| && Reversed(s)[i] == x;
      ReversedAt(s, i);
    }
  }

  /** A layer appears in the output exactly when it appears in the manifest
      with one of the two recognised media types. */
  lemma ClassifiedMembers(ls: seq<Descriptor>, l: Descriptor)
    ensures l in Classified(ls) <==> l in ls && Recognised(l)
  {
    FilterMembers(ls, MediaTypeOCI1LayerGzip, l);
    FilterMembers(ls, MediaTypeNydusBlob, l);
    ReversedMembers(Filter(ls, MediaTypeOCI1LayerGzip), l);
  }

  /** Every layer lands in exactly one of the bootstrap, blob and dropped
      groups, so the output is never longer than the manifest. */
  lemma {:induction false} ClassifiedCount(ls: seq<Descriptor>)
    ensures |Classified(ls)| + |Unrecognised(ls)| == |ls|
    ensures |Classified(ls)| <= |ls|
    decreases |ls|
  {
    ReversedLength(Filter(ls, MediaTypeOCI1LayerGzip));
    if ls != [] {
      ClassifiedCount(ls[..|ls| - 1]);
      ReversedLength(Filter(ls[..|ls| - 1], MediaTypeOCI1LayerGzip));
    }
  }

  /** With exactly one gzip layer, it ends at index 0 wherever it sat. */
  lemma BootstrapHoisted(ls: seq<Descriptor>, i: nat)
    requires i < |ls| && ls[i].mediaType == MediaTypeOCI1LayerGzip
    requires |Filter(ls, MediaTypeOCI1LayerGzip)| == 1
    ensures Classified(ls)[0] == ls[i]
  {
    var g := Filter(ls, MediaTypeOCI1LayerGzip);
    FilterMembers(ls, MediaTypeOCI1LayerGzip, ls[i]);
    assert g == [ls[i]];
    assert Reversed(g) == [ls[i]] by { assert g[..0] == []; }
  }

  /** Where two layers i < j of the same media type t sit in Filter(ls, t). */
  lemma FilterPositions(ls: seq<Descriptor>, t: string, i: nat, j: nat) returns (p: nat, q: nat)
    requires i < j < |ls|
    requires ls[i].mediaType == t && ls[j].mediaType == t
    ensures p < q < |Filter(ls, t)|
    ensures Filter(ls, t)[p] == ls[i] && Filter(ls, t)[q] == ls[j]
  {
    var a, mid, c := ls[..i], ls[i + 1..j], ls[j + 1..];
    assert ls == a + [ls[i]] + mid + [ls[j]] + c;
    FilterAppend(a + [ls[i]] + mid + [ls[j]], c, t);
    FilterAppend(a + [ls[i]] + mid, [ls[j]], t);
    FilterAppend(a + [ls[i]], mid, t);
    FilterAppend(a, [ls[i]], t);
    assert Filter([ls[i]], t) == [ls[i]] by { assert [ls[i]][..0] == []; }
    assert Filter([ls[j]], t) == [ls[j]] by { assert [ls[j]][..0] == []; }
    p := |Filter(a, t)|;
    q := p + 1 + |Filter(mid, t)|;
  }

  /** Blob layers keep their manifest order in the output, after every
      bootstrap layer; bootstrap layers come out in reverse manifest order,
      because each is prepended. */
  lemma ManifestOrder(ls: seq<Descriptor>, i: nat, j: nat) returns (pi: nat, pj: nat)
    requires i < j < |ls| && ls[i].mediaType == ls[j].mediaType
    requires ls[i].mediaType == MediaTypeOCI1LayerGzip || ls[i].mediaType == MediaTypeNydusBlob
    ensures pi < |Classified(ls)| && pj < |Classified(ls)|
    ensures Classified(ls)[pi] == ls[i] && Classified(ls)[pj] == ls[j]
    ensures ls[i].mediaType == MediaTypeNydusBlob ==>
              |Filter(ls, MediaTypeOCI1LayerGzip)| <= pi < pj
    ensures ls[i].mediaType == MediaTypeOCI1LayerGzip ==>
              pj < pi < |Filter(ls, MediaTypeOCI1LayerGzip)|
  {
    var t := ls[i].mediaType;
    var g := Filter(ls, MediaTypeOCI1LayerGzip);
    var p, q := FilterPositions(ls, t, i, j);
    ClassifiedLength(ls);
    if t == MediaTypeNydusBlob {
      pi, pj := |g| + p, |g| + q;
      ClassifiedAt(ls, pi);
      ClassifiedAt(ls, pj);
    } else {
      pi, pj := |g| - 1 - p, |g| - 1 - q;
      ClassifiedAt(ls, pi);
      ClassifiedAt(ls, pj);
    }
  }

  lemma {:induction false} SumAppend(a: seq<nat>, b: seq<nat>)
    ensures Sum(a + b) == Sum(a) + Sum(b)
    decreases |b|
  {
    if b == [] {
      assert a + b == a;
    } else {
      var ab := a + b;
      assert ab[..|ab| - 1] == a + b[..|b| - 1];
      SumAppend(a, b[..|b| - 1]);
    }
  }

  lemma {:induction false} TotalSizeReversed(s: seq<Descriptor>)
    ensures TotalSize(Reversed(s)) == TotalSize(s)
    decreases |s|
  {
    if s != [] {
      var p := s[..|s| - 1];
      TotalSizeReversed(p);
      assert Sizes([s[|s| - 1]] + Reversed(p)) == [s[|s| - 1].size] + Sizes(Reversed(p));
      SumAppend([s[|s| - 1].size], Sizes(Reversed(p)));
      assert Sizes(s) == Sizes(p) + [s[|s| - 1].size];
      SumAppend(Sizes(p), [s[|s| - 1].size]);
      assert Sum([s[|s| - 1].size]) == s[|s| - 1].size by {
        assert [s[|s| - 1].size][..0] == [];
      }
    }
  }

  lemma TotalSizeAppend(a: seq<Descriptor>, b: seq<Descriptor>)
    ensures TotalSize(a + b) == TotalSize(a) + TotalSize(b)
  {
    assert Sizes(a + b) == Sizes(a) + Sizes(b);
    SumAppend(Sizes(a), Sizes(b));
  }

  /** The manifest total is the size of the layers kept plus the size of
      the layers dropped: totalSize counts dropped layers too. */
  lemma {:induction false} TotalSizeSplit(ls: seq<Descriptor>)
    ensures TotalSize(ls) == TotalSize(Classified(ls)) + TotalSize(Unrecognised(ls))
    decreases |ls|
  {
    if ls == [] {
      assert Classified(ls) == [] by { assert Filter(ls, MediaTypeOCI1LayerGzip) == []; }
    } else {
      var p, v := ls[..|ls| - 1], ls[|ls| - 1];
      assert ls == p + [v];
      TotalSizeSplit(p);
      TotalSizeSnoc(p, v);
      KeptSizeSnoc(p, v);
      DroppedSizeSnoc(p, v);
    }
  }

  /** One more layer adds its size to the kept total exactly when it is
      kept. */
  lemma KeptSizeSnoc(ls: seq<Descriptor>, v: Descriptor)
    ensures TotalSize(Classified(ls + [v])) == TotalSize(Classified(ls)) + (if Recognised(v) then v.size else 0)
  {
    ClassifiedSnoc(ls, v);
    var c := Classified(ls);
    TotalSizeSnoc([], v);
    assert [] + [v] == [v];
    if v.mediaType == MediaTypeOCI1LayerGzip {
      TotalSizeAppend([v], c);
    } else if v.mediaType == MediaTypeNydusBlob {
      TotalSizeAppend(c, [v]);
    }
  }

  /** One more layer adds its size to the dropped total exactly when it is
      dropped. */
  lemma DroppedSizeSnoc(ls: seq<Descriptor>, v: Descriptor)
    ensures TotalSize(Unrecognised(ls + [v])) == TotalSize(Unrecognised(ls)) + (if Recognised(v) then 0 else v.size)
  {
    var s := ls + [v];
    assert s[..|s| - 1] == ls;
    assert Unrecognised(s) == Unrecognised(ls) + (if Recognised(v) then [] else [v]);
    if !Recognised(v) {
      TotalSizeSnoc(Unrecognised(ls), v);
    } else {
      assert Unrecognised(ls) + [] == Unrecognised(ls);
    }
  }

  /** The image's lists are index-aligned and its total covers them. */
  predicate WellFormed(image: ImageInfo) {
    |image.layerDigest| == |image.layerSize| && image.totalSize >= Sum(image.layerSize)
  }

  /** What GetImageInfo yields is well formed: both lists describe the same
      layer at each index, and totalSize is at least the sum of the sizes
      kept. */
  lemma GetImageInfoWellFormed(imagePath: string, layers: seq<Descriptor>)
    ensures WellFormed(ImageInfo(imagePath, Digests(Classified(layers)),
                                 Sizes(Classified(layers)), TotalSize(layers)))
  {
    TotalSizeSplit(layers);
  }
}
