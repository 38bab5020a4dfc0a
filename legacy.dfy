/** The older generator of `generator/generator.go`: the same pipeline of
    classify, download and write, but with `totalSize` summing only the
    recognised layers, floor sector counts, partition names cut from the
    digest string, one partition for every layer, and paths built by
    string concatenation. Its `validateData` is an empty stub. */
module Legacy {
  import opened Common
  import opened Naming
  import opened Image
  import opened DiskTable
  import opened DiskData
  import Generator

  // ----- getImageInfo -----

  /** The older classifier: the same prepend and append as the current one,
      but only the layers it keeps add their size to totalSize. */
  method GetImageInfo(imagePath: string, layers: seq<Descriptor>) returns (image: ImageInfo)
    ensures image.imagePath == imagePath
    ensures image.layerDigest == Digests(Classified(layers))
    ensures image.layerSize == Sizes(Classified(layers))
    ensures image.totalSize == TotalSize(Classified(layers))
  {
    var totalSize := 0;
    var layerDigest: seq<Digest> := [];
    var layerSize: seq<nat> := [];
    for i := 0 to |layers|
      invariant layerDigest == Digests(Classified(layers[..i]))
      invariant layerSize == Sizes(Classified(layers[..i]))
      invariant totalSize == TotalSize(Classified(layers[..i]))
    {
      var v := layers[i];
      InfoSnoc(layers[..i], v);
      assert layers[..i + 1] == layers[..i] + [v];
      if v.mediaType == MediaTypeOCI1LayerGzip {
        layerDigest := [v.digest] + layerDigest;
        layerSize := [v.size] + layerSize;
        totalSize := totalSize + v.size;
      } else if v.mediaType == MediaTypeNydusBlob {
        layerDigest := layerDigest + [v.digest];
        layerSize := layerSize + [v.size];
        totalSize := totalSize + v.size;
      }
    }
    assert layers[..|layers|] == layers;
    image := ImageInfo(imagePath, layerDigest, layerSize, totalSize);
  }

  /** One more layer: a gzip layer's digest and size go to the front, a
      blob layer's to the back, and either adds its size to the kept total;
      any other layer changes nothing. */
  lemma InfoSnoc(ls: seq<Descriptor>, v: Descriptor)
    ensures v.mediaType == MediaTypeOCI1LayerGzip ==>
              && Digests(Classified(ls + [v])) == [v.digest] + Digests(Classified(ls))
              && Sizes(Classified(ls + [v])) == [v.size] + Sizes(Classified(ls))
              && TotalSize(Classified(ls + [v])) == TotalSize(Classified(ls)) + v.size
    ensures v.mediaType == MediaTypeNydusBlob ==>
              && Digests(Classified(ls + [v])) == Digests(Classified(ls)) + [v.digest]
              && Sizes(Classified(ls + [v])) == Sizes(Classified(ls)) + [v.size]
              && TotalSize(Classified(ls + [v])) == TotalSize(Classified(ls)) + v.size
    ensures !Recognised(v) ==> Classified(ls + [v]) == Classified(ls)
  {
    ClassifiedSnoc(ls, v);
    KeptSizeSnoc(ls, v);
    MediaTypesDiffer();
    var c := Classified(ls);
    assert Digests([v]) == [v.digest] && Sizes([v]) == [v.size];
    if v.mediaType == MediaTypeOCI1LayerGzip {
      DigestsSizesConcat([v], c);
    } else if v.mediaType == MediaTypeNydusBlob {
      DigestsSizesConcat(c, [v]);
    }
  }

  /** The two totalSize policies differ by exactly the sizes of the layers
      both classifiers drop. */
  lemma TotalSizePolicies(layers: seq<Descriptor>)
    ensures TotalSize(layers) - TotalSize(Classified(layers)) == TotalSize(Unrecognised(layers))
    ensures TotalSize(Classified(layers)) <= TotalSize(layers)
  {
    TotalSizeSplit(layers);
  }

  /** What the older classifier yields is well formed, with totalSize
      exactly the sum of the kept sizes. */
  lemma GetImageInfoExact(imagePath: string, layers: seq<Descriptor>)
    ensures var image := ImageInfo(imagePath, Digests(Classified(layers)),
                                  Sizes(Classified(layers)), TotalSize(Classified(layers)));
            WellFormed(image) && image.totalSize == Sum(image.layerSize)
  {
  }

  // ----- buildDiskTable -----

  /** `size / blkSize`: the whole sectors in size bytes. */
  function FloorSectors(size: nat): (r: nat)
    ensures r * 512 <= size < (r + 1) * 512
  {
    size / 512
  }

  function FloorSectorCounts(sizes: seq<nat>): (r: seq<nat>)
    ensures |r| == |sizes| && forall k :: 0 <= k < |sizes| ==> r[k] == FloorSectors(sizes[k])
  {
    seq(|sizes|, k requires 0 <= k < |sizes| => FloorSectors(sizes[k]))
  }

  /** `string(layerDigest[k][7 : 32+7])`: the characters 7 .. 38 of the
      digest string. The slice panics when the string is shorter. */
  function PartitionName(d: Digest, k: nat): (r: Result<string>)
    ensures r.Ok? <==> |d.String()| >= 39
    ensures r.Err? ==> r.error == DigestTooShort(k)
    ensures r.Ok? ==> |r.value| == 32 && r.value <= d.String()[7..]
  {
    var s := d.String();
    if |s| < 32 + 7 then Err(DigestTooShort(k)) else Ok(s[7..32 + 7])
  }

  /** For a SHA-256 digest the name is the first 32 hex digits: the 7
      characters skipped are exactly `sha256:`. */
  lemma Sha256PartitionName(d: Digest, k: nat)
    requires d.algorithm == "sha256" && |d.encoded| >= 32
    ensures PartitionName(d, k) == Ok(d.encoded[..32])
  {
    var s := d.String();
    assert s == "sha256:" + d.encoded;
    assert s[7..39] == d.encoded[..32];
  }

  /** Whether the digest strings of the first n layers are long enough. */
  predicate Named(digests: seq<Digest>, n: nat)
    requires n <= |digests|
  {
    forall k :: 0 <= k < n ==> |digests[k].String()| >= 39
  }

  /** The older `buildDiskTable`: one partition per layer, starting at
      sector 2048, partition k covering floor(layerSize[k] / 512) sectors
      and named after its digest string. */
  method BuildDiskTable(image: ImageInfo) returns (r: Result<seq<Partition>>)
    requires |image.layerSize| <= |image.layerDigest|
    ensures r.Ok? <==> Named(image.layerDigest, |image.layerSize|)
    ensures r.Err? ==> (r.error.DigestTooShort? && r.error.index < |image.layerSize|
                        && Named(image.layerDigest, r.error.index)
                        && |image.layerDigest[r.error.index].String()| < 39)
    ensures r.Ok? ==> |r.value| == |image.layerSize|
    ensures r.Ok? ==> Extents(r.value) == Layout(FloorSectorCounts(image.layerSize), FirstStart)
    ensures r.Ok? ==> forall k :: 0 <= k < |r.value| ==>
              r.value[k].id == PartitionName(image.layerDigest[k], k).value
  {
    ghost var sectors := FloorSectorCounts(image.layerSize);
    var partitionStart := FirstStart;
    var partitions: seq<Partition> := [];
    for k := 0 to |image.layerSize|
      invariant |partitions| == k
      invariant Named(image.layerDigest, k)
      invariant Layout(sectors, FirstStart) == Extents(partitions) + Layout(sectors[k..], partitionStart)
      invariant forall j :: 0 <= j < k ==> partitions[j].id == PartitionName(image.layerDigest[j], j).value
    {
      var size := image.layerSize[k];
      var partitionSectors := size / 512;
      var partitionEnd := partitionSectors + partitionStart;
      var partitionName := PartitionName(image.layerDigest[k], k);
      if partitionName.Err? {
        return Err(partitionName.error);
      }
      var part := Partition(partitionStart, partitionEnd, partitionName.value);
      LayoutStep(Layout(sectors, FirstStart), sectors, k, partitions, part);
      partitions := partitions + [part];
      partitionStart := NextStart(partitionEnd);
    }
    assert sectors[|image.layerSize|..] == [];
    r := Ok(partitions);
  }

  // ----- contrast with the current planner -----

  /** Floor division gives one sector fewer than the ceiling exactly when
      the size is not a multiple of 512. */
  lemma FloorOneShort(size: nat)
    ensures CeilSectors(size) == FloorSectors(size) + (if size % 512 == 0 then 0 else 1)
  {
    var f := FloorSectors(size);
    var c := CeilSectors(size);
    if size % 512 == 0 {
      assert size == f * 512;
    } else {
      assert f * 512 < size;
    }
  }

  /** The two planners size every partition alike exactly when every layer
      size is a multiple of 512. */
  lemma SectorCountsAgree(sizes: seq<nat>)
    ensures FloorSectorCounts(sizes) == CeilSectorCounts(sizes) <==> forall k :: 0 <= k < |sizes| ==> sizes[k] % 512 == 0
  {
    var f, c := FloorSectorCounts(sizes), CeilSectorCounts(sizes);
    forall k | 0 <= k < |sizes|
      ensures f[k] == c[k] <==> sizes[k] % 512 == 0
    {
      FloorOneShort(sizes[k]);
    }
    if forall k :: 0 <= k < |sizes| ==> sizes[k] % 512 == 0 {
      assert forall k :: 0 <= k < |sizes| ==> f[k] == c[k];
    }
  }

  predicate Pointwise(s: seq<nat>, t: seq<nat>) {
    |s| == |t| && forall k :: 0 <= k < |s| ==> s[k] <= t[k]
  }

  /** A later start is monotone in the end before it. */
  lemma NextStartMonotone(a: int, b: int)
    requires a <= b
    ensures NextStart(a) <= NextStart(b)
  {
    NextStartIsLeast(a, NextStart(b));
  }

  /** Shorter partitions never start or end later: every extent of a
      layout over pointwise smaller sector counts starts and ends no later
      than the same extent of the larger one. */
  lemma {:induction false} LayoutMonotone(s: seq<nat>, t: seq<nat>, a: int, b: int, k: nat)
    requires Pointwise(s, t) && a <= b && k < |s|
    ensures Layout(s, a)[k].start <= Layout(t, b)[k].start
    ensures Layout(s, a)[k].end <= Layout(t, b)[k].end
    decreases k
  {
    if k > 0 {
      NextStartMonotone(a + s[0], b + t[0]);
      assert Pointwise(s[1..], t[1..]) by {
        forall i | 0 <= i < |s[1..]|
          ensures s[1..][i] <= t[1..][i]
        {
          assert s[1..][i] == s[i + 1] && t[1..][i] == t[i + 1];
        }
      }
      LayoutMonotone(s[1..], t[1..], NextStart(a + s[0]), NextStart(b + t[0]), k - 1);
    }
  }

  /** Every partition of the older planner starts and ends no later than the
      same partition of the current one. */
  lemma FloorLayoutWithin(sizes: seq<nat>, k: nat)
    requires k < |sizes|
    ensures Layout(FloorSectorCounts(sizes), FirstStart)[k].start <= Layout(CeilSectorCounts(sizes), FirstStart)[k].start
    ensures Layout(FloorSectorCounts(sizes), FirstStart)[k].end <= Layout(CeilSectorCounts(sizes), FirstStart)[k].end
  {
    var f, c := FloorSectorCounts(sizes), CeilSectorCounts(sizes);
    forall i | 0 <= i < |sizes|
      ensures f[i] <= c[i]
    {
      FloorOneShort(sizes[i]);
    }
    LayoutMonotone(f, c, FirstStart, FirstStart, k);
  }

  /** A layer of size bytes, not a multiple of 512, cut to its older
      partition loses its last size % 512 bytes; fitted to the current
      partition it keeps them all. */
  lemma FloorCutsLayer(blob: seq<byte>, size: nat)
    requires |blob| == size && size % 512 != 0
    ensures Fit(blob, FloorSectors(size) * 512) == blob[..size - size % 512]
    ensures Fit(blob, FloorSectors(size) * 512) != blob
    ensures Fit(blob, CeilSectors(size) * 512)[..size] == blob
  {
    assert FloorSectors(size) * 512 == size - size % 512;
    FitCuts(blob, FloorSectors(size) * 512);
    FitExtends(blob, CeilSectors(size) * 512);
  }

  /** Read with End inclusive, as (End − Start + 1)·512 bytes, a floor-sized
      partition would still hold the whole layer. */
  lemma FloorInclusiveKeepsLayer(blob: seq<byte>, size: nat)
    requires |blob| == size
    ensures size < (FloorSectors(size) + 1) * 512
    ensures Fit(blob, (FloorSectors(size) + 1) * 512)[..size] == blob
  {
    FitExtends(blob, (FloorSectors(size) + 1) * 512);
  }

  // ----- paths -----

  /** `targetDir + "/" + name`: both the download and the write loop build
      layer k's path this way. */
  function LayerPath(dir: string, k: nat, d: Digest): string {
    dir + "/" + LayerFileName(k, d)
  }

  /** Past the directory and its separator, a layer path reads back as the
      role and the encoded digest of its layer. */
  lemma LayerPathReadsBack(dir: string, k: nat, d: Digest)
    ensures dir + "/" <= LayerPath(dir, k, d)
    ensures ParseFileName(LayerPath(dir, k, d)[|dir| + 1..]) == Some((k == 0, d.encoded))
  {
    assert LayerPath(dir, k, d)[|dir| + 1..] == LayerFileName(k, d);
    FileNameRoundTrip(k, d);
  }

  function LayerPaths(dir: string, digests: seq<Digest>): (ps: seq<string>)
    ensures |ps| == |digests|
    ensures forall k :: 0 <= k < |ps| ==> ps[k] == LayerPath(dir, k, digests[k])
  {
    seq(|digests|, k requires 0 <= k < |digests| => LayerPath(dir, k, digests[k]))
  }

  /** The layer paths are pairwise distinct exactly when the blob digests
      are. */
  lemma DistinctPaths(dir: string, ds: seq<Digest>)
    ensures Generator.Distinct(LayerPaths(dir, ds)) <==> Generator.DistinctBlobs(ds)
  {
    var ps := LayerPaths(dir, ds);
    forall i, j | 0 <= i < j < |ds|
      ensures ps[i] == ps[j] <==> 0 < i && ds[i].encoded == ds[j].encoded
    {
      var p := dir + "/";
      var a, b := LayerFileName(i, ds[i]), LayerFileName(j, ds[j]);
      assert ps[i] == p + a && ps[j] == p + b;
      if ps[i] == ps[j] {
        assert a == ps[i][|p|..] && b == ps[j][|p|..];
      }
      FileNameInjective(i, ds[i], j, ds[j]);
    }
  }

  /** The disk file is none of the layer files, so writing it destroys no
      download. */
  lemma OutputIsNoLayer(dir: string, k: nat, d: Digest)
    ensures dir + "/" + OutputImageName != LayerPath(dir, k, d)
  {
    var p := dir + "/";
    var n := LayerFileName(k, d);
    assert (p + OutputImageName)[|p|..] == OutputImageName;
    assert (p + n)[|p|..] == n;
    assert OutputImageName != n by {
      FileNameRoundTrip(k, d);
      assert !(BootstrapPrefix <= OutputImageName) by { assert BootstrapPrefix[0] != OutputImageName[0]; }
      assert !(BlobPrefix <= OutputImageName) by { assert BlobPrefix[0] != OutputImageName[0]; }
    }
  }

  // ----- downloadImage -----

  lemma LayerPathsSnoc(dir: string, ds: seq<Digest>, i: nat)
    requires i < |ds|
    ensures LayerPaths(dir, ds[..i + 1]) == LayerPaths(dir, ds[..i]) + [LayerPath(dir, i, ds[i])]
  {
    var a, b := LayerPaths(dir, ds[..i + 1]), LayerPaths(dir, ds[..i]) + [LayerPath(dir, i, ds[i])];
    forall k | 0 <= k < |a| ensures a[k] == b[k] {
      if k < i {
        assert ds[..i + 1][k] == ds[..i][k];
      }
    }
  }

  /** The older `downloadImage`: the target directory is emptied, then
      every layer's blob is stored at its path. */
  method DownloadImage(image: ImageInfo, targetDir: string, fetch: Digest -> seq<byte>)
    returns (files: map<string, seq<byte>>)
    ensures files == Generator.Downloads(LayerPaths(targetDir, image.layerDigest), image.layerDigest, fetch)
  {
    files := map[];
    ghost var paths: seq<string> := [];
    for k := 0 to |image.layerDigest|
      invariant paths == LayerPaths(targetDir, image.layerDigest[..k])
      invariant files == Generator.Downloads(paths, image.layerDigest, fetch)
    {
      var v := image.layerDigest[k];
      var path;
      if k == 0 {
        path := targetDir + "/" + BootstrapFileName(v);
      } else {
        path := targetDir + "/" + BlobFileName(v);
      }
      LayerPathsSnoc(targetDir, image.layerDigest, k);
      Generator.DownloadsSnoc(paths, path, image.layerDigest, fetch);
      files := files[path := fetch(v)];
      paths := paths + [path];
    }
    assert image.layerDigest[..|image.layerDigest|] == image.layerDigest;
  }

  // ----- writeData -----

  /** The older `writeData`: the disk size, a zero-filled disk file at
      targetDir/output.img, the table, then every layer's file cut or
      extended to its partition and copied into it. */
  method WriteData(image: ImageInfo, targetDir: string, files: map<string, seq<byte>>)
    returns (r: Result<Generator.LocalDisk>, fs: map<string, seq<byte>>)
    requires |image.layerDigest| == |image.layerSize| && image.totalSize >= 0
    ensures var n := |image.layerSize|;
            && Named(image.layerDigest, n) && n * 511 <= MiB && image.totalSize >= Sum(image.layerSize)
            && (forall k :: 0 <= k < n ==> LayerPaths(targetDir, image.layerDigest)[k] in files)
            ==> r.Ok?
    ensures r.Err? ==> || r.error.DigestTooShort?
                       || r.error == TableRejected
                       || (r.error.MissingFile? && r.error.path in LayerPaths(targetDir, image.layerDigest)
                           && r.error.path !in files)
    ensures r.Ok? ==> WrittenAsPlanned(r.value, image, files, LayerPaths(targetDir, image.layerDigest), fs)
    ensures r.Ok? ==> PlannedAsOlder(r.value, image.layerDigest, image.layerSize, image.totalSize)
  {
    var n := |image.layerSize|;
    // the two roundings always agree, so the internal-error exit is never taken
    var diskSize := DiskSize(image.totalSize, n).value;
    var table := BuildDiskTable(image);
    if table.Err? {
      return Err(table.error), files;
    }
    var parts := table.value;
    if n > 0 && Named(image.layerDigest, n) && n * 511 <= MiB && image.totalSize >= Sum(image.layerSize) {
      FloorTableInside(parts, image.layerSize, image.totalSize, diskSize);
    }
    if !InsideDisk(parts, diskSize) {
      return Err(TableRejected), files;
    }
    TableDisjoint(parts, FloorSectorCounts(image.layerSize));
    var paths := LayerPaths(targetDir, image.layerDigest);
    r, fs := WriteTable(image, diskSize, parts, paths, files);
    if r.Ok? {
      WrittenIsPlanned(r.value, image, files, paths, fs);
    }
  }

  /** The disk file created zero-filled, then the per-layer loop over every
      layer. */
  method WriteTable(image: ImageInfo, diskSize: nat, parts: seq<Partition>, paths: seq<string>,
                    files: map<string, seq<byte>>)
    returns (r: Result<Generator.LocalDisk>, fs: map<string, seq<byte>>)
    requires |image.layerDigest| == |image.layerSize| == |parts| == |paths|
    requires diskSize == DiskSize(image.totalSize, |image.layerSize|).value
    requires Placed(parts, diskSize)
    requires Extents(parts) == Layout(FloorSectorCounts(image.layerSize), FirstStart)
    ensures (forall k :: 0 <= k < |paths| ==> paths[k] in files) ==> r.Ok?
    ensures r.Err? ==> r.error.MissingFile? && r.error.path in paths && r.error.path !in files
    ensures r.Ok? ==> WrittenAsPlanned(r.value, image, files, paths, fs)
    ensures r.Ok? ==> r.value.plan.partitions == parts
  {
    var disk := new byte[diskSize](_ => 0);
    var w, written := WriteParts(disk, parts, paths, |paths|, files);
    if w.Err? {
      return Err(w.error), files;
    }
    var out := Generator.LocalDisk(DiskPlan(diskSize, parts), disk[..]);
    assert forall i :: 0 <= i < |out.bytes| && Untouched(i, parts, |paths|) ==> out.bytes[i] == 0;
    r, fs := Ok(out), w.value;
  }

  /** The older disk's plan: the disk size from the total, one partition
      per layer laid out from floor sector counts, each named by its
      digest's slice, all inside the disk. */
  ghost predicate PlannedAsOlder(out: Generator.LocalDisk, digests: seq<Digest>, sizes: seq<nat>, totalSize: int) {
    var parts := out.plan.partitions;
    && |digests| == |sizes| == |parts|
    && |out.bytes| == DiskSize(totalSize, |sizes|).value
    && Placed(parts, |out.bytes|)
    && Extents(parts) == Layout(FloorSectorCounts(sizes), FirstStart)
    && Named(digests, |digests|)
    && forall k :: 0 <= k < |digests| ==> parts[k].id == PartitionName(digests[k], k).value
  }

  /** A disk written as planned, with the digests' partition names, has the
      older plan. */
  lemma WrittenIsPlanned(out: Generator.LocalDisk, image: ImageInfo, files: map<string, seq<byte>>,
                         paths: seq<string>, fs: map<string, seq<byte>>)
    requires |image.layerDigest| == |image.layerSize|
    requires WrittenAsPlanned(out, image, files, paths, fs)
    requires Named(image.layerDigest, |image.layerDigest|)
    requires forall k :: 0 <= k < |image.layerDigest| ==>
               out.plan.partitions[k].id == PartitionName(image.layerDigest[k], k).value
    ensures PlannedAsOlder(out, image.layerDigest, image.layerSize, image.totalSize)
  {
  }

  /** The older disk after writing: the planned size, one floor-sized
      partition per layer, partition k holding file k as the k-th
      truncation left it, zeros elsewhere, and the files left truncated. */
  ghost predicate WrittenAsPlanned(out: Generator.LocalDisk, image: ImageInfo, files: map<string, seq<byte>>,
                                   paths: seq<string>, fs: map<string, seq<byte>>)
    requires |image.layerDigest| == |image.layerSize|
  {
    var n := |image.layerSize|;
    var parts := out.plan.partitions;
    && |out.bytes| == out.plan.diskSize == DiskSize(image.totalSize, n).value
    && Placed(parts, |out.bytes|)
    && |parts| == n == |paths|
    && Extents(parts) == Layout(FloorSectorCounts(image.layerSize), FirstStart)
    && fs == Truncated(files, paths, parts, n)
    && (forall k :: 0 <= k < n ==>
          && paths[k] in files
          && PartitionBytes(out.bytes, parts[k]) == Truncated(files, paths, parts, k + 1)[paths[k]])
    && (forall i :: 0 <= i < |out.bytes| && Untouched(i, parts, n) ==> out.bytes[i] == 0)
  }

  /** The older table always fits the disk whenever the current table for
      the same layers does: its partitions are no longer. */
  lemma FloorTableInside(parts: seq<Partition>, sizes: seq<nat>, totalSize: int, diskSize: int)
    requires 0 < |sizes| == |parts| && totalSize >= Sum(sizes) && |sizes| * 511 <= MiB
    requires diskSize == DiskSize(totalSize, |sizes|).value
    requires Extents(parts) == Layout(FloorSectorCounts(sizes), FirstStart)
    ensures InsideDisk(parts, diskSize)
  {
    var n := |sizes|;
    var f, c := Layout(FloorSectorCounts(sizes), FirstStart), Layout(CeilSectorCounts(sizes), FirstStart);
    assert sizes[..n] == sizes;
    TableFits(sizes, n, totalSize, n, diskSize);
    forall k | 0 <= k < n
      ensures 0 <= parts[k].start <= parts[k].end && parts[k].end * 512 <= diskSize
    {
      assert Extents(parts)[k] == f[k];
      LayoutAt(FloorSectorCounts(sizes), FirstStart, k);
      FloorLayoutWithin(sizes, k);
      FloorLayoutWithin(sizes, n - 1);
      if k < n - 1 {
        LayoutOrdered(FloorSectorCounts(sizes), FirstStart, k, n - 1);
      }
      LayoutAt(FloorSectorCounts(sizes), FirstStart, n - 1);
    }
  }

  // ----- convertImage -----

  /** The older `convertImage`: classify, download into targetDir, write
      the disk. Its `validateData` does nothing. Over distinct blobs,
      partition k holds layer k's blob cut or padded to whole sectors,
      rounding down. */
  method ConvertImage(imagePath: string, layers: seq<Descriptor>, targetDir: string,
                      fetch: Digest -> seq<byte>)
    returns (r: Result<Generator.LocalDisk>)
    ensures var ls := Classified(layers);
            Named(Digests(ls), |ls|) && |ls| * 511 <= MiB ==> r.Ok?
    ensures r.Err? ==> r.error.DigestTooShort? || r.error == TableRejected
    ensures r.Ok? ==>
              var ls := Classified(layers);
              PlannedAsOlder(r.value, Digests(ls), Sizes(ls), TotalSize(ls))
    ensures r.Ok? && Generator.DistinctBlobs(Digests(Classified(layers))) ==>
              var ls := Classified(layers);
              && |r.value.plan.partitions| == |ls|
              && Placed(r.value.plan.partitions, |r.value.bytes|)
              && forall k :: 0 <= k < |ls| ==>
                   PartitionBytes(r.value.bytes, r.value.plan.partitions[k])
                   == Fit(fetch(ls[k].digest), FloorSectors(ls[k].size) * 512)
  {
    var image := GetImageInfo(imagePath, layers);
    GetImageInfoExact(imagePath, layers);
    var files := DownloadImage(image, targetDir, fetch);
    ghost var paths := LayerPaths(targetDir, image.layerDigest);
    assert forall k :: 0 <= k < |paths| ==> paths[k] in files;
    var fs;
    r, fs := WriteData(image, targetDir, files);
    if r.Ok? && Generator.DistinctBlobs(image.layerDigest) {
      DistinctPaths(targetDir, image.layerDigest);
      Floored(r.value, image, files, paths, fs, fetch);
    }
  }

  /** After download and write over distinct paths, partition k holds the
      blob of layer k fitted to its floor-sized partition. */
  lemma Floored(out: Generator.LocalDisk, image: ImageInfo, files: map<string, seq<byte>>, paths: seq<string>,
                fs: map<string, seq<byte>>, fetch: Digest -> seq<byte>)
    requires |image.layerDigest| == |image.layerSize| == |paths|
    requires Generator.Distinct(paths)
    requires files == Generator.Downloads(paths, image.layerDigest, fetch)
    requires WrittenAsPlanned(out, image, files, paths, fs)
    ensures forall k :: 0 <= k < |paths| ==>
              PartitionBytes(out.bytes, out.plan.partitions[k])
              == Fit(fetch(image.layerDigest[k]), FloorSectors(image.layerSize[k]) * 512)
  {
    var parts := out.plan.partitions;
    Generator.DownloadsDistinct(paths, image.layerDigest, fetch);
    forall k | 0 <= k < |paths|
      ensures PartitionBytes(out.bytes, parts[k])
              == Fit(fetch(image.layerDigest[k]), FloorSectors(image.layerSize[k]) * 512)
    {
      FlooredAt(files, paths, parts, image.layerSize, k);
    }
  }

  lemma FlooredAt(files: map<string, seq<byte>>, paths: seq<string>, parts: seq<Partition>,
                  sizes: seq<nat>, k: nat)
    requires k < |paths| == |parts| == |sizes| && Generator.Distinct(paths) && paths[k] in files
    requires Extents(parts) == Layout(FloorSectorCounts(sizes), FirstStart)
    ensures Truncated(files, paths, parts, k + 1)[paths[k]] == Fit(files[paths[k]], FloorSectors(sizes[k]) * 512)
  {
    forall j | 0 <= j < k + 1 && j != k
      ensures paths[j] != paths[k]
    {
    }
    TruncatedAt(files, paths, parts, k + 1, k);
    LayoutAt(FloorSectorCounts(sizes), FirstStart, k);
    assert Extents(parts)[k] == Extent(parts[k].start, parts[k].end);
  }
}
