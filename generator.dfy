/** The current conversion pipeline. It downloads the layers into a working
    directory and builds a disk with one partition per layer. It then fills
    the partitions from the downloaded files and checks them against the
    files. `convertImageWithTemps` instead builds a series of part images
    over growing layer prefixes. The registry is the parameter `fetch`,
    the blob each digest names. */
module Generator {
  import opened Common
  import opened Naming
  import opened Image
  import opened DiskTable
  import opened DiskData

  /** Where layer k lives under dir: the bootstrap name for k = 0, the blob
      name for every other k. */
  function LayerPaths(dir: string, digests: seq<Digest>): (ps: seq<string>)
    ensures |ps| == |digests|
    ensures forall k :: 0 <= k < |ps| ==> ps[k] == Join(dir, LayerFileName(k, digests[k]))
  {
    seq(|digests|, k requires 0 <= k < |digests| => Join(dir, LayerFileName(k, digests[k])))
  }

  predicate Distinct(s: seq<string>) {
    forall i, j :: 0 <= i < j < |s| ==> s[i] != s[j]
  }

  /** No two blob layers (index 1 on) share an encoded digest. The bootstrap
      layer has a prefix of its own and may share one. */
  predicate DistinctBlobs(ds: seq<Digest>) {
    forall i, j :: 0 < i < j < |ds| ==> ds[i].encoded != ds[j].encoded
  }

  /** Two layers land in one local file exactly when they are both blob
      layers with the same encoded digest. */
  lemma DistinctPaths(dir: string, ds: seq<Digest>)
    ensures Distinct(LayerPaths(dir, ds)) <==> DistinctBlobs(ds)
  {
    var ps := LayerPaths(dir, ds);
    forall i, j | 0 <= i < j < |ds|
      ensures ps[i] == ps[j] <==> 0 < i && ds[i].encoded == ds[j].encoded
    {
      JoinInjective(dir, LayerFileName(i, ds[i]), LayerFileName(j, ds[j]));
      FileNameInjective(i, ds[i], j, ds[j]);
    }
  }

  lemma OutputNameHasNoSeparator()
    ensures '/' !in OutputImageName
  {
  }

  lemma NoSeparatorInLayerName(k: nat, d: Digest)
    requires '/' !in d.encoded
    ensures '/' !in LayerFileName(k, d)
  {
    assert '/' !in BootstrapPrefix && '/' !in BlobPrefix;
  }

  /** `writeData` looks for layer k next to the disk file. With the disk file
      in the download directory, that is where `downloadImage` put it. The
      path list `downloadImage` returns is the list the write loop opens. */
  lemma WritePathsAreDownloadPaths(dir: string, file: string, ds: seq<Digest>, m: nat)
    requires '/' !in file && m <= |ds|
    ensures LayerPaths(SplitDir(Join(dir, file)), ds[..m]) == LayerPaths(dir, ds)[..m]
  {
    forall k | 0 <= k < m
      ensures LayerPaths(SplitDir(Join(dir, file)), ds[..m])[k] == LayerPaths(dir, ds)[k]
    {
      JoinSplitJoin(dir, file, LayerFileName(k, ds[k]));
    }
  }

  /** Every file the write loop opens next to a disk file in the download
      directory is one the download loop stored. */
  lemma WriteFindsDownloads(dir: string, file: string, ds: seq<Digest>, fetch: Digest -> seq<byte>)
    requires '/' !in file
    ensures LayerPaths(SplitDir(Join(dir, file)), ds[..|ds|]) == LayerPaths(dir, ds)
    ensures LayerPaths(SplitDir(Join(dir, file)), ds) == LayerPaths(dir, ds)
    ensures forall k :: 0 <= k < |ds| ==>
              LayerPaths(SplitDir(Join(dir, file)), ds)[k] in Downloads(LayerPaths(dir, ds), ds, fetch)
  {
    WritePathsAreDownloadPaths(dir, file, ds, |ds|);
    assert ds[..|ds|] == ds;
  }

  /** The directory after blobs 0 .. |paths|-1 have been stored in turn,
      blob k at paths[k]. */
  function Downloads(paths: seq<string>, digests: seq<Digest>, fetch: Digest -> seq<byte>)
    : (files: map<string, seq<byte>>)
    requires |paths| <= |digests|
    ensures forall p :: p in files <==> p in paths
  {
    if paths == [] then map[]
    else Downloads(paths[..|paths| - 1], digests, fetch)[paths[|paths| - 1] := fetch(digests[|paths| - 1])]
  }

  lemma DownloadsSnoc(paths: seq<string>, p: string, digests: seq<Digest>, fetch: Digest -> seq<byte>)
    requires |paths| < |digests|
    ensures Downloads(paths + [p], digests, fetch) == Downloads(paths, digests, fetch)[p := fetch(digests[|paths|])]
  {
    assert (paths + [p])[..|paths|] == paths;
  }

  /** A file no later layer overwrites holds its layer's blob. */
  lemma {:induction false} DownloadsAt(paths: seq<string>, digests: seq<Digest>, fetch: Digest -> seq<byte>, k: nat)
    requires k < |paths| <= |digests|
    requires forall j :: k < j < |paths| ==> paths[j] != paths[k]
    ensures Downloads(paths, digests, fetch)[paths[k]] == fetch(digests[k])
  {
    if k < |paths| - 1 {
      DownloadsAt(paths[..|paths| - 1], digests, fetch, k);
    }
  }

  /** The paths of a prefix of the layers are a prefix of the paths. */
  lemma LayerPathsPrefix(dir: string, ds: seq<Digest>, m: nat)
    requires m <= |ds|
    ensures forall k :: 0 <= k < m ==> LayerPaths(dir, ds[..m])[k] == LayerPaths(dir, ds)[k]
  {
  }

  lemma LayerPathsSnoc(dir: string, ds: seq<Digest>, i: nat)
    requires i < |ds|
    ensures LayerPaths(dir, ds[..i + 1]) == LayerPaths(dir, ds[..i]) + [Join(dir, LayerFileName(i, ds[i]))]
  {
  }

  /** `downloadImage`: the directory is emptied, then blob k is stored at
      path k; the path list is returned in layer order. */
  method DownloadImage(image: ImageInfo, targetDir: string, fetch: Digest -> seq<byte>)
    returns (downloadedBlobs: seq<string>, files: map<string, seq<byte>>)
    ensures downloadedBlobs == LayerPaths(targetDir, image.layerDigest)
    ensures files == Downloads(downloadedBlobs, image.layerDigest, fetch)
  {
    downloadedBlobs := [];
    files := map[];
    for idx := 0 to |image.layerDigest|
      invariant downloadedBlobs == LayerPaths(targetDir, image.layerDigest[..idx])
      invariant files == Downloads(downloadedBlobs, image.layerDigest, fetch)
    {
      var hash := image.layerDigest[idx];
      var targetPath;
      if idx == 0 {
        targetPath := Join(targetDir, BootstrapFileName(hash));
      } else {
        targetPath := Join(targetDir, BlobFileName(hash));
      }
      LayerPathsSnoc(targetDir, image.layerDigest, idx);
      DownloadsSnoc(downloadedBlobs, targetPath, image.layerDigest, fetch);
      files := files[targetPath := fetch(hash)];
      downloadedBlobs := downloadedBlobs + [targetPath];
    }
    assert image.layerDigest[..|image.layerDigest|] == image.layerDigest;
  }

  /** `writeData`: for the first min(layerNum, len(layerDigest)) layers, file
      k, found next to the disk file, is truncated to partition k and copied
      into it. */
  method WriteData(image: ImageInfo, disk: array<byte>, diskName: string, parts: seq<Partition>,
                   layerNum: int, files: map<string, seq<byte>>)
    returns (r: Result<map<string, seq<byte>>>, written: nat)
    requires Count(layerNum, |image.layerDigest|) <= |parts|
    requires Placed(parts, disk.Length)
    modifies disk
    ensures var m := Count(layerNum, |image.layerDigest|);
            var paths := LayerPaths(SplitDir(diskName), image.layerDigest[..m]);
            && written <= m
            && (forall k :: 0 <= k < written ==> paths[k] in files)
            && (r.Ok? <==> written == m)
            && (r.Err? ==> paths[written] !in files && r.error == MissingFile(paths[written]))
            && (r.Ok? ==> r.value == Truncated(files, paths, parts, m))
            && (forall k :: 0 <= k < written ==>
                  PartitionBytes(disk[..], parts[k]) == Truncated(files, paths, parts, k + 1)[paths[k]])
            && (forall i :: 0 <= i < disk.Length && Untouched(i, parts, written) ==> disk[i] == old(disk[i]))
  {
    var dir := SplitDir(diskName);
    var m := Count(layerNum, |image.layerDigest|);
    r, written := WriteParts(disk, parts, LayerPaths(dir, image.layerDigest[..m]), m, files);
  }

  /** A disk file and the table written to it. */
  datatype LocalDisk = LocalDisk(plan: DiskPlan, bytes: seq<byte>)

  /** The disk has the size and the table `buildDiskImage` plans for m of the
      layers, under a manifest total of totalSize. */
  ghost predicate Planned(out: LocalDisk, totalSize: int, sizes: seq<nat>, m: nat) {
    && m <= |sizes|
    && |out.bytes| == out.plan.diskSize == DiskSize(totalSize, |sizes|).value
    && Placed(out.plan.partitions, |out.bytes|)
    && |out.plan.partitions| == m
    && Extents(out.plan.partitions) == Layout(CeilSectorCounts(sizes[..m]), FirstStart)
  }

  /** Partitions 0 .. m-1 of the disk hold layers 0 .. m-1 of ls. Each holds
      its fetched blob, cut or zero-padded to whole sectors. */
  ghost predicate Holds(out: LocalDisk, digests: seq<Digest>, sizes: seq<nat>, fetch: Digest -> seq<byte>, m: nat) {
    && m <= |out.plan.partitions| && m <= |digests| && m <= |sizes|
    && Placed(out.plan.partitions, |out.bytes|)
    && forall k :: 0 <= k < m ==>
         PartitionBytes(out.bytes, out.plan.partitions[k])
         == Fit(fetch(digests[k]), CeilSectors(sizes[k]) * 512)
  }

  /** The disk file created zero-filled at the planned size, then the
      write loop of `writeData` over it. Every file the loop opens exists. */
  method WritePlan(image: ImageInfo, plan: DiskPlan, diskName: string, layerNum: int,
                   files: map<string, seq<byte>>)
    returns (out: LocalDisk, fs: map<string, seq<byte>>)
    requires Count(layerNum, |image.layerDigest|) == |plan.partitions|
    requires plan.diskSize >= 0 && Placed(plan.partitions, plan.diskSize)
    requires forall k :: 0 <= k < |image.layerDigest| ==>
               LayerPaths(SplitDir(diskName), image.layerDigest)[k] in files
    ensures var m := Count(layerNum, |image.layerDigest|);
            var paths := LayerPaths(SplitDir(diskName), image.layerDigest[..m]);
            && out.plan == plan && |out.bytes| == plan.diskSize
            && fs == Truncated(files, paths, plan.partitions, m)
            && WrittenFrom(out, files, paths, m)
            && (forall i :: 0 <= i < |out.bytes| && Untouched(i, plan.partitions, m) ==> out.bytes[i] == 0)
  {
    var m := Count(layerNum, |image.layerDigest|);
    var disk := new byte[plan.diskSize](_ => 0);
    var w, written := WriteData(image, disk, diskName, plan.partitions, layerNum, files);
    ghost var paths := LayerPaths(SplitDir(diskName), image.layerDigest[..m]);
    LayerPathsPrefix(SplitDir(diskName), image.layerDigest, m);
    assert w.Ok?;
    out := LocalDisk(plan, disk[..]);
    assert WrittenFrom(out, files, paths, m);
    fs := w.value;
  }

  /** Partitions 0 .. m-1 of the disk hold what the write loop copied into
      them: file k after the first k + 1 truncations. */
  ghost predicate WrittenFrom(out: LocalDisk, files: map<string, seq<byte>>, paths: seq<string>, m: nat) {
    && m <= |out.plan.partitions| && m <= |paths|
    && Placed(out.plan.partitions, |out.bytes|)
    && forall k :: 0 <= k < m ==>
         && paths[k] in files
         && PartitionBytes(out.bytes, out.plan.partitions[k])
            == Truncated(files, paths, out.plan.partitions, k + 1)[paths[k]]
  }

  /** `buildDiskImage` followed by `writeData`. The result is a zero-filled
      disk file of the planned size, with the first layerNum files written
      into its partitions. The files are left truncated to their partitions.
      Every layer's file must be in the disk file's directory. */
  method BuildAndWrite(image: ImageInfo, diskName: string, layerNum: int, files: map<string, seq<byte>>)
    returns (r: Result<LocalDisk>, fs: map<string, seq<byte>>)
    requires |image.layerDigest| == |image.layerSize| && image.totalSize >= 0
    requires forall k :: 0 <= k < |image.layerDigest| ==>
               LayerPaths(SplitDir(diskName), image.layerDigest)[k] in files
    ensures WellFormed(image) && Count(layerNum, |image.layerSize|) * 511 <= MiB ==> r.Ok?
    ensures r.Err? ==> r.error == TableRejected
    ensures r.Ok? ==>
              var m := Count(layerNum, |image.layerSize|);
              var paths := LayerPaths(SplitDir(diskName), image.layerDigest[..m]);
              var parts := r.value.plan.partitions;
              && Planned(r.value, image.totalSize, image.layerSize, m)
              && fs == Truncated(files, paths, parts, m)
              && WrittenFrom(r.value, files, paths, m)
              && (forall i :: 0 <= i < |r.value.bytes| && Untouched(i, parts, m) ==> r.value.bytes[i] == 0)
  {
    var plan := BuildDiskImage(image, layerNum);
    if plan.Err? {
      return Err(plan.error), files;
    }
    var out;
    out, fs := WritePlan(image, plan.value, diskName, layerNum, files);
    r := Ok(out);
  }

  /** `convertImage`: classify the manifest's layers, then convert the
      image they describe. */
  method ConvertImage(imagePath: string, layers: seq<Descriptor>, workDir: string, fetch: Digest -> seq<byte>)
    returns (r: Result<LocalDisk>)
    ensures |Classified(layers)| * 511 <= MiB && DistinctBlobs(Digests(Classified(layers))) ==> r.Ok?
    ensures r.Err? ==> r.error == TableRejected || r.error.Corrupted?
    ensures r.Ok? ==> Planned(r.value, TotalSize(layers), Sizes(Classified(layers)), |Classified(layers)|)
    ensures r.Ok? && DistinctBlobs(Digests(Classified(layers))) ==>
              Holds(r.value, Digests(Classified(layers)), Sizes(Classified(layers)), fetch, |Classified(layers)|)
  {
    var image := GetImageInfo(imagePath, layers);
    GetImageInfoWellFormed(imagePath, layers);
    r := Convert(image, workDir, fetch);
  }

  /** The rest of `convertImage`: download, build the disk over all layers,
      write it and validate it. This succeeds for every image of at most
      2052 layers whose blob layers have distinct digests. Partition k then
      holds blob k, padded to whole sectors. */
  method Convert(image: ImageInfo, workDir: string, fetch: Digest -> seq<byte>) returns (r: Result<LocalDisk>)
    requires WellFormed(image)
    ensures |image.layerSize| * 511 <= MiB && DistinctBlobs(image.layerDigest) ==> r.Ok?
    ensures r.Err? ==> r.error == TableRejected || r.error.Corrupted?
    ensures r.Ok? ==> Planned(r.value, image.totalSize, image.layerSize, |image.layerSize|)
    ensures r.Ok? && DistinctBlobs(image.layerDigest) ==>
              Holds(r.value, image.layerDigest, image.layerSize, fetch, |image.layerSize|)
  {
    var targetDir := workDir;
    var downloadedBlobs, files := DownloadImage(image, targetDir, fetch);
    var layerCount := |image.layerSize|;
    var diskName := Join(targetDir, OutputImageName);
    OutputNameHasNoSeparator();
    WriteFindsDownloads(targetDir, OutputImageName, image.layerDigest, fetch);
    var built, fs := BuildAndWrite(image, diskName, layerCount, files);
    if built.Err? {
      return Err(built.error);
    }
    var out := built.value;
    WriteThenValidate(image, targetDir, fetch, downloadedBlobs, files, out, fs);
    var v := ValidateData(out.bytes, out.plan.partitions, layerCount, downloadedBlobs, fs);
    if v.Err? {
      return Err(v.error);
    }
    r := Ok(out);
  }

  /** What `convertImage` knows between writing and validating: every
      downloaded file is still there, and over distinct paths the disk holds
      every blob and validates clean. */
  lemma WriteThenValidate(image: ImageInfo, targetDir: string, fetch: Digest -> seq<byte>,
                          downloadedBlobs: seq<string>, files: map<string, seq<byte>>,
                          out: LocalDisk, fs: map<string, seq<byte>>)
    requires WellFormed(image)
    requires downloadedBlobs == LayerPaths(targetDir, image.layerDigest)
    requires files == Downloads(downloadedBlobs, image.layerDigest, fetch)
    requires var n := |image.layerSize|;
             && Planned(out, image.totalSize, image.layerSize, n)
             && fs == Truncated(files, downloadedBlobs, out.plan.partitions, n)
             && WrittenFrom(out, files, downloadedBlobs, n)
    ensures |out.plan.partitions| == |image.layerSize| == |downloadedBlobs|
    ensures forall k :: 0 <= k < |downloadedBlobs| ==> downloadedBlobs[k] in fs
    ensures DistinctBlobs(image.layerDigest) ==>
              && CorruptedPartitions(out.bytes, out.plan.partitions, downloadedBlobs, fs, |downloadedBlobs|) == []
              && Holds(out, image.layerDigest, image.layerSize, fetch, |image.layerSize|)
  {
    var n := |image.layerSize|;
    if DistinctBlobs(image.layerDigest) {
      DistinctPaths(targetDir, image.layerDigest);
      WrittenValidates(out, files, downloadedBlobs, n);
      DownloadsDistinct(downloadedBlobs, image.layerDigest, fetch);
      LayerContents(out, image.totalSize, image.layerDigest, image.layerSize, fetch, files, downloadedBlobs, n);
    }
  }

  /** Over distinct paths, every stored file holds its own layer's blob. */
  lemma DownloadsDistinct(paths: seq<string>, digests: seq<Digest>, fetch: Digest -> seq<byte>)
    requires |paths| <= |digests| && Distinct(paths)
    ensures forall k :: 0 <= k < |paths| ==> Downloads(paths, digests, fetch)[paths[k]] == fetch(digests[k])
  {
    forall k | 0 <= k < |paths|
      ensures Downloads(paths, digests, fetch)[paths[k]] == fetch(digests[k])
    {
      DownloadsAt(paths, digests, fetch, k);
    }
  }

  /** A disk written over distinct paths passes validation. */
  lemma WrittenValidates(out: LocalDisk, files: map<string, seq<byte>>, paths: seq<string>, m: nat)
    requires m == |paths| && Distinct(paths) && WrittenFrom(out, files, paths, m)
    ensures CorruptedPartitions(out.bytes, out.plan.partitions, paths,
                                Truncated(files, paths, out.plan.partitions, m), m) == []
  {
    WrittenDiskValidates(out.bytes, files, paths, out.plan.partitions, m);
  }

  /** Over distinct paths, a freshly written disk holds each layer's blob:
      the write loop cut or padded file k, which held blob k, to partition
      k's size. */
  lemma LayerContents(out: LocalDisk, totalSize: int, digests: seq<Digest>, sizes: seq<nat>,
                      fetch: Digest -> seq<byte>, files: map<string, seq<byte>>, paths: seq<string>, m: nat)
    requires m == |paths| == |digests| == |sizes| && Distinct(paths)
    requires Planned(out, totalSize, sizes, m)
    requires forall k :: 0 <= k < m ==> paths[k] in files && files[paths[k]] == fetch(digests[k])
    requires WrittenFrom(out, files, paths, m)
    ensures Holds(out, digests, sizes, fetch, m)
  {
    var parts := out.plan.partitions;
    forall k | 0 <= k < m
      ensures PartitionBytes(out.bytes, parts[k]) == Fit(fetch(digests[k]), CeilSectors(sizes[k]) * 512)
    {
      assert PartitionBytes(out.bytes, parts[k]) == Truncated(files, paths, parts, k + 1)[paths[k]];
      LayerContentAt(files, paths, parts, sizes, m, k);
    }
  }

  /** File k, written once over distinct paths, is its original contents
      padded to whole sectors. */
  lemma LayerContentAt(files: map<string, seq<byte>>, paths: seq<string>, parts: seq<Partition>,
                       sizes: seq<nat>, m: nat, k: nat)
    requires k < m == |paths| == |parts| <= |sizes| && Distinct(paths) && paths[k] in files
    requires Extents(parts) == Layout(CeilSectorCounts(sizes[..m]), FirstStart)
    ensures Truncated(files, paths, parts, k + 1)[paths[k]] == Fit(files[paths[k]], CeilSectors(sizes[k]) * 512)
  {
    forall j | 0 <= j < k + 1 && j != k
      ensures paths[j] != paths[k]
    {
    }
    TruncatedAt(files, paths, parts, k + 1, k);
    PartitionLength(parts, sizes, m, k);
  }

  // ----- convertImageWithTemps -----

  /** One part image and the file it is written to. */
  datatype PartFile = PartFile(name: string, disk: LocalDisk)

  /** The part images, then the `output.img` symlink: the path it is created
      at and the target it records. */
  datatype Temps = Temps(parts: seq<PartFile>, link: string, target: string)

  const PartPrefix: string := OutputImageName + ".part"

  /** `outputImageName + ".part" + fmt.Sprint(j)`: a plain file name, from
      whose suffix the part number reads back. */
  function PartFileName(j: nat): (name: string)
    ensures '/' !in name
    ensures PartPrefix <= name && ParseDecimal(name[|PartPrefix|..]) == j
  {
    var d := DecimalString(j);
    DecimalRoundTrip(j);
    var name := PartPrefix + d;
    assert '/' !in PartPrefix;
    assert name[|PartPrefix|..] == d;
    name
  }

  /** The path of part image j in workDir. */
  function PartName(workDir: string, j: nat): string {
    Join(workDir, PartFileName(j))
  }

  /** Distinct parts are written to distinct files. */
  lemma PartNameInjective(workDir: string, i: nat, j: nat)
    ensures PartName(workDir, i) == PartName(workDir, j) <==> i == j
  {
    JoinInjective(workDir, PartFileName(i), PartFileName(j));
    var p := OutputImageName + ".part";
    assert PartFileName(i) == p + DecimalString(i) && PartFileName(j) == p + DecimalString(j);
    if PartFileName(i) == PartFileName(j) {
      assert DecimalString(i) == PartFileName(i)[|p|..] && DecimalString(j) == PartFileName(j)[|p|..];
    }
    DecimalInjective(i, j);
  }

  /** The symlink `convertImageWithTemps` creates from the last part's path:
      it sits at workDir/output.img, and its target, read relative to the
      link's own directory, is that part. */
  lemma LinkTargetsPart(workDir: string, j: nat)
    ensures var name := PartName(workDir, j);
            && SplitDir(name) + OutputImageName == Join(workDir, OutputImageName)
            && SplitFile(name) == PartFileName(j)
            && Join(SplitDir(Join(workDir, OutputImageName)), SplitFile(name)) == name
  {
    OutputNameHasNoSeparator();
    SplitJoin(workDir, PartFileName(j));
    SplitJoin(workDir, OutputImageName);
    var p := DirPrefix(workDir);
    assert DirPrefix(p) == p;
  }

  /** A downloaded file as the part loop leaves it: the blob itself, or the
      blob cut or padded to whole sectors once some part has been written. */
  predicate Loaded(file: seq<byte>, blob: seq<byte>, size: nat) {
    file == blob || file == Fit(blob, CeilSectors(size) * 512)
  }

  /** `convertImageWithTemps`: classify the manifest's layers, then build the
      part images of the image they describe. */
  method ConvertImageWithTemps(imagePath: string, layers: seq<Descriptor>, workDir: string,
                               fetch: Digest -> seq<byte>)
    returns (r: Result<Temps>)
    ensures |Classified(layers)| < 2 ==> r == Err(NilDisk)
    ensures 2 <= |Classified(layers)| && |Classified(layers)| * 511 <= MiB ==> r.Ok?
    ensures r.Err? ==> r.error == NilDisk || r.error == TableRejected
    ensures r.Ok? ==> TempsShape(r.value, workDir, TotalSize(layers), Sizes(Classified(layers)))
    ensures r.Ok? && DistinctBlobs(Digests(Classified(layers))) ==>
              forall j :: 0 <= j < |r.value.parts| ==>
                Holds(r.value.parts[j].disk, Digests(Classified(layers)), Sizes(Classified(layers)), fetch, j + 2)
  {
    var image := GetImageInfo(imagePath, layers);
    GetImageInfoWellFormed(imagePath, layers);
    r := ConvertWithTemps(image, workDir, fetch);
  }

  /** The part images j = 1 .. n-1, part j planned for the first j + 1
      layers and written to PartName(workDir, j), and the symlink
      workDir/output.img whose target is the last part. */
  ghost predicate TempsShape(t: Temps, workDir: string, totalSize: int, sizes: seq<nat>) {
    && |t.parts| == |sizes| - 1 >= 1
    && (forall j :: 0 <= j < |t.parts| ==>
          t.parts[j].name == PartName(workDir, j + 1) && Planned(t.parts[j].disk, totalSize, sizes, j + 2))
    && t.link == Join(workDir, OutputImageName)
    && t.target == PartFileName(|sizes| - 1)
    && Join(SplitDir(t.link), t.target) == t.parts[|t.parts| - 1].name
  }

  /** The rest of `convertImageWithTemps`: download, then for i = 2 .. n
      build and write a part image over the first i layers, then link
      output.img to the last part. With fewer than two layers no part is
      built and the last disk is nil. */
  method ConvertWithTemps(image: ImageInfo, workDir: string, fetch: Digest -> seq<byte>)
    returns (r: Result<Temps>)
    requires WellFormed(image)
    ensures |image.layerSize| < 2 ==> r == Err(NilDisk)
    ensures 2 <= |image.layerSize| && |image.layerSize| * 511 <= MiB ==> r.Ok?
    ensures r.Err? ==> r.error == NilDisk || r.error == TableRejected
    ensures r.Ok? ==> TempsShape(r.value, workDir, image.totalSize, image.layerSize)
    ensures r.Ok? && DistinctBlobs(image.layerDigest) ==>
              forall j :: 0 <= j < |r.value.parts| ==>
                Holds(r.value.parts[j].disk, image.layerDigest, image.layerSize, fetch, j + 2)
  {
    var targetDir := workDir;
    var downloadedBlobs, files := DownloadImage(image, targetDir, fetch);
    var layerCount := |image.layerSize|;
    if DistinctBlobs(image.layerDigest) {
      DistinctPaths(targetDir, image.layerDigest);
      DownloadsDistinct(downloadedBlobs, image.layerDigest, fetch);
      assert FilesLoaded(files, downloadedBlobs, image, fetch);
    }
    var built := BuildParts(image, targetDir, fetch, downloadedBlobs, files);
    if built.Err? {
      return Err(built.error);
    }
    var parts := built.value;
    if |parts| == 0 {
      return Err(NilDisk);
    }
    var last := parts[|parts| - 1].name;
    var dir, file := SplitDir(last), SplitFile(last);
    r := Ok(Temps(parts, dir + OutputImageName, file));
    LinkedParts(parts, image, targetDir, fetch, r.value);
  }

  /** The parts built, with the link from the last part's path, have the
      shape of the incremental output. */
  lemma LinkedParts(parts: seq<PartFile>, image: ImageInfo, workDir: string, fetch: Digest -> seq<byte>, t: Temps)
    requires PartsBuilt(parts, image, workDir, fetch)
    requires |parts| == |image.layerSize| - 1 >= 1
    requires var last := parts[|parts| - 1].name;
             t == Temps(parts, SplitDir(last) + OutputImageName, SplitFile(last))
    ensures TempsShape(t, workDir, image.totalSize, image.layerSize)
    ensures DistinctBlobs(image.layerDigest) ==>
              forall j :: 0 <= j < |t.parts| ==>
                Holds(t.parts[j].disk, image.layerDigest, image.layerSize, fetch, j + 2)
  {
    LinkTargetsPart(workDir, |parts|);
    assert PartBuilt(parts[|parts| - 1], |parts| - 1, image, workDir, fetch);
    forall j | 0 <= j < |parts|
      ensures parts[j].name == PartName(workDir, j + 1)
      ensures Planned(parts[j].disk, image.totalSize, image.layerSize, j + 2)
      ensures DistinctBlobs(image.layerDigest) ==>
                Holds(parts[j].disk, image.layerDigest, image.layerSize, fetch, j + 2)
    {
      assert PartBuilt(parts[j], j, image, workDir, fetch);
    }
  }

  /** The loop of `convertImageWithTemps`: for i = 2 .. n, build and write
      the part image over the first i layers. Each round leaves the files
      truncated for the next. */
  method BuildParts(image: ImageInfo, targetDir: string, fetch: Digest -> seq<byte>,
                    downloadedBlobs: seq<string>, files0: map<string, seq<byte>>)
    returns (r: Result<seq<PartFile>>)
    requires WellFormed(image)
    requires downloadedBlobs == LayerPaths(targetDir, image.layerDigest)
    requires forall p :: p in files0 <==> p in downloadedBlobs
    requires DistinctBlobs(image.layerDigest) ==> FilesLoaded(files0, downloadedBlobs, image, fetch)
    ensures |image.layerSize| * 511 <= MiB ==> r.Ok?
    ensures r.Err? ==> r.error == TableRejected
    ensures r.Ok? ==> |r.value| == (if |image.layerSize| < 2 then 0 else |image.layerSize| - 1)
    ensures r.Ok? ==> PartsBuilt(r.value, image, targetDir, fetch)
  {
    var layerCount := |image.layerSize|;
    var parts: seq<PartFile> := [];
    var files := files0;
    var i := 2;
    while i < layerCount + 1
      invariant 2 <= i && |parts| == i - 2
      invariant i == 2 || i <= layerCount + 1
      invariant forall p :: p in files <==> p in downloadedBlobs
      invariant PartsBuilt(parts, image, targetDir, fetch)
      invariant DistinctBlobs(image.layerDigest) ==> FilesLoaded(files, downloadedBlobs, image, fetch)
    {
      var name := Join(targetDir, OutputImageName + ".part" + DecimalString(i - 1));
      var disk, fs := BuildPart(image, targetDir, fetch, downloadedBlobs, files, i);
      if disk.Err? {
        return Err(disk.error);
      }
      PartsBuiltSnoc(parts, image, targetDir, fetch, disk.value);
      parts := parts + [PartFile(name, disk.value)];
      files := fs;
      i := i + 1;
    }
    r := Ok(parts);
  }

  /** One round of the part loop: build and write part i - 1 over the
      first i layers. */
  method BuildPart(image: ImageInfo, targetDir: string, fetch: Digest -> seq<byte>,
                   downloadedBlobs: seq<string>, files: map<string, seq<byte>>, i: nat)
    returns (r: Result<LocalDisk>, fs: map<string, seq<byte>>)
    requires WellFormed(image) && 2 <= i <= |image.layerSize|
    requires downloadedBlobs == LayerPaths(targetDir, image.layerDigest)
    requires forall p :: p in files <==> p in downloadedBlobs
    requires DistinctBlobs(image.layerDigest) ==> FilesLoaded(files, downloadedBlobs, image, fetch)
    ensures i * 511 <= MiB ==> r.Ok?
    ensures r.Err? ==> r.error == TableRejected
    ensures r.Ok? ==> forall p :: p in fs <==> p in downloadedBlobs
    ensures r.Ok? ==> Planned(r.value, image.totalSize, image.layerSize, i)
    ensures r.Ok? && DistinctBlobs(image.layerDigest) ==>
              Holds(r.value, image.layerDigest, image.layerSize, fetch, i)
              && FilesLoaded(fs, downloadedBlobs, image, fetch)
  {
    var name := Join(targetDir, OutputImageName + ".part" + DecimalString(i - 1));
    assert name == PartName(targetDir, i - 1);
    WriteFindsDownloads(targetDir, PartFileName(i - 1), image.layerDigest, fetch);
    WritePathsAreDownloadPaths(targetDir, PartFileName(i - 1), image.layerDigest, i);
    r, fs := BuildAndWrite(image, name, i, files);
    if r.Ok? && DistinctBlobs(image.layerDigest) {
      assert Count(i, |image.layerDigest|) == i;
      assert LayerPaths(SplitDir(name), image.layerDigest[..i]) == downloadedBlobs[..i];
      DistinctPaths(targetDir, image.layerDigest);
      PartStep(image, fetch, downloadedBlobs, files, r.value, fs, i);
    }
  }

  /** Parts 1 .. |parts| of the loop so far: part j + 1 is written to
      PartName(dir, j + 1), planned for j + 2 layers and, over distinct
      blobs, holds them. */
  ghost predicate PartsBuilt(parts: seq<PartFile>, image: ImageInfo, dir: string, fetch: Digest -> seq<byte>) {
    forall j :: 0 <= j < |parts| ==> PartBuilt(parts[j], j, image, dir, fetch)
  }

  /** Part j (file number j+1) is planned with layerNum j+2, and holds its
      layers' blobs when the blob digests are distinct. */
  ghost predicate PartBuilt(part: PartFile, j: nat, image: ImageInfo, dir: string, fetch: Digest -> seq<byte>) {
    && part.name == PartName(dir, j + 1)
    && Planned(part.disk, image.totalSize, image.layerSize, j + 2)
    && (DistinctBlobs(image.layerDigest) ==>
          Holds(part.disk, image.layerDigest, image.layerSize, fetch, j + 2))
  }

  lemma PartsBuiltSnoc(parts: seq<PartFile>, image: ImageInfo, dir: string, fetch: Digest -> seq<byte>,
                       out: LocalDisk)
    requires PartsBuilt(parts, image, dir, fetch)
    requires Planned(out, image.totalSize, image.layerSize, |parts| + 2)
    requires DistinctBlobs(image.layerDigest) ==>
               Holds(out, image.layerDigest, image.layerSize, fetch, |parts| + 2)
    ensures PartsBuilt(parts + [PartFile(PartName(dir, |parts| + 1), out)], image, dir, fetch)
  {
    var ps := parts + [PartFile(PartName(dir, |parts| + 1), out)];
    assert PartBuilt(ps[|parts|], |parts|, image, dir, fetch);
    forall j | 0 <= j < |ps| ensures PartBuilt(ps[j], j, image, dir, fetch) {
      if j < |parts| {
        assert ps[j] == parts[j];
      }
    }
  }

  /** Every downloaded file holds its blob, possibly fitted to its
      partition by an earlier round. */
  ghost predicate FilesLoaded(files: map<string, seq<byte>>, blobs: seq<string>, image: ImageInfo,
                              fetch: Digest -> seq<byte>)
    requires |blobs| <= |image.layerDigest| && |blobs| <= |image.layerSize|
  {
    forall k :: 0 <= k < |blobs| ==>
      blobs[k] in files && Loaded(files[blobs[k]], fetch(image.layerDigest[k]), image.layerSize[k])
  }

  /** One round of the part loop over distinct paths: the new part holds
      its i layers' blobs, and every downloaded file is still loaded. */
  lemma PartStep(image: ImageInfo, fetch: Digest -> seq<byte>, downloadedBlobs: seq<string>,
                 files: map<string, seq<byte>>, out: LocalDisk, fs: map<string, seq<byte>>, i: nat)
    requires WellFormed(image) && 2 <= i <= |image.layerSize| == |downloadedBlobs|
    requires Distinct(downloadedBlobs)
    requires FilesLoaded(files, downloadedBlobs, image, fetch)
    requires Planned(out, image.totalSize, image.layerSize, i)
    requires fs == Truncated(files, downloadedBlobs[..i], out.plan.partitions, i)
    requires WrittenFrom(out, files, downloadedBlobs[..i], i)
    ensures Holds(out, image.layerDigest, image.layerSize, fetch, i)
    ensures FilesLoaded(fs, downloadedBlobs, image, fetch)
  {
    var paths := downloadedBlobs[..i];
    var parts := out.plan.partitions;
    forall k | 0 <= k < |downloadedBlobs|
      ensures k < i ==> PartitionBytes(out.bytes, parts[k])
                        == Fit(fetch(image.layerDigest[k]), CeilSectors(image.layerSize[k]) * 512)
      ensures Loaded(fs[downloadedBlobs[k]], fetch(image.layerDigest[k]), image.layerSize[k])
    {
      if k < i {
        assert paths[k] == downloadedBlobs[k];
        LoadedPart(files, paths, parts, image.layerSize, i, k, fetch(image.layerDigest[k]));
      } else {
        forall j | 0 <= j < i
          ensures paths[j] != downloadedBlobs[k]
        {
          assert paths[j] == downloadedBlobs[j];
        }
        TruncatedOther(files, paths, parts, i, downloadedBlobs[k]);
      }
    }
  }

  /** File k, loaded with its blob before a round of the part loop, is
      written into partition k as the blob fitted to whole sectors, and is
      left as that. */
  lemma LoadedPart(files: map<string, seq<byte>>, paths: seq<string>, parts: seq<Partition>,
                   sizes: seq<nat>, i: nat, k: nat, blob: seq<byte>)
    requires k < i == |paths| == |parts| <= |sizes| && Distinct(paths) && paths[k] in files
    requires Extents(parts) == Layout(CeilSectorCounts(sizes[..i]), FirstStart)
    requires Loaded(files[paths[k]], blob, sizes[k])
    ensures Truncated(files, paths, parts, k + 1)[paths[k]] == Fit(blob, CeilSectors(sizes[k]) * 512)
    ensures Truncated(files, paths, parts, i)[paths[k]] == Fit(blob, CeilSectors(sizes[k]) * 512)
  {
    FitIdempotent(blob, CeilSectors(sizes[k]) * 512);
    LayerContentAt(files, paths, parts, sizes, i, k);
    TruncatedOnce(files, paths, parts, i, k);
  }
}
