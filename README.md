# nydus-localdisk: a Dafny model of the disk-image generator

nydus-localdisk packs a Nydus container image into one raw disk file. The
file carries a GPT partition table, and each image layer gets a partition of
its own. The bootstrap layer (media type OCI gzip) goes first, followed by
the Nydus blob layers. The generator works in five steps:

1. It reads the manifest's layer list and classifies the layers.
2. It downloads every layer into a work directory under a name derived from its
   digest (`bootstrap-<encoded>` for index 0, `blob-<encoded>` otherwise).
3. It sizes the disk as the total layer size plus one MiB per layer plus one
   more MiB, rounded up to whole 512-byte sectors.
4. It plans the partitions. The first starts at sector 2048, and each later
   one at the next multiple of 2048 after the previous end.
5. It cuts or zero-extends each downloaded file to its partition's size and
   copies it into the partition. Finally it compares each partition's content
   with its file.

The incremental variant writes `output.img.part1` … `output.img.part(n-1)`. Part j
holds the first j+1 layers, and `output.img` links to the last part.

The repository has two variants: the current one under `pkg/generator` and an
older one under `generator/`. Both are modelled. Some lemmas contrast them:
ceiling vs. floor sector counts, which layers count towards the total size,
partition names, and the limit on the number of layers. Statements about how
many bytes a partition holds read go-diskfs's `GetSize` as (End − Start)·512
(see "## Left out").

Module layout:

| file | module | contents |
|---|---|---|
| `common.dfy` | `Common` | bytes, digests, layer descriptors, constants, the error results that stand for the fatal exits |
| `align.dfy` | `Align` | `alignUp` (bit mask) and `roundUp` (ceiling), and their agreement |
| `naming.dfy` | `Naming` | layer file names, `filepath.Join`/`Split`, decimal numerals |
| `image.dfy` | `Image` | the current layer classifier (`getImageInfo`) |
| `disktable.dfy` | `DiskTable` | the partition planner and the disk size |
| `diskdata.dfy` | `DiskData` | the disk as a byte array, the write loop, validation |
| `generator.dfy` | `Generator` | downloads, `writeData`, `convertImage`, `convertImageWithTemps` |
| `legacy.dfy` | `Legacy` | the older variant, and the lemmas contrasting it with the current one |

Modelling conventions:

- Layer sizes are natural numbers.
- A partition `[Start, End]` in sectors occupies the bytes `[Start·512, End·512)`, so `GetSize` is read as (End − Start)·512.
- The registry is a function `fetch` from a digest to the blob's bytes.
- The file system is a map from a path to the file's bytes.
- The fatal exits the model reaches become an `Err` result that carries an `Error`: a file missing when `writeData` truncates it, a partition table the codec rejects, the older digest slice's panic, the size mismatch in `buildDiskImage`, the nil disk of the incremental variant, and a corrupted partition in `validateData`. The other fatal exits are listed under "## Left out".

## Model

| member | source | states |
|---|---|---|
| Common.MediaTypesDiffer | pkg/generator/image.go:61-65 | the gzip and Nydus blob media types are different strings, so the classifier's two branches never both match |
| Align.AndNot | pkg/generator/generator.go:35 | `x &^ m` removes between 0 and m from x (what it removes is `x & m`) |
| Align.AlignUp | pkg/generator/generator.go:33-36 | alignUp(x, a) lies in [x, x+a) for every a ≥ 1; for a power of two it is also the least multiple of a that is ≥ x (AlignUpIsRoundUp) |
| Align.RoundUp | pkg/generator/generator.go:38-40 | ceil(value/nearest)·nearest is a multiple of nearest and lies in [value, value+nearest) |
| Align.CeilDiv | pkg/generator/generator.go:39 | the ceiling quotient q satisfies (q−1)·d < x ≤ q·d |
| Align.AndNotLowBits | pkg/generator/generator.go:35 | y &^ (2^k − 1) clears the low k bits: it equals y − y mod 2^k |
| Align.AlignUpIsRoundUp | pkg/generator/generator.go:34-40 | for every power of two a, alignUp(x, a) equals roundUp(x, a), the least multiple of a that is ≥ x |
| Align.AlignUp512 | pkg/generator/generator.go:94-99 | alignUp(x, 512) == roundUp(x, 512), a multiple of 512 in [x, x+512); the two disk sizes never disagree, so the internal-error abort cannot fire |
| Naming.BootstrapNameReadsBack | pkg/generator/generator.go:47-50 | `getBootstrapFileName(d)` reads back as the bootstrap file of d's encoded digest |
| Naming.BlobNameReadsBack | pkg/generator/generator.go:42-45 | `getBlobFileName(d)` reads back as a blob file of d's encoded digest, never as a bootstrap file |
| Naming.FileNameRoundTrip | pkg/generator/generator.go:140-144 | the name chosen for layer k (the bootstrap name at k = 0, the blob name otherwise) records its role and its encoded digest, and both can be read back |
| Naming.FileNameInjective | pkg/generator/generator.go:42-50 | two layer file names are equal iff both have the same role and the same encoded digest |
| Naming.SplitDir | pkg/generator/generator.go:130 | the directory part of a path is a prefix of it, empty or ending in the separator |
| Naming.SplitDirSkipsName | pkg/generator/generator.go:130 | appending a name without a separator does not change the directory part |
| Naming.SplitFile | pkg/generator/generator.go:336 | the file part of `filepath.Split`: the directory part followed by it is the path, and it contains no separator |
| Naming.SplitJoin | pkg/generator/generator.go:130 | splitting dir joined with name gives back the directory (with its separator) and name |
| Naming.JoinSplitJoin | pkg/generator/generator.go:130-144 | a name joined to the directory of the disk's path gives the same path as joining it to the work directory |
| Naming.JoinInjective | pkg/generator/generator.go:210-212 | two names joined to one directory give equal paths iff the names are equal |
| Naming.DecimalString | pkg/generator/generator.go:332 | `fmt.Sprint` of a non-negative number is a non-empty string of decimal digits |
| Naming.DecimalRoundTrip | pkg/generator/generator.go:332 | reading the decimal string back gives the number |
| Naming.DecimalInjective | pkg/generator/generator.go:332 | two numbers have equal decimal strings iff they are equal |
| Image.Filter | pkg/generator/image.go:60-68 | the layers of one media type are no more than the layers |
| Image.GetImageInfo | pkg/generator/image.go:57-80 | the loop leaves layerDigest and layerSize describing the classified layers (gzip layers latest first, then Nydus blobs in manifest order, others dropped), and makes totalSize the sum of the sizes of all manifest layers |
| Image.ClassifiedSnoc | pkg/generator/image.go:61-67 | one more manifest layer is prepended if gzip, appended if Nydus blob, and dropped otherwise |
| Image.TotalSizeSnoc | pkg/generator/image.go:69 | every manifest layer adds its size to the total, whatever its media type |
| Image.DigestsSizesConcat | pkg/generator/image.go:63-67 | prepending or appending a layer grows both lists in step |
| Image.ReversedAt | pkg/generator/image.go:63-64 | repeated prepending reverses: index k of the reversal is index n−1−k of the original |
| Image.ReversedLength | pkg/generator/image.go:63-64 | reversal keeps the length |
| Image.ReversedMembers | pkg/generator/image.go:63-64 | reversal keeps the members |
| Image.ClassifiedLength | pkg/generator/image.go:60-68 | the output holds exactly the gzip layers and the Nydus blob layers |
| Image.ClassifiedAt | pkg/generator/image.go:61-67 | output index k < g (the number of gzip layers) is gzip layer g−1−k; a later index is blob layer k−g |
| Image.FilterAppend | pkg/generator/image.go:60-68 | selecting one media type distributes over concatenation |
| Image.FilterMembers | pkg/generator/image.go:60-68 | a layer is selected iff it is in the manifest with that media type |
| Image.ClassifiedMembers | pkg/generator/image.go:60-68 | a layer is kept iff it is in the manifest and its media type is recognised |
| Image.ClassifiedCount | pkg/generator/image.go:60-68 | kept plus dropped layers are exactly the manifest's layers, so the output is no longer than the input |
| Image.BootstrapHoisted | pkg/generator/image.go:61-64 | with exactly one gzip layer, it ends at index 0 wherever it sat in the manifest |
| Image.FilterPositions | pkg/generator/image.go:65-67 | two layers of one media type keep their relative order when selected |
| Image.ManifestOrder | pkg/generator/image.go:61-67 | two Nydus blob layers keep their manifest order after all gzip layers; two gzip layers appear in reverse manifest order |
| Image.SumAppend | pkg/generator/image.go:69 | the sum of sizes distributes over concatenation |
| Image.TotalSizeReversed | pkg/generator/image.go:63-64 | reversing layers keeps their total size |
| Image.TotalSizeAppend | pkg/generator/image.go:69 | the total size of two lists of layers is the sum of their totals |
| Image.TotalSizeSplit | pkg/generator/image.go:60-69 | totalSize is the size of the kept layers plus the size of the dropped ones |
| Image.KeptSizeSnoc | pkg/generator/image.go:60-68 | one more layer adds its size to the kept total iff it is recognised |
| Image.DroppedSizeSnoc | pkg/generator/image.go:60-68 | one more layer adds its size to the dropped total iff it is not recognised |
| Image.GetImageInfoWellFormed | pkg/generator/image.go:63-69 | the two lists have equal length, and totalSize is at least the sum of the kept sizes |
| DiskTable.CeilSectors | pkg/generator/generator.go:68 | the sector count is the least r with size ≤ r·512 |
| DiskTable.Count | pkg/generator/generator.go:63-66 | the loop stops at min(layerNum, number of layers), and at 0 when layerNum ≤ 0 |
| DiskTable.Layout | pkg/generator/generator.go:63-76 | the planned extents are one per sector count |
| DiskTable.BuildDiskTable | pkg/generator/generator.go:54-87 | the loop emits min(layerNum, n) partitions. Their extents are the layout of the ceiling sector counts, starting at sector 2048. Partition k records layer k's encoded digest |
| DiskTable.NextStart | pkg/generator/generator.go:75 | `(end + 2048) / 2048 * 2048` is a multiple of 2048 strictly after end and at most 2048 beyond it |
| DiskTable.NextStartIsLeast | pkg/generator/generator.go:75 | no multiple of 2048 strictly after the end comes before the next start |
| DiskTable.LayoutAt | pkg/generator/generator.go:59-75 | extent k spans its sector count; the first begins at the start; each next begins at NextStart of the previous end; starts stay aligned to 2048 |
| DiskTable.LayoutOrdered | pkg/generator/generator.go:63-76 | every earlier partition ends strictly before every later one begins |
| DiskTable.LayoutPrefix | pkg/generator/generator.go:63-66 | the layout of the first m layers is the first m extents of the full layout |
| DiskTable.TableShape | pkg/generator/generator.go:59-75 | partition k has End − Start = ceil(size/512), the first starts at 2048, every start is a multiple of 2048, and the next start is NextStart(End) |
| DiskTable.TablePrefix | pkg/generator/generator.go:63-66 | the table built with a smaller layerNum is a prefix of the one built with a larger layerNum |
| DiskTable.DiskSize | pkg/generator/generator.go:94-99 | the size check never fails; the disk size is a multiple of 512 in [inputSize, inputSize+512), with inputSize = totalSize + (layers+1)·1 MiB, and layerNum does not enter it |
| DiskTable.BuildDiskImage | pkg/generator/generator.go:90-119 | disk size as above; the table is buildDiskTable's with every partition inside the disk, accepted whenever the layers fit (min(layerNum, n)·511 ≤ 1 MiB); the only modelled failure is the table's rejection |
| DiskTable.TableDisjoint | pkg/generator/generator.go:75 | the planned partitions do not overlap |
| DiskTable.TableInside | pkg/generator/generator.go:94-113 | with a well-formed image and at most 2052 planned partitions, every partition ends inside the disk |
| DiskTable.CeilSectorsBytes | pkg/generator/generator.go:68 | rounding every size up to sectors adds at most 511 bytes per layer |
| DiskTable.SumPrefix | pkg/generator/generator.go:94 | the first m sizes sum to no more than all sizes |
| DiskTable.LayoutEnd | pkg/generator/generator.go:69-75 | the last extent ends at most start + Σ sectors + 2048 per gap |
| DiskTable.SumFront | pkg/generator/generator.go:94 | a non-empty sum splits into its first term and the rest |
| DiskTable.TableFits | pkg/generator/generator.go:94-113 | the last planned partition ends inside the disk |
| DiskData.Fit | pkg/generator/generator.go:146 | `os.Truncate` to n bytes: the file's first n bytes, padded with zeros |
| DiskData.FitIdempotent | pkg/generator/generator.go:146 | truncating a file to a size it already has changes nothing |
| DiskData.FitExtends | pkg/generator/generator.go:146 | a short file is extended by zeros |
| DiskData.FitCuts | pkg/generator/generator.go:146 | a long file loses its tail |
| DiskData.PartitionBytes | pkg/generator/generator.go:157 | a partition's bytes are as many as its size |
| DiskData.Truncated | pkg/generator/generator.go:146 | truncating files neither adds nor removes any |
| DiskData.WriteParts | pkg/generator/generator.go:132-165 | for k ascending below the count, the loop truncates file k to partition k's size and writes it there. It stops at the first missing file with MissingFile. Partition k then holds the truncated file, and bytes outside the written partitions are unchanged |
| DiskData.WriteContents | pkg/generator/generator.go:157 | the partition holds the data afterwards, and every byte outside it is unchanged |
| DiskData.DisjointUnchanged | pkg/generator/generator.go:157 | writing one partition leaves a disjoint partition's bytes unchanged |
| DiskData.CorruptedExactly | pkg/generator/generator.go:255-290 | an index is reported iff it is below layerNum and its partition's bytes differ from its file |
| DiskData.CorruptedAscending | pkg/generator/generator.go:255-290 | the reported indexes are ascending and below the count, so errorCount ≤ min(layerNum, n) |
| DiskData.ValidateData | pkg/generator/generator.go:238-298 | a missing file among the first layerNum gives MissingFile. Otherwise the run succeeds iff no partition differs; on failure errorCount is the number of differing partitions, and the listed indexes are those partitions |
| DiskData.CleanDiskValidates | pkg/generator/generator.go:284-294 | a disk whose partitions equal their files validates |
| DiskData.OneFlippedByte | pkg/generator/generator.go:255-290 | changing one byte of a correct disk inside partition j is reported as exactly partition j (or nothing if j is not checked) |
| DiskData.CorruptedOnly | pkg/generator/generator.go:255-290 | if only partition j mismatches, exactly [j] is reported |
| DiskData.OutsideOthers | pkg/generator/generator.go:75 | a byte inside one planned partition lies in no other |
| DiskData.FlipInside | pkg/generator/generator.go:284 | changing a byte inside a partition changes its content |
| DiskData.FlipOutside | pkg/generator/generator.go:284 | changing a byte outside a partition leaves its content unchanged |
| DiskData.TruncatedOther | pkg/generator/generator.go:146 | a file the loop does not open is left as it was |
| DiskData.TruncatedAt | pkg/generator/generator.go:146 | a file opened once is left cut or padded to that partition's size |
| DiskData.TruncatedOnce | pkg/generator/generator.go:146 | with distinct paths, a file's final truncation is the one at its own step |
| DiskData.WrittenDiskValidates | pkg/generator/generator.go:255-294 | with distinct paths, the disk the write loop leaves passes validation against the truncated files |
| DiskData.PartitionLength | pkg/generator/generator.go:68-72 | with `GetSize` read as (End − Start)·512, partition k's byte size is ceil(size_k/512)·512 |
| Generator.DistinctPaths | pkg/generator/generator.go:207-213 | the download paths are distinct iff no two blob layers share an encoded digest |
| Generator.OutputNameHasNoSeparator | pkg/generator/constant.go:17 | `output.img` contains no separator |
| Generator.NoSeparatorInLayerName | pkg/generator/generator.go:42-50 | a layer file name has no separator when its encoded digest has none |
| Generator.WritePathsAreDownloadPaths | pkg/generator/generator.go:130-144 | the file writeData opens for partition k < m is the path downloadImage returned at index k |
| Generator.WriteFindsDownloads | pkg/generator/generator.go:130-146 | every path writeData opens was downloaded |
| Generator.Downloads | pkg/generator/generator.go:207-221 | the work directory holds exactly the listed paths |
| Generator.DownloadsSnoc | pkg/generator/generator.go:215-221 | one more download stores its blob at its path |
| Generator.DownloadsAt | pkg/generator/generator.go:215-221 | a path holds the blob of the last layer downloaded to it |
| Generator.LayerPathsSnoc | pkg/generator/generator.go:221 | each iteration appends its layer's path |
| Generator.DownloadImage | pkg/generator/generator.go:186-228 | the loop returns the layer paths in layer order, and the directory holds each path's blob |
| Generator.WriteData | pkg/generator/generator.go:122-169 | for k < min(layerNum, n), the file named for layer k in the disk's directory is truncated to partition k, then written into it. A missing file stops the loop with MissingFile, and bytes outside the written partitions are unchanged |
| Generator.DownloadsDistinct | pkg/generator/generator.go:207-221 | with distinct paths, each path holds its own layer's blob |
| Generator.WritePlan | pkg/generator/generator.go:104-165 | a zero-filled disk of the planned size, written with the first layers and zero elsewhere |
| Generator.BuildAndWrite | pkg/generator/generator.go:90-169 | buildDiskImage then writeData: the planned disk with partition k holding file k truncated to it, zero elsewhere |
| Generator.WriteThenValidate | pkg/generator/generator.go:317-321 | after download and write over distinct blobs, validation finds nothing and every partition holds its layer's blob |
| Generator.WrittenValidates | pkg/generator/generator.go:320-321 | a disk written from distinct files validates against them |
| Generator.LayerContents | pkg/generator/generator.go:132-165 | partition k holds layer k's blob, cut or zero-padded to ceil(size_k/512)·512 bytes (its `GetSize` read as (End − Start)·512) |
| Generator.LayerContentAt | pkg/generator/generator.go:146 | file k ends truncated to ceil(size_k/512)·512 bytes |
| Generator.Convert | pkg/generator/generator.go:315-321 | download, build, write and validate; it succeeds when the layers fit and the blob digests are distinct, and every partition then holds its layer's blob |
| Generator.ConvertImage | pkg/generator/generator.go:312-322 | the whole single-image pipeline from the manifest: the table is planned from all classified layers; it succeeds under the condition above, and fails only by table rejection or corruption |
| Generator.PartFileName | pkg/generator/generator.go:332 | `output.img.part` followed by `fmt.Sprint(j)`: it contains no separator, and j reads back from the part after the prefix |
| Generator.PartNameInjective | pkg/generator/generator.go:332 | part names in one directory are equal iff their numbers are |
| Generator.LinkTargetsPart | pkg/generator/generator.go:336-337 | splitting the last part's path gives the link `dir + output.img` and the target file name, and the target resolves back to the part |
| Generator.ConvertImageWithTemps | pkg/generator/generator.go:324-341 | fewer than two layers fails with the nil disk. Otherwise it builds parts `output.img.part1` … `part(n−1)`; part j holds the first j+1 layers' table on the full-size disk, and the link `output.img` targets the last part |
| Generator.LinkedParts | pkg/generator/generator.go:331-337 | parts built by the loop, with the link made from splitting the last part's path, have the output's shape: the link is `output.img` in the work directory, its target is the last part's file name and resolves back to that part; with distinct blob digests every part holds its layers |
| Generator.ConvertWithTemps | pkg/generator/generator.go:326-340 | the same, from the classified image |
| Generator.BuildParts | pkg/generator/generator.go:331-334 | the loop i = 2 … n builds n−1 parts, part i−1 planned with layerNum i, each holding its first i layers' blobs when digests are distinct |
| Generator.BuildPart | pkg/generator/generator.go:332-333 | one iteration: buildDiskImage with layerNum i, then writeData; the files stay loaded for the next part |
| Generator.PartsBuiltSnoc | pkg/generator/generator.go:331-334 | a part planned with layerNum j+2 (and holding its layers when digests are distinct), appended under the name `output.img.part(j+1)`, extends the built parts |
| Generator.PartStep | pkg/generator/generator.go:333 | after writing part i, its partitions hold the first i blobs, and the files stay either original or truncated to their partitions |
| Generator.LoadedPart | pkg/generator/generator.go:146 | re-truncating a file already cut to its partition size gives the same bytes |
| Legacy.GetImageInfo | generator/generator.go:56-88 | the same classification, but totalSize sums only the recognised layers |
| Legacy.InfoSnoc | generator/generator.go:67-77 | one iteration: a gzip layer is prepended and adds its size, a Nydus blob is appended and adds its size, any other layer changes nothing |
| Legacy.TotalSizePolicies | generator/generator.go:71-75 | the older total is the current one minus the dropped layers' sizes, so it is never larger |
| Legacy.GetImageInfoExact | generator/generator.go:64-77 | the older totalSize equals the sum of the kept sizes |
| Legacy.FloorSectors | generator/generator.go:125 | the sector count is the greatest r with r·512 ≤ size |
| Legacy.PartitionName | generator/generator.go:127 | the slice [7, 39) of the digest string exists iff the string has at least 39 characters; it is 32 characters beginning at index 7; a shorter string is the panic, as DigestTooShort |
| Legacy.Sha256PartitionName | generator/generator.go:127 | for a `sha256:` digest the name is the first 32 characters of the encoded digest |
| Legacy.BuildDiskTable | generator/generator.go:114-142 | one partition per layer, with no layerNum limit, laid out from floor sector counts from 2048 and named by the digest slice; it fails at the first digest shorter than 39 characters |
| Legacy.FloorOneShort | generator/generator.go:125 | the ceiling count is the floor count plus one exactly when the size is not a multiple of 512 |
| Legacy.SectorCountsAgree | generator/generator.go:125 | the two variants plan the same sector counts iff every size is a multiple of 512 |
| Legacy.NextStartMonotone | generator/generator.go:132 | a later end never gives an earlier next start |
| Legacy.LayoutMonotone | generator/generator.go:124-132 | smaller sector counts from an earlier start give extents that start and end no later |
| Legacy.FloorLayoutWithin | generator/generator.go:124-132 | every older partition starts and ends (End as a sector number) no later than the current variant's partition for the same layer |
| Legacy.FloorCutsLayer | generator/generator.go:125-126 | with `GetSize` read as (End − Start)·512, a layer whose size is not a multiple of 512 loses its last size mod 512 bytes in the older partition, and survives whole in the current one |
| Legacy.FloorInclusiveKeepsLayer | generator/generator.go:125-126 | with `GetSize` read as (End − Start + 1)·512 instead, the older partition is larger than the layer, and the truncated file keeps the whole layer |
| Legacy.LayerPathReadsBack | generator/generator.go:250-256 | layer k's path starts with `targetDir + "/"`, and what follows reads back as layer k's role and encoded digest |
| Legacy.DistinctPaths | generator/generator.go:250-256 | the paths are distinct iff no two blob layers share an encoded digest |
| Legacy.OutputIsNoLayer | generator/generator.go:165 | the output image path is no layer's path |
| Legacy.LayerPathsSnoc | generator/generator.go:250-256 | each iteration adds its layer's path |
| Legacy.DownloadImage | generator/generator.go:239-258 | the directory is emptied, then holds each layer's blob at its path |
| Legacy.WriteData | generator/generator.go:163-237 | disk size as in the current variant, then the older table, then every layer written into its partition. It succeeds when all names exist, the layers fit and all files are present; it fails only by a short digest, a rejected table or a missing layer file. On success the disk has the older plan: one partition per layer inside the disk, laid out from floor sector counts, partition k named by digest k's slice |
| Legacy.WriteTable | generator/generator.go:178-233 | over the zero-filled disk with the given table, partition k holds file k truncated to floor(size_k/512)·512 bytes (`GetSize` read as (End − Start)·512) |
| Legacy.FloorTableInside | generator/generator.go:168-187 | the older table ends inside the disk when the layers fit |
| Legacy.ConvertImage | generator/generator.go:276-283 | download then write; it succeeds when names exist and the layers fit, and fails only by a short digest or a rejected table. On success the disk size comes from the kept layers' total, there is one partition per classified layer inside the disk, laid out from floor sector counts and named by the digest slices; with distinct blobs partition k holds the blob cut or zero-padded to floor(size_k/512)·512 bytes |
| Legacy.Floored | generator/generator.go:199-233 | after the older write loop over distinct paths, partition k holds layer k's blob cut or zero-padded to floor(size_k/512)·512 bytes (`GetSize` read as (End − Start)·512) |
| Legacy.FlooredAt | generator/generator.go:209 | file k ends truncated to floor(size_k/512)·512 bytes |

## Left out

- Registry access (manifest parsing, `downloadBlob`, `downloadBlobByRef`, regclient): the network. The layer list is an input, and a blob's bytes are given by the parameter `fetch`.
- The download goroutines and their WaitGroup: concurrency. Downloads are modelled one after another in layer order, so when two layers share a path the later one's blob stays there.
- go-diskfs: a foreign library. The disk is a zero-filled byte array of the planned size. The GPT and protective MBR headers are not written to it.
- The partition table codec is reduced to one check, that every partition lies inside the disk. Limits of the GPT format, such as the number of partition entries, are not modelled.
- `GetSize`: the partition's byte size is taken as (End − Start)·512, reading End as exclusive. The library's own implementation is not part of this model. GPT's ending LBA is inclusive, and if go-diskfs reads it that way every partition is one sector longer. The older floor-sized partition then holds (floor(size/512) + 1)·512 bytes, more than the layer, and loses nothing (Legacy.FloorInclusiveKeepsLayer). Legacy.FloorCutsLayer then holds only for this model's reading. The current variant's partitions then carry one more zero sector.
- SHA-256 and hex encoding in validation: compared as byte equality, which is what equal digests stand for.
- `math.Ceil` and float64 in `roundUp` and the sector count: modelled as exact integer ceilings. Float64 is exact only below 2^53.
- int64 arithmetic: sizes and sectors are unbounded, so overflow and the uint64 conversions of Start and End are not modelled.
- `splitBlobid` and `truncateBlobid` are not part of this model. A partition records the encoded digest, and the table's GUID is not modelled.
- `generateTargetDir` (reference parsing): the older variant takes the target directory as a parameter.
- `prepareDir` and `os.RemoveAll`/`MkdirAll`: the work directory starts empty.
- Fatal exits from the environment are not modelled: `diskfs.Create` failing, `GetPartitionTable` failing, `ReadContents` failing in `validateData`, a failed download, `prepareDir` failing, and `os.Symlink` failing.
- `digest.Encoded()` panics on a digest string without `:`. A digest here is a well-formed pair of algorithm and encoded part, so that panic is not modelled.
- Legacy.PartitionName: the older `[7 : 32+7]` slice works on the bytes of the digest string, while the model slices characters. The two agree when the digest string is ASCII, as registry digests are.
- `os.Symlink`: only the link's path and target name are modelled, not the link itself.
- `filepath.Join`'s path cleaning: Join is the directory, a separator if it lacks one, then the name.
- Logging, timing, the byte-count mismatch messages, the CLI (`main.go`, `cmd/`) and the exported wrappers `ConvertImage`/`DownloadImage`.
- The older `validateData` is empty in the source, so the older pipeline has no validation step.
- The opened-but-never-closed file handles, and the older `writeData`'s reopening of the output file on each iteration.
- DiskTable.BuildDiskImage: acceptance is proved only up to 2052 planned partitions (min(layerNum, n)·511 ≤ 1 MiB). Beyond that, acceptance is not proved.
- Generator.ConvertImage: partition contents and a clean validation are stated only when no two blob layers share an encoded digest. With a shared path the file is truncated by both partitions, and only the plan is stated.
- Generator.Convert: success is proved, and partition contents are stated, only when no two blob layers share an encoded digest; with a shared path only the plan is stated, as above.
- Generator.ConvertImageWithTemps: part contents are stated only when blob digests are distinct, as above.
- Generator.ConvertWithTemps: part contents are stated only when blob digests are distinct, as above.
- Legacy.ConvertImage: the plan is stated on every success, but partition contents only when blob digests are distinct.

Points where the code's behaviour is easy to misread:

- The next start is `(end + 2048) / 2048 * 2048` with truncating division: the least multiple of 2048 strictly after the end, so the gap can be a single sector.
- The current `totalSize` includes the dropped layers; the older one does not.
- Without a gzip layer, index 0 is the first blob, and it gets the `bootstrap-` name.
- The incremental variant dereferences a nil disk when there are fewer than two layers. The model shows this as the `NilDisk` error.
