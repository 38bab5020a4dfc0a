/** The disk layout planner of the current generator: the overall disk size
    of `buildDiskImage` and the partition extents of `buildDiskTable`, in
    512-byte sectors. The GPT encoding itself belongs to the partition
    codec and is not modelled. */
module DiskTable {
  import opened Common
  import opened Align
  import opened Image

  /** A planned GPT partition, in sectors. `id` is the string the planner
      derives the partition's name from: in the current generator the encoded
      digest handed to `splitBlobid`, in the older one the partition name. */
  datatype Partition = Partition(start: int, end: int, id: string)

  datatype Extent = Extent(start: int, end: int)

  /** The size of the disk file and its partition table. */
  datatype DiskPlan = DiskPlan(diskSize: int, partitions: seq<Partition>)

  const FirstStart: int := 2048

  /** `(partitionEnd + 2048) / 2048 * 2048`; ends are never negative here,
      so Go's truncating division agrees with Dafny's. */
  function NextStart(end: int): (start: int)
    ensures start % 2048 == 0
    ensures end < start <= end + 2048
  {
    RoundDownTo2048(end + 2048);
    (end + 2048) / 2048 * 2048
  }

  lemma RoundDownTo2048(y: int)
    ensures y / 2048 * 2048 % 2048 == 0
    ensures y - 2048 < y / 2048 * 2048 <= y
  {
    MulMod(y / 2048, 2048);
  }

  /** `math.Ceil(float64(size) / 512)`: the sectors needed to hold size bytes. */
  function CeilSectors(size: nat): (r: nat)
    ensures (r - 1) * 512 < size <= r * 512
  {
    CeilDiv(size, 512)
  }

  function CeilSectorCounts(sizes: seq<nat>): (r: seq<nat>)
    ensures |r| == |sizes| && forall k :: 0 <= k < |sizes| ==> r[k] == CeilSectors(sizes[k])
  {
    seq(|sizes|, k requires 0 <= k < |sizes| => CeilSectors(sizes[k]))
  }

  /** How many leading layers a loop with `if k >= layerNum { break }` visits. */
  function Count(layerNum: int, n: nat): (m: nat)
    ensures m <= n && (m == 0 || m <= layerNum)
    ensures m == n || m >= layerNum
  {
    if layerNum <= 0 then 0 else if layerNum < n then layerNum else n
  }

  /** The extents the planner lays out for the given sector counts, the first
      one starting at `start`, each next one at the next 2048-sector boundary
      after the previous end. */
  function Layout(sectors: seq<nat>, start: int): (r: seq<Extent>)
    ensures |r| == |sectors|
  {
    if sectors == [] then []
    else [Extent(start, start + sectors[0])] + Layout(sectors[1..], NextStart(start + sectors[0]))
  }

  function Extents(parts: seq<Partition>): (r: seq<Extent>)
    ensures |r| == |parts|
    ensures forall k :: 0 <= k < |parts| ==> r[k] == Extent(parts[k].start, parts[k].end)
  {
    seq(|parts|, k requires 0 <= k < |parts| => Extent(parts[k].start, parts[k].end))
  }

  /** `buildDiskTable`: partition k covers ceil(layerSize[k] / 512) sectors,
      for the first min(layerNum, len(layerSize)) layers only. */
  method BuildDiskTable(image: ImageInfo, layerNum: int) returns (partitions: seq<Partition>)
    requires Count(layerNum, |image.layerSize|) <= |image.layerDigest|
    ensures |partitions| == Count(layerNum, |image.layerSize|)
    ensures Extents(partitions)
         == Layout(CeilSectorCounts(image.layerSize[..Count(layerNum, |image.layerSize|)]), FirstStart)
    ensures forall k :: 0 <= k < |partitions| ==> partitions[k].id == image.layerDigest[k].encoded
  {
    var m := Count(layerNum, |image.layerSize|);
    ghost var sectors := CeilSectorCounts(image.layerSize[..m]);
    var partitionStart := FirstStart;
    partitions := [];
    var k := 0;
    while k < |image.layerSize|
      invariant 0 <= k <= m
      invariant |partitions| == k
      invariant Layout(sectors, FirstStart) == Extents(partitions) + Layout(sectors[k..], partitionStart)
      invariant forall j :: 0 <= j < k ==> partitions[j].id == image.layerDigest[j].encoded
    {
      if k >= layerNum {
        break;
      }
      var size := image.layerSize[k];
      var partitionSectors := CeilSectors(size);
      var partitionEnd := partitionSectors + partitionStart;
      var part := Partition(partitionStart, partitionEnd, image.layerDigest[k].encoded);
      LayoutStep(Layout(sectors, FirstStart), sectors, k, partitions, part);
      partitions := partitions + [part];
      partitionStart := NextStart(partitionEnd);
      k := k + 1;
    }
    assert sectors[k..] == [];
  }

  /** One more partition of the planner's loop: it takes the next extent of
      the layout, and the rest of the layout starts after it. */
  lemma LayoutStep(all: seq<Extent>, sectors: seq<nat>, k: nat, partitions: seq<Partition>, part: Partition)
    requires k < |sectors|
    requires all == Extents(partitions) + Layout(sectors[k..], part.start)
    requires part.end == part.start + sectors[k]
    ensures all == Extents(partitions + [part]) + Layout(sectors[k + 1..], NextStart(part.end))
  {
    var e := Extent(part.start, part.end);
    var tail := Layout(sectors[k + 1..], NextStart(part.end));
    LayoutFront(sectors, k, part.start);
    ExtentsSnoc(partitions, part);
    ConcatStep(all, Extents(partitions), Layout(sectors[k..], part.start),
               e, tail, Extents(partitions + [part]));
  }

  /** The layout from extent k on: extent k, then the layout of the rest
      from the next boundary. */
  lemma LayoutFront(sectors: seq<nat>, k: nat, start: int)
    requires k < |sectors|
    ensures Layout(sectors[k..], start)
         == [Extent(start, start + sectors[k])] + Layout(sectors[k + 1..], NextStart(start + sectors[k]))
  {
    assert sectors[k..][0] == sectors[k] && sectors[k..][1..] == sectors[k + 1..];
  }

  lemma ExtentsSnoc(partitions: seq<Partition>, part: Partition)
    ensures Extents(partitions + [part]) == Extents(partitions) + [Extent(part.start, part.end)]
  {
  }

  lemma ConcatStep<T>(all: seq<T>, done: seq<T>, rest: seq<T>, e: T, tail: seq<T>, done': seq<T>)
    requires all == done + rest && rest == [e] + tail && done' == done + [e]
    ensures all == done' + tail
  {
  }

  // ----- properties of the layout -----

  /** Each later start is the least multiple of 2048 strictly above the end. */
  lemma NextStartIsLeast(end: int, m: int)
    ensures m % 2048 == 0 && end < m ==> NextStart(end) <= m
  {
    var q, r := (end + 2048) / 2048, (end + 2048) % 2048;
    assert end + 2048 == 2048 * q + r;
    MulMod(q, 2048);
    if m % 2048 == 0 && end < m {
      var t := m / 2048;
      assert m == 2048 * t;
      assert 2048 * (t - q) > r - 2048;
      MulSign(2048, t - q + 1);
    }
  }

  /** The shape of extent k: its length, where it starts, and how the next
      one follows it. */
  lemma {:induction false} LayoutAt(s: seq<nat>, start: int, k: nat)
    requires k < |s|
    ensures Layout(s, start)[k].end - Layout(s, start)[k].start == s[k]
    ensures k == 0 ==> Layout(s, start)[k].start == start
    ensures k + 1 < |s| ==> Layout(s, start)[k + 1].start == NextStart(Layout(s, start)[k].end)
    ensures start <= Layout(s, start)[k].start
    ensures start % 2048 == 0 ==> Layout(s, start)[k].start % 2048 == 0
    decreases |s|
  {
    var next := NextStart(start + s[0]);
    if k > 0 {
      LayoutAt(s[1..], next, k - 1);
    } else if |s| > 1 {
      LayoutAt(s[1..], next, 0);
    }
  }

  /** Extents are strictly ascending and pairwise disjoint. */
  lemma {:induction false} LayoutOrdered(s: seq<nat>, start: int, i: nat, j: nat)
    requires i < j < |s|
    ensures Layout(s, start)[i].end < Layout(s, start)[j].start
    decreases j - i
  {
    var l := Layout(s, start);
    LayoutAt(s, start, j - 1);
    if i < j - 1 {
      LayoutOrdered(s, start, i, j - 1);
      LayoutAt(s, start, j - 1);
    }
  }

  /** Planning fewer layers plans a prefix of the same table. */
  lemma {:induction false} LayoutPrefix(s: seq<nat>, start: int, m: nat)
    requires m <= |s|
    ensures Layout(s[..m], start) == Layout(s, start)[..m]
    decreases m
  {
    if m > 0 {
      assert s[..m][0] == s[0];
      assert s[..m][1..] == s[1..][..m - 1];
      LayoutPrefix(s[1..], NextStart(start + s[0]), m - 1);
    }
  }

  /** The table `buildDiskTable` plans: partition k has ceil(size/512)
      sectors, the first starts at sector 2048, every start is a multiple of
      2048, each next start is the least such multiple after the previous
      end, and partitions are strictly ascending. */
  lemma TableShape(sizes: seq<nat>, m: nat, k: nat)
    requires k < m <= |sizes|
    ensures var l := Layout(CeilSectorCounts(sizes[..m]), FirstStart);
            && l[k].end - l[k].start == CeilSectors(sizes[k])
            && (k == 0 ==> l[k].start == 2048)
            && l[k].start % 2048 == 0
            && l[k].start < l[k].end + 1
            && (k + 1 < m ==> l[k].end < l[k + 1].start
                              && l[k + 1].start == NextStart(l[k].end))
  {
    var s := CeilSectorCounts(sizes[..m]);
    LayoutAt(s, FirstStart, k);
    if k + 1 < m {
      LayoutOrdered(s, FirstStart, k, k + 1);
    }
  }

  /** The table built for layerNum i is a prefix of the one built for any
      larger layerNum j: partition k does not depend on how many follow. */
  lemma TablePrefix(sizes: seq<nat>, i: int, j: int)
    requires i <= j
    ensures var s := CeilSectorCounts(sizes);
            Layout(CeilSectorCounts(sizes[..Count(i, |sizes|)]), FirstStart)
            == Layout(CeilSectorCounts(sizes[..Count(j, |sizes|)]), FirstStart)[..Count(i, |sizes|)]
  {
    var mi, mj := Count(i, |sizes|), Count(j, |sizes|);
    var s := CeilSectorCounts(sizes[..mj]);
    assert CeilSectorCounts(sizes[..mi]) == s[..mi];
    LayoutPrefix(s, FirstStart, mi);
  }

  // ----- the disk size -----

  /** The disk-size computation of `buildDiskImage`: the input size rounded
      to a multiple of 512 twice, by ceiling and by bit mask, with the
      internal-error exit when the two disagree. */
  function DiskSize(totalSize: int, layerCount: nat): (r: Result<int>)
    ensures r.Ok?
    ensures r.value % 512 == 0
    ensures totalSize + (layerCount + 1) * MiB <= r.value < totalSize + (layerCount + 1) * MiB + 512
  {
    var inputSize := totalSize + (layerCount + 1) * 1024 * 1024;
    var diskSize := RoundUp(inputSize, 512);
    var diskSize2 := AlignUp(inputSize, 512);
    AlignUp512(inputSize);
    if diskSize != diskSize2 then Err(InternalSizeMismatch(diskSize, diskSize2)) else Ok(diskSize)
  }

  /** Every partition lies inside the disk, and each ends before the next
      begins. */
  predicate Placed(parts: seq<Partition>, diskSize: int) {
    && (forall k :: 0 <= k < |parts| ==> 0 <= parts[k].start <= parts[k].end && parts[k].end * 512 <= diskSize)
    && (forall i, j :: 0 <= i < j < |parts| ==> parts[i].end <= parts[j].start)
  }

  /** The codec's acceptance of a table, as far as it is modelled: every
      partition inside the disk. */
  predicate InsideDisk(parts: seq<Partition>, diskSize: int) {
    forall k :: 0 <= k < |parts| ==> 0 <= parts[k].start <= parts[k].end && parts[k].end * 512 <= diskSize
  }

  /** `buildDiskImage`: the disk size (computed from all layers, whatever
      layerNum is) and the table for the first layerNum layers. */
  method BuildDiskImage(image: ImageInfo, layerNum: int) returns (r: Result<DiskPlan>)
    requires Count(layerNum, |image.layerSize|) <= |image.layerDigest|
    ensures WellFormed(image) && Count(layerNum, |image.layerSize|) * 511 <= MiB ==> r.Ok?
    ensures r.Err? ==> r.error == TableRejected
    ensures r.Ok? ==> r.value.diskSize == DiskSize(image.totalSize, |image.layerSize|).value
    ensures r.Ok? ==> Placed(r.value.partitions, r.value.diskSize)
    ensures r.Ok? ==> |r.value.partitions| == Count(layerNum, |image.layerSize|)
    ensures r.Ok? ==>
              Extents(r.value.partitions)
              == Layout(CeilSectorCounts(image.layerSize[..Count(layerNum, |image.layerSize|)]), FirstStart)
    ensures r.Ok? ==> forall k :: 0 <= k < |r.value.partitions| ==>
              r.value.partitions[k].id == image.layerDigest[k].encoded
  {
    // DiskSize never takes its internal-error exit
    var diskSize := DiskSize(image.totalSize, |image.layerSize|).value;
    var table := BuildDiskTable(image, layerNum);
    var m := |table|;
    if WellFormed(image) && m * 511 <= MiB && m > 0 {
      TableInside(table, image.layerSize, m, image.totalSize, diskSize);
    }
    if !InsideDisk(table, diskSize) {
      return Err(TableRejected);
    }
    TableDisjoint(table, CeilSectorCounts(image.layerSize[..m]));
    r := Ok(DiskPlan(diskSize, table));
  }

  /** Planned partitions are pairwise disjoint and in ascending order. */
  lemma TableDisjoint(parts: seq<Partition>, s: seq<nat>)
    requires Extents(parts) == Layout(s, FirstStart)
    ensures forall i, j :: 0 <= i < j < |parts| ==> parts[i].end <= parts[j].start
  {
    forall i, j | 0 <= i < j < |parts|
      ensures parts[i].end <= parts[j].start
    {
      assert Extents(parts)[i] == Extent(parts[i].start, parts[i].end);
      assert Extents(parts)[j] == Extent(parts[j].start, parts[j].end);
      LayoutOrdered(s, FirstStart, i, j);
    }
  }

  /** With at most 2052 partitions the planned table lies inside the disk. */
  lemma TableInside(parts: seq<Partition>, sizes: seq<nat>, m: nat, totalSize: int, diskSize: int)
    requires 0 < m <= |sizes| && |parts| == m && totalSize >= Sum(sizes) && m * 511 <= MiB
    requires diskSize == DiskSize(totalSize, |sizes|).value
    requires Extents(parts) == Layout(CeilSectorCounts(sizes[..m]), FirstStart)
    ensures InsideDisk(parts, diskSize)
  {
    var s := CeilSectorCounts(sizes[..m]);
    TableFits(sizes, m, totalSize, |sizes|, diskSize);
    LayoutAt(s, FirstStart, m - 1);
    forall k | 0 <= k < m
      ensures 0 <= parts[k].start <= parts[k].end && parts[k].end * 512 <= diskSize
    {
      assert Extents(parts)[k] == Extent(parts[k].start, parts[k].end);
      LayoutAt(s, FirstStart, k);
      if k < m - 1 { LayoutOrdered(s, FirstStart, k, m - 1); }
    }
  }

  // ----- the table fits the disk -----

  lemma {:induction false} CeilSectorsBytes(x: seq<nat>)
    ensures Sum(CeilSectorCounts(x)) * 512 <= Sum(x) + 511 * |x|
    decreases |x|
  {
    if x != [] {
      var p := x[..|x| - 1];
      CeilSectorsBytes(p);
      assert CeilSectorCounts(x)[..|x| - 1] == CeilSectorCounts(p);
    }
  }

  lemma {:induction false} SumPrefix(x: seq<nat>, m: nat)
    requires m <= |x|
    ensures Sum(x[..m]) <= Sum(x)
    decreases |x|
  {
    if m < |x| {
      assert x[..|x| - 1][..m] == x[..m];
      SumPrefix(x[..|x| - 1], m);
    } else {
      assert x[..m] == x;
    }
  }

  /** The last extent ends at most one alignment gap per extent after the
      sectors it holds. */
  lemma {:induction false} LayoutEnd(s: seq<nat>, start: int)
    requires s != []
    ensures Layout(s, start)[|s| - 1].end <= start + Sum(s) + 2048 * (|s| - 1)
    decreases |s|
  {
    var next := NextStart(start + s[0]);
    if |s| > 1 {
      LayoutEnd(s[1..], next);
      SumFront(s);
    } else {
      assert s[..0] == [];
    }
  }

  lemma {:induction false} SumFront(s: seq<nat>)
    requires s != []
    ensures Sum(s) == s[0] + Sum(s[1..])
    decreases |s|
  {
    if |s| > 1 {
      SumFront(s[..|s| - 1]);
      assert s[..|s| - 1][1..] == s[1..][..|s| - 2];
    } else {
      assert s[..0] == [] && s[1..] == [];
    }
  }

  /** For up to 2052 planned partitions the table ends inside the disk:
      each partition wastes under 511 bytes of rounding and under one MiB of
      alignment, and the disk reserves one MiB per layer plus one. */
  lemma TableFits(sizes: seq<nat>, m: nat, totalSize: int, layerCount: nat, diskSize: int)
    requires 0 < m <= |sizes| <= layerCount
    requires totalSize >= Sum(sizes) && m * 511 <= MiB
    requires diskSize == DiskSize(totalSize, layerCount).value
    ensures Layout(CeilSectorCounts(sizes[..m]), FirstStart)[m - 1].end * 512 <= diskSize
  {
    var s := CeilSectorCounts(sizes[..m]);
    var e := Layout(s, FirstStart)[m - 1].end;
    LayoutEnd(s, FirstStart);
    CeilSectorsBytes(sizes[..m]);
    SumPrefix(sizes, m);
    assert 2048 + 2048 * (m - 1) == 2048 * m;
    assert e <= Sum(s) + 2048 * m;
    MulLe(e, Sum(s) + 2048 * m, 512);
    var sum := Sum(s);
    assert (sum + 2048 * m) * 512 == sum * 512 + (2048 * m) * 512;
    assert (2048 * m) * 512 == MiB * m;
    assert Sum(s) * 512 <= totalSize + 511 * m;
    assert e * 512 <= totalSize + 511 * m + MiB * m;
    MulLe(m + 1, layerCount + 1, MiB);
    assert (m + 1) * MiB == MiB * m + MiB;
  }

  lemma MulLe(a: int, b: int, c: nat)
    requires a <= b
    ensures a * c <= b * c
  {
    assert b * c - a * c == (b - a) * c;
  }
}
