/** Writing fetched layer files into their partitions and reading them back
    for validation. The disk file is a byte array; the local directory of
    fetched files is a map from path to contents. A partition occupies the
    bytes [start * 512, end * 512) of the disk. */
module DiskData {
  import opened Common
  import opened DiskTable

  function Offset(p: Partition): int {
    p.start * 512
  }

  /** The byte size of a partition (zero for an inverted extent, which the
      planner never produces). */
  function Length(p: Partition): nat {
    if p.start <= p.end then (p.end - p.start) * 512 else 0
  }

  /** `os.Truncate(name, n)`: the file cut to n bytes, or extended with
      zero bytes up to n. */
  function Fit(data: seq<byte>, n: nat): (r: seq<byte>)
    ensures |r| == n
    ensures forall i :: 0 <= i < n ==> r[i] == if i < |data| then data[i] else 0
  {
    if |data| >= n then data[..n] else data + Zeros(n - |data|)
  }

  /** Truncating a file twice to the same size is truncating it once. */
  lemma FitIdempotent(data: seq<byte>, n: nat)
    ensures Fit(Fit(data, n), n) == Fit(data, n)
  {
  }

  /** A file no longer than n keeps all its bytes, followed by zeros. */
  lemma FitExtends(data: seq<byte>, n: nat)
    requires |data| <= n
    ensures Fit(data, n) == data + Zeros(n - |data|)
  {
  }

  /** A file longer than n loses its bytes from n on. */
  lemma FitCuts(data: seq<byte>, n: nat)
    requires n < |data|
    ensures Fit(data, n) == data[..n] && Fit(data, n) != data
  {
  }

  /** The bytes of partition p on disk d. */
  function PartitionBytes(d: seq<byte>, p: Partition): (r: seq<byte>)
    requires 0 <= p.start <= p.end && p.end * 512 <= |d|
    ensures |r| == Length(p)
  {
    d[Offset(p)..Offset(p) + Length(p)]
  }

  /** The files after the first k truncations of the write loop: file
      paths[j] cut or zero-extended to the size of partition j, in order. */
  function Truncated(files: map<string, seq<byte>>, paths: seq<string>, parts: seq<Partition>, k: nat)
    : (fs: map<string, seq<byte>>)
    requires k <= |paths| && k <= |parts|
    ensures forall p :: p in fs <==> p in files
  {
    if k == 0 then files
    else
      var prev := Truncated(files, paths, parts, k - 1);
      if paths[k - 1] in prev then prev[paths[k - 1] := Fit(prev[paths[k - 1]], Length(parts[k - 1]))]
      else prev
  }

  /** The per-layer loop of `writeData`: for k < count, truncate file k to
      the size of partition k and copy it into partition k. A missing file
      ends the run at that index (the source's fatal exit); the partitions
      written before it stay written. */
  method WriteParts(disk: array<byte>, parts: seq<Partition>, paths: seq<string>, count: nat,
                    files: map<string, seq<byte>>)
    returns (r: Result<map<string, seq<byte>>>, written: nat)
    requires count <= |parts| && count <= |paths|
    requires Placed(parts, disk.Length)
    modifies disk
    ensures written <= count
    ensures forall k :: 0 <= k < written ==> paths[k] in files
    ensures r.Ok? <==> written == count
    ensures r.Err? ==> paths[written] !in files && r.error == MissingFile(paths[written])
    ensures r.Ok? ==> r.value == Truncated(files, paths, parts, count)
    ensures forall k :: 0 <= k < written ==>
              PartitionBytes(disk[..], parts[k]) == Truncated(files, paths, parts, k + 1)[paths[k]]
    ensures forall i :: 0 <= i < disk.Length && Untouched(i, parts, written) ==> disk[i] == old(disk[i])
  {
    var fs := files;
    ghost var contents: seq<seq<byte>> := [];
    written := 0;
    while written < count
      invariant written <= count && |contents| == written
      invariant fs == Truncated(files, paths, parts, written)
      invariant Recorded(files, paths, parts, contents)
      invariant Stored(disk[..], parts, contents)
      invariant forall i :: 0 <= i < disk.Length && Untouched(i, parts, written) ==> disk[i] == old(disk[i])
    {
      var path, part := paths[written], parts[written];
      if path !in fs {
        Conclude(disk[..], files, paths, parts, contents);
        return Err(MissingFile(path)), written;
      }
      var data := Fit(fs[path], Length(part));
      RecordStep(files, paths, parts, contents);
      fs := fs[path := data];
      ghost var before := disk[..];
      WriteContents(disk, part, data);
      StoreStep(before, disk[..], parts, contents, data);
      forall i | 0 <= i < disk.Length && Untouched(i, parts, written + 1)
        ensures disk[i] == old(disk[i])
      {
        assert !InPartition(i, parts[written]);
        assert Untouched(i, parts, written);
      }
      contents := contents + [data];
      written := written + 1;
    }
    Conclude(disk[..], files, paths, parts, contents);
    r := Ok(fs);
  }

  /** The first |contents| files, as truncated by the write loop, are contents. */
  ghost predicate Recorded(files: map<string, seq<byte>>, paths: seq<string>, parts: seq<Partition>,
                           contents: seq<seq<byte>>)
  {
    && |contents| <= |paths| && |contents| <= |parts|
    && forall k :: 0 <= k < |contents| ==>
         paths[k] in files && contents[k] == Truncated(files, paths, parts, k + 1)[paths[k]]
  }

  /** The first |contents| partitions of disk d hold contents. */
  ghost predicate Stored(d: seq<byte>, parts: seq<Partition>, contents: seq<seq<byte>>)
  {
    && |contents| <= |parts|
    && forall k :: 0 <= k < |contents| ==>
         0 <= parts[k].start <= parts[k].end && parts[k].end * 512 <= |d|
         && PartitionBytes(d, parts[k]) == contents[k]
  }

  lemma RecordStep(files: map<string, seq<byte>>, paths: seq<string>, parts: seq<Partition>,
                   contents: seq<seq<byte>>)
    requires Recorded(files, paths, parts, contents)
    requires |contents| < |paths| && |contents| < |parts|
    requires paths[|contents|] in files
    ensures var n := |contents|;
            var fs := Truncated(files, paths, parts, n);
            var data := Fit(fs[paths[n]], Length(parts[n]));
            && Truncated(files, paths, parts, n + 1) == fs[paths[n] := data]
            && Recorded(files, paths, parts, contents + [data])
  {
    var n := |contents|;
    var fs := Truncated(files, paths, parts, n);
    var data := Fit(fs[paths[n]], Length(parts[n]));
    var c := contents + [data];
    forall k | 0 <= k < |c|
      ensures paths[k] in files && c[k] == Truncated(files, paths, parts, k + 1)[paths[k]]
    {
      if k < n {
        assert c[k] == contents[k];
      }
    }
  }

  lemma StoreStep(before: seq<byte>, after: seq<byte>, parts: seq<Partition>,
                  contents: seq<seq<byte>>, data: seq<byte>)
    requires |before| == |after| && Placed(parts, |before|)
    requires Stored(before, parts, contents) && |contents| < |parts|
    requires PartitionBytes(after, parts[|contents|]) == data
    requires forall i :: 0 <= i < |before| && !InPartition(i, parts[|contents|]) ==> after[i] == before[i]
    ensures Stored(after, parts, contents + [data])
  {
    var n := |contents|;
    var c := contents + [data];
    forall k | 0 <= k < |c|
      ensures 0 <= parts[k].start <= parts[k].end && parts[k].end * 512 <= |after|
      ensures PartitionBytes(after, parts[k]) == c[k]
    {
      if k < n {
        assert c[k] == contents[k];
        DisjointUnchanged(before, after, parts[k], parts[n]);
      }
    }
  }

  lemma Conclude(d: seq<byte>, files: map<string, seq<byte>>, paths: seq<string>, parts: seq<Partition>,
                 contents: seq<seq<byte>>)
    requires Recorded(files, paths, parts, contents) && Stored(d, parts, contents)
    ensures forall k :: 0 <= k < |contents| ==> paths[k] in files
    ensures forall k :: 0 <= k < |contents| ==>
              PartitionBytes(d, parts[k]) == Truncated(files, paths, parts, k + 1)[paths[k]]
  {
  }

  /** `part.WriteContents`: the bytes of data copied into partition p. */
  method WriteContents(disk: array<byte>, p: Partition, data: seq<byte>)
    requires 0 <= p.start <= p.end && p.end * 512 <= disk.Length && |data| == Length(p)
    modifies disk
    ensures PartitionBytes(disk[..], p) == data
    ensures forall i :: 0 <= i < disk.Length && !InPartition(i, p) ==> disk[i] == old(disk[i])
  {
    var offset := Offset(p);
    forall i | 0 <= i < |data| {
      disk[offset + i] := data[i];
    }
  }

  /** Changing only bytes of q leaves a partition disjoint from q as it was. */
  lemma DisjointUnchanged(before: seq<byte>, after: seq<byte>, p: Partition, q: Partition)
    requires |before| == |after|
    requires 0 <= p.start <= p.end && p.end * 512 <= |before|
    requires p.end <= q.start || q.end <= p.start
    requires forall i :: 0 <= i < |before| && !InPartition(i, q) ==> after[i] == before[i]
    ensures PartitionBytes(after, p) == PartitionBytes(before, p)
  {
  }

  /** Byte i lies in none of the first n partitions. */
  predicate Untouched(i: int, parts: seq<Partition>, n: nat)
    requires n <= |parts|
  {
    forall k :: 0 <= k < n ==> !InPartition(i, parts[k])
  }

  predicate InPartition(i: int, p: Partition) {
    Offset(p) <= i < Offset(p) + Length(p)
  }

  // ----- validation -----

  /** The indexes k < m whose partition bytes differ from the file
      paths[k], in ascending order. */
  function CorruptedPartitions(d: seq<byte>, parts: seq<Partition>, paths: seq<string>,
                     files: map<string, seq<byte>>, m: nat): (bad: seq<nat>)
    requires m <= |parts| && m <= |paths| && Placed(parts, |d|)
    requires forall k :: 0 <= k < m ==> paths[k] in files
  {
    if m == 0 then []
    else CorruptedPartitions(d, parts, paths, files, m - 1)
         + (if PartitionBytes(d, parts[m - 1]) != files[paths[m - 1]] then [m - 1] else [])
  }

  /** An index is reported exactly when its partition differs from its
      file. */
  lemma {:induction false} CorruptedExactly(d: seq<byte>, parts: seq<Partition>, paths: seq<string>,
                                            files: map<string, seq<byte>>, m: nat)
    requires m <= |parts| && m <= |paths| && Placed(parts, |d|)
    requires forall k :: 0 <= k < m ==> paths[k] in files
    ensures forall k: nat :: k in CorruptedPartitions(d, parts, paths, files, m) <==>
              k < m && PartitionBytes(d, parts[k]) != files[paths[k]]
  {
    if m > 0 {
      CorruptedExactly(d, parts, paths, files, m - 1);
      var prev := CorruptedPartitions(d, parts, paths, files, m - 1);
      var bad := CorruptedPartitions(d, parts, paths, files, m);
      assert bad == prev + (if PartitionBytes(d, parts[m - 1]) != files[paths[m - 1]] then [m - 1] else []);
      forall k: nat
        ensures k in bad <==> k < m && PartitionBytes(d, parts[k]) != files[paths[k]]
      {
        if k == m - 1 {
          assert k !in prev;
        }
      }
    }
  }

  /** The report is strictly ascending and holds at most m indexes, each
      below m. */
  lemma {:induction false} CorruptedAscending(d: seq<byte>, parts: seq<Partition>, paths: seq<string>,
                                              files: map<string, seq<byte>>, m: nat)
    requires m <= |parts| && m <= |paths| && Placed(parts, |d|)
    requires forall k :: 0 <= k < m ==> paths[k] in files
    ensures var bad := CorruptedPartitions(d, parts, paths, files, m);
            && |bad| <= m
            && (forall i :: 0 <= i < |bad| ==> bad[i] < m)
            && (forall i, j :: 0 <= i < j < |bad| ==> bad[i] < bad[j])
  {
    if m > 0 {
      CorruptedAscending(d, parts, paths, files, m - 1);
    }
  }

  /** `validateData`'s per-partition loop: for the first min(layerNum,
      len(parts)) partitions, compare the partition with the file it was
      written from, count the mismatches, and fail when there are any. A
      missing file ends the run. */
  method ValidateData(disk: seq<byte>, parts: seq<Partition>, layerNum: int,
                      downloadedBlobs: seq<string>, files: map<string, seq<byte>>)
    returns (r: Result<()>)
    requires Placed(parts, |disk|)
    requires Count(layerNum, |parts|) <= |downloadedBlobs|
    ensures (exists k :: 0 <= k < Count(layerNum, |parts|) && downloadedBlobs[k] !in files)
            ==> r.Err? && r.error.MissingFile? && r.error.path !in files
    ensures (forall k :: 0 <= k < Count(layerNum, |parts|) ==> downloadedBlobs[k] in files)
            ==> var bad := CorruptedPartitions(disk, parts, downloadedBlobs, files, Count(layerNum, |parts|));
                r == if bad == [] then Ok(()) else Err(Common.Corrupted(|bad|, bad))
  {
    var m := Count(layerNum, |parts|);
    var errorCount := 0;
    var bad: seq<nat> := [];
    var index := 0;
    while index < |parts|
      invariant index <= m
      invariant forall k :: 0 <= k < index ==> downloadedBlobs[k] in files
      invariant bad == CorruptedPartitions(disk, parts, downloadedBlobs, files, index)
      invariant errorCount == |bad|
    {
      if index >= layerNum {
        break;
      }
      var target := disk[Offset(parts[index])..Offset(parts[index]) + Length(parts[index])];
      var path := downloadedBlobs[index];
      if path !in files {
        return Err(MissingFile(path));
      }
      var source := files[path];
      assert target == PartitionBytes(disk, parts[index]);
      if target != source {
        errorCount := errorCount + 1;
        bad := bad + [index];
      }
      index := index + 1;
    }
    if errorCount > 0 {
      return Err(Common.Corrupted(errorCount, bad));
    }
    r := Ok(());
  }

  /** A disk whose partitions hold exactly their files validates clean. */
  lemma {:induction false} CleanDiskValidates(d: seq<byte>, parts: seq<Partition>, paths: seq<string>,
                                              files: map<string, seq<byte>>, m: nat)
    requires m <= |parts| && m <= |paths| && Placed(parts, |d|)
    requires forall k :: 0 <= k < m ==> paths[k] in files && PartitionBytes(d, parts[k]) == files[paths[k]]
    ensures CorruptedPartitions(d, parts, paths, files, m) == []
  {
    if m > 0 {
      CleanDiskValidates(d, parts, paths, files, m - 1);
    }
  }

  /** Flipping one byte inside partition j of a clean disk makes validation
      report exactly partition j. */
  lemma OneFlippedByte(d: seq<byte>, parts: seq<Partition>, paths: seq<string>,
                                          files: map<string, seq<byte>>, m: nat, j: nat, pos: nat, b: byte)
    requires m <= |parts| && m <= |paths| && Placed(parts, |d|)
    requires forall k :: 0 <= k < m ==> paths[k] in files && PartitionBytes(d, parts[k]) == files[paths[k]]
    requires j < |parts| && InPartition(pos, parts[j]) && d[pos] != b
    ensures CorruptedPartitions(d[pos := b], parts, paths, files, m) == if j < m then [j] else []
  {
    var d' := d[pos := b];
    assert |d'| == |d|;
    forall k | 0 <= k < m
      ensures PartitionBytes(d', parts[k]) != files[paths[k]] <==> k == j
    {
      if k == j {
        FlipInside(d, parts[k], pos, b);
      } else {
        OutsideOthers(parts, |d|, j, k, pos);
        FlipOutside(d, parts[k], pos, b);
      }
    }
    CorruptedOnly(d', parts, paths, files, m, j);
  }

  /** When exactly partition j mismatches, validation reports j alone, if
      it is checked at all. */
  lemma {:induction false} CorruptedOnly(d: seq<byte>, parts: seq<Partition>, paths: seq<string>,
                                         files: map<string, seq<byte>>, m: nat, j: nat)
    requires m <= |parts| && m <= |paths| && Placed(parts, |d|)
    requires forall k :: 0 <= k < m ==> paths[k] in files
    requires forall k :: 0 <= k < m ==> (PartitionBytes(d, parts[k]) != files[paths[k]] <==> k == j)
    ensures CorruptedPartitions(d, parts, paths, files, m) == if j < m then [j] else []
  {
    if m > 0 {
      CorruptedOnly(d, parts, paths, files, m - 1, j);
    }
  }

  /** A byte inside one partition of a placed table lies in no other. */
  lemma OutsideOthers(parts: seq<Partition>, size: int, j: nat, k: nat, pos: int)
    requires Placed(parts, size) && j < |parts| && k < |parts| && j != k
    requires InPartition(pos, parts[j])
    ensures !InPartition(pos, parts[k])
  {
    if k < j {
      assert parts[k].end <= parts[j].start;
    } else {
      assert parts[j].end <= parts[k].start;
    }
  }

  /** Changing a byte of partition p changes the partition's bytes. */
  lemma FlipInside(d: seq<byte>, p: Partition, pos: nat, b: byte)
    requires 0 <= p.start <= p.end && p.end * 512 <= |d|
    requires InPartition(pos, p) && d[pos] != b
    ensures PartitionBytes(d[pos := b], p) != PartitionBytes(d, p)
  {
    assert PartitionBytes(d[pos := b], p)[pos - Offset(p)] == b;
    assert PartitionBytes(d, p)[pos - Offset(p)] == d[pos];
  }

  /** Changing a byte outside partition p leaves the partition's bytes. */
  lemma FlipOutside(d: seq<byte>, p: Partition, pos: nat, b: byte)
    requires 0 <= p.start <= p.end && p.end * 512 <= |d| && pos < |d|
    requires !InPartition(pos, p)
    ensures PartitionBytes(d[pos := b], p) == PartitionBytes(d, p)
  {
    var lo, hi := Offset(p), Offset(p) + Length(p);
    assert d[pos := b][lo..hi] == d[lo..hi];
  }

  // ----- truncation over distinct paths -----

  /** A file none of the first m steps names keeps its contents. */
  lemma {:induction false} TruncatedOther(files: map<string, seq<byte>>, paths: seq<string>,
                                          parts: seq<Partition>, m: nat, p: string)
    requires m <= |paths| && m <= |parts| && p in files
    requires forall j :: 0 <= j < m ==> paths[j] != p
    ensures Truncated(files, paths, parts, m)[p] == files[p]
  {
    if m > 0 {
      TruncatedOther(files, paths, parts, m - 1, p);
    }
  }

  /** A file that only step k names ends as its original contents cut or
      zero-extended to the size of partition k. */
  lemma {:induction false} TruncatedAt(files: map<string, seq<byte>>, paths: seq<string>,
                                       parts: seq<Partition>, m: nat, k: nat)
    requires k < m <= |paths| && m <= |parts| && paths[k] in files
    requires forall j :: 0 <= j < m && j != k ==> paths[j] != paths[k]
    ensures Truncated(files, paths, parts, m)[paths[k]] == Fit(files[paths[k]], Length(parts[k]))
  {
    if m == k + 1 {
      TruncatedOther(files, paths, parts, k, paths[k]);
    } else {
      TruncatedAt(files, paths, parts, m - 1, k);
    }
  }

  /** Over distinct paths, file k keeps what step k made of it. */
  lemma TruncatedOnce(files: map<string, seq<byte>>, paths: seq<string>, parts: seq<Partition>, m: nat, k: nat)
    requires k < m <= |paths| && m <= |parts| && paths[k] in files
    requires forall i, j :: 0 <= i < j < m ==> paths[i] != paths[j]
    ensures Truncated(files, paths, parts, m)[paths[k]] == Truncated(files, paths, parts, k + 1)[paths[k]]
  {
    forall j | 0 <= j < m && j != k
      ensures paths[j] != paths[k]
    {
      if j < k { assert paths[j] != paths[k]; } else { assert paths[k] != paths[j]; }
    }
    TruncatedAt(files, paths, parts, m, k);
    TruncatedAt(files, paths, parts, k + 1, k);
  }

  /** Write, then validate: when the m files are distinct, every partition
      the write loop filled matches the file it was filled from, so the
      validation loop reports nothing. */
  lemma WrittenDiskValidates(d: seq<byte>, files: map<string, seq<byte>>, paths: seq<string>,
                             parts: seq<Partition>, m: nat)
    requires m <= |paths| && m <= |parts| && Placed(parts, |d|)
    requires forall k :: 0 <= k < m ==> paths[k] in files
    requires forall i, j :: 0 <= i < j < m ==> paths[i] != paths[j]
    requires forall k :: 0 <= k < m ==>
               PartitionBytes(d, parts[k]) == Truncated(files, paths, parts, k + 1)[paths[k]]
    ensures CorruptedPartitions(d, parts, paths, Truncated(files, paths, parts, m), m) == []
  {
    var fs := Truncated(files, paths, parts, m);
    forall k | 0 <= k < m
      ensures paths[k] in fs && PartitionBytes(d, parts[k]) == fs[paths[k]]
    {
      TruncatedOnce(files, paths, parts, m, k);
    }
    CleanDiskValidates(d, parts, paths, fs, m);
  }

  /** Partition k of a planned table is exactly the layer's size rounded up
      to whole sectors. */
  lemma PartitionLength(parts: seq<Partition>, sizes: seq<nat>, m: nat, k: nat)
    requires k < m <= |sizes| && |parts| == m
    requires Extents(parts) == Layout(CeilSectorCounts(sizes[..m]), FirstStart)
    ensures parts[k].start <= parts[k].end && Length(parts[k]) == CeilSectors(sizes[k]) * 512
  {
    TableShape(sizes, m, k);
    assert Extents(parts)[k] == Extent(parts[k].start, parts[k].end);
  }
}
