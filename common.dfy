/** Values shared by both generator variants: bytes, digests, layer
    descriptors, the media-type and file-name constants, and the error
    results that stand for the source's fatal exits. */
module Common {

  newtype byte = b: int | 0 <= b < 256

  datatype Option<T> = None | Some(value: T)

  /** Every `log.Fatal` of the source becomes one of these errors. */
  datatype Error =
    | InternalSizeMismatch(roundUp: int, alignUp: int)   // the two disk-size formulas disagree
    | TableRejected                                       // the partition codec refuses the table
    | MissingFile(path: string)                           // os.Truncate / os.Open fails
    | Corrupted(errorCount: nat, partitions: seq<nat>)    // validation found mismatching partitions
    | DigestTooShort(index: nat)                          // string slice out of range (a Go panic)
    | NilDisk                                             // nil dereference of the last part disk

  datatype Result<T> = Ok(value: T) | Err(error: Error)

  /** A content digest `<algorithm>:<encoded>`, already parsed. */
  datatype Digest = Digest(algorithm: string, encoded: string) {
    /** The digest as a Go string, `algorithm:encoded`. */
    function String(): string { algorithm + ":" + encoded }
  }

  /** One manifest layer as the registry reports it. */
  datatype Descriptor = Descriptor(mediaType: string, digest: Digest, size: nat)

  // Media types (regclient's MediaTypeOCI1LayerGzip and the Nydus blob type).
  const MediaTypeOCI1LayerGzip: string := "application/vnd.oci.image.layer.v1.tar+gzip"
  const MediaTypeNydusBlob: string := "application/vnd.oci.image.layer.nydus.blob.v1"

  lemma MediaTypesDiffer()
    ensures MediaTypeOCI1LayerGzip != MediaTypeNydusBlob
  {
    assert |MediaTypeOCI1LayerGzip| != |MediaTypeNydusBlob|;
  }

  // File names.
  const BlobPrefix: string := "blob-"
  const BootstrapPrefix: string := "bootstrap-"
  const OutputImageName: string := "output.img"

  // Disk geometry.
  const SectorSize: nat := 512
  const PartitionAlignment: nat := 2048
  const MiB: nat := 1048576  // 1024 * 1024

  /** All-zero bytes, as a sparse file reads after it has been extended. */
  function Zeros(n: nat): (r: seq<byte>)
    ensures |r| == n
    ensures forall i :: 0 <= i < n ==> r[i] == 0
  {
    seq(n, _ => 0)
  }
}
