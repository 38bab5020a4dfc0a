/** Deterministic local file names for fetched layers, the path joins the
    download and write loops use, and the decimal part-file suffix. */
module Naming {
  import opened Common

  /** `getBootstrapFileName`: the bootstrap prefix and the encoded digest. */
  function BootstrapFileName(d: Digest): string {
    BootstrapPrefix + d.encoded
  }

  /** `getBlobFileName`: the blob prefix and the encoded digest. */
  function BlobFileName(d: Digest): string {
    BlobPrefix + d.encoded
  }

  /** The name both loops give layer k: the bootstrap name at index 0, the
      blob name everywhere else. */
  function LayerFileName(k: nat, d: Digest): string {
    if k == 0 then BootstrapFileName(d) else BlobFileName(d)
  }

  /** Reads a layer file name back: whether it is the bootstrap file, and
      the encoded digest it carries. */
  function ParseFileName(name: string): Option<(bool, string)> {
    if BootstrapPrefix <= name then Some((true, name[|BootstrapPrefix|..]))
    else if BlobPrefix <= name then Some((false, name[|BlobPrefix|..]))
    else None
  }

  /** A bootstrap file name reads back as the bootstrap file of its digest. */
  lemma BootstrapNameReadsBack(d: Digest)
    ensures ParseFileName(BootstrapFileName(d)) == Some((true, d.encoded))
  {
    assert BootstrapFileName(d)[|BootstrapPrefix|..] == d.encoded;
  }

  /** A blob file name reads back as a blob file of its digest, never as a
      bootstrap file. */
  lemma BlobNameReadsBack(d: Digest)
    ensures ParseFileName(BlobFileName(d)) == Some((false, d.encoded))
  {
    var name := BlobFileName(d);
    assert name[1] == 'l' != BootstrapPrefix[1];
    assert name[|BlobPrefix|..] == d.encoded;
  }

  /** A layer file name records exactly the role and the encoded digest. */
  lemma FileNameRoundTrip(k: nat, d: Digest)
    ensures ParseFileName(LayerFileName(k, d)) == Some((k == 0, d.encoded))
  {
    if k == 0 {
      BootstrapNameReadsBack(d);
    } else {
      BlobNameReadsBack(d);
    }
  }

  /** Two layers share a local file exactly when they have the same role
      and the same encoded digest. */
  lemma FileNameInjective(i: nat, d1: Digest, j: nat, d2: Digest)
    ensures LayerFileName(i, d1) == LayerFileName(j, d2)
        <==> (i == 0) == (j == 0) && d1.encoded == d2.encoded
  {
    FileNameRoundTrip(i, d1);
    FileNameRoundTrip(j, d2);
  }

  /** What `filepath.Join` puts in front of a relative name: nothing for an
      empty directory, else the directory with one trailing separator. */
  function DirPrefix(dir: string): (p: string)
    ensures p == [] || p[|p| - 1] == '/'
  {
    if dir == [] then [] else if dir[|dir| - 1] == '/' then dir else dir + "/"
  }

  /** `filepath.Join(dir, name)` for a relative name: one separator between
      the two (path cleaning is not modelled). */
  function Join(dir: string, name: string): string {
    DirPrefix(dir) + name
  }

  /** The directory part of `filepath.Split`: everything up to and including
      the last separator. */
  function SplitDir(path: string): (dir: string)
    ensures dir <= path
    ensures dir == [] || dir[|dir| - 1] == '/'
  {
    if path == [] then []
    else if path[|path| - 1] == '/' then path
    else SplitDir(path[..|path| - 1])
  }

  /** The file part of `filepath.Split`: what follows the last separator. */
  function SplitFile(path: string): (file: string)
    ensures SplitDir(path) + file == path
    ensures '/' !in file
  {
    NoSeparatorAfterDir(path);
    path[|SplitDir(path)|..]
  }

  lemma {:induction false} NoSeparatorAfterDir(path: string)
    ensures '/' !in path[|SplitDir(path)|..]
    decreases |path|
  {
    if path != [] && path[|path| - 1] != '/' {
      var init := path[..|path| - 1];
      NoSeparatorAfterDir(init);
      assert path[|SplitDir(path)|..] == init[|SplitDir(init)|..] + [path[|path| - 1]];
    }
  }

  lemma {:induction false} SplitDirSkipsName(prefix: string, name: string)
    ensures '/' !in name ==> SplitDir(prefix + name) == SplitDir(prefix)
    decreases |name|
  {
    if name != [] && '/' !in name {
      var p := prefix + name;
      assert p[|p| - 1] == name[|name| - 1];
      assert p[..|p| - 1] == prefix + name[..|name| - 1];
      SplitDirSkipsName(prefix, name[..|name| - 1]);
    } else if name == [] {
      assert prefix + name == prefix;
    }
  }

  /** Splitting a joined path gives back the directory (with its separator)
      and the name, for a name without separators. */
  lemma SplitJoin(dir: string, name: string)
    requires '/' !in name
    ensures SplitDir(Join(dir, name)) == DirPrefix(dir)
    ensures SplitFile(Join(dir, name)) == name
  {
    SplitDirSkipsName(DirPrefix(dir), name);
  }

  /** Joining a name to the directory of `Join(dir, file)` is joining it to
      dir: the write loop, which starts from the disk file's path, finds the
      files the download loop created. */
  lemma JoinSplitJoin(dir: string, file: string, name: string)
    requires '/' !in file
    ensures Join(SplitDir(Join(dir, file)), name) == Join(dir, name)
  {
    SplitJoin(dir, file);
  }

  /** Joining names to one directory keeps distinct names distinct. */
  lemma JoinInjective(dir: string, a: string, b: string)
    ensures Join(dir, a) == Join(dir, b) <==> a == b
  {
    var p := DirPrefix(dir);
    if Join(dir, a) == Join(dir, b) {
      assert a == (p + a)[|p|..] && b == (p + b)[|p|..];
    }
  }

  function DigitChar(n: nat): char
    requires n < 10
  {
    "0123456789"[n]
  }

  function DigitValue(c: char): nat {
    if '0' <= c <= '9' then (c as int - '0' as int) as nat else 0
  }

  /** `fmt.Sprint` of a non-negative int: its decimal digits. */
  function DecimalString(n: nat): (s: string)
    ensures |s| >= 1
    ensures forall i :: 0 <= i < |s| ==> '0' <= s[i] <= '9'
  {
    if n < 10 then [DigitChar(n)] else DecimalString(n / 10) + [DigitChar(n % 10)]
  }

  function ParseDecimal(s: string): nat {
    if s == [] then 0 else 10 * ParseDecimal(s[..|s| - 1]) + DigitValue(s[|s| - 1])
  }

  lemma {:induction false} DecimalRoundTrip(n: nat)
    ensures ParseDecimal(DecimalString(n)) == n
  {
    var s := DecimalString(n);
    if n < 10 {
      assert s[..0] == [];
    } else {
      DecimalRoundTrip(n / 10);
      assert s[..|s| - 1] == DecimalString(n / 10);
    }
  }

  /** Distinct numbers print differently. */
  lemma DecimalInjective(a: nat, b: nat)
    ensures DecimalString(a) == DecimalString(b) <==> a == b
  {
    DecimalRoundTrip(a);
    DecimalRoundTrip(b);
  }
}
