/** The cache directory: file names, file contents, and the total size of the blobs in it. */
module BlobDir {

  newtype Byte = x: int | 0 <= x < 256
  type Bytes = seq<Byte>
  type Name = string
  datatype File = File(data: Bytes, mtime: int)

  /** The regular files of the cache directory, by base name. */
  type Dir = map<Name, File>

  const DIGEST_PREFIX := "sha256:"
  const NAME_PREFIX := "sha256-"
  const BLOB_SUFFIX := ".blob"
  const TMP_SUFFIX := ".tmp"

  predicate HasPrefix(s: string, prefix: string) {
    |prefix| <= |s| && s[..|prefix|] == prefix
  }

  predicate HasSuffix(s: string, suffix: string) {
    |suffix| <= |s| && s[|s| - |suffix|..] == suffix
  }

  function TrimPrefix(s: string, prefix: string): string {
    if HasPrefix(s, prefix) then s[|prefix|..] else s
  }

  predicate IsBlob(n: Name) {
    HasSuffix(n, BLOB_SUFFIX)
  }

  function Blobs(dir: Dir): Dir {
    map n | n in dir && IsBlob(n) :: dir[n]
  }

  function BlobName(digest: string): Name {
    NAME_PREFIX + TrimPrefix(digest, DIGEST_PREFIX) + BLOB_SUFFIX
  }

  function TmpName(n: Name): Name {
    n + TMP_SUFFIX
  }

  /** Cached files are seen by directory scans; temporary files never are. */
  lemma NamesKeptApart(digest: string, n: Name)
    ensures IsBlob(BlobName(digest))
    ensures !IsBlob(TmpName(n))
  {
    var t := TmpName(n);
    assert t[|t| - 1] == 'p';
  }

  /** The names in full. */
  lemma FileNames(hex: string, n: Name)
    ensures BlobName("sha256:" + hex) == "sha256-" + hex + ".blob"
    ensures (forall rest :: hex != "sha256:" + rest) ==> BlobName(hex) == "sha256-" + hex + ".blob"
    ensures IsBlob(n) <==> exists stem :: n == stem + ".blob"
    ensures TmpName(n) == n + ".tmp"
  {
    assert ("sha256:" + hex)[..7] == "sha256:" && ("sha256:" + hex)[7..] == hex;
    if HasPrefix(hex, "sha256:") { assert hex == "sha256:" + hex[7..]; }
    if IsBlob(n) { assert n == n[..|n| - 5] + ".blob"; }
    if stem :| n == stem + ".blob" { assert n[|n| - 5..] == ".blob"; }
  }

  /** Two digests share a file exactly when they are equal or differ by the optional prefix. */
  lemma BlobNameCollisions(d: string, e: string)
    ensures BlobName(d) == BlobName(e) <==>
            || d == e
            || (d == DIGEST_PREFIX + e && !HasPrefix(e, DIGEST_PREFIX))
            || (e == DIGEST_PREFIX + d && !HasPrefix(d, DIGEST_PREFIX))
  {
    var x, y := TrimPrefix(d, DIGEST_PREFIX), TrimPrefix(e, DIGEST_PREFIX);
    assert BlobName(d)[7..|BlobName(d)| - 5] == x;
    assert BlobName(e)[7..|BlobName(e)| - 5] == y;
    assert HasPrefix(d, DIGEST_PREFIX) ==> d == DIGEST_PREFIX + x;
    assert HasPrefix(e, DIGEST_PREFIX) ==> e == DIGEST_PREFIX + y;
    assert d == DIGEST_PREFIX + e ==> x == e;
    assert e == DIGEST_PREFIX + d ==> y == d;
  }

  /** The number of bytes stored in the files of `m`. */
  ghost function Total(m: Dir): (t: nat)
    decreases |m|
  {
    if m == map[] then 0 else
      var n :| n in m;
      |m[n].data| + Total(m - {n})
  }

  lemma {:induction false} TotalMinus(m: Dir, n: Name)
    requires n in m
    ensures Total(m) == |m[n].data| + Total(m - {n})
    decreases |m|
  {
    var k :| k in m && Total(m) == |m[k].data| + Total(m - {k});
    if k != n {
      TotalMinus(m - {k}, n);
      TotalMinus(m - {n}, k);
      assert m - {k} - {n} == m - {n} - {k};
    }
  }

  lemma TotalPlus(m: Dir, n: Name, f: File)
    requires n !in m
    ensures Total(m[n := f]) == Total(m) + |f.data|
  {
    TotalMinus(m[n := f], n);
    assert m[n := f] - {n} == m;
  }

  /** A directory with fewer files, none of them larger, holds no more bytes. */
  lemma {:induction false} TotalMonotone(m: Dir, m': Dir)
    requires m.Keys <= m'.Keys && forall n | n in m :: |m[n].data| <= |m'[n].data|
    ensures Total(m) <= Total(m')
    decreases |m|
  {
    if m == map[] {
    } else {
      var n :| n in m;
      TotalMinus(m, n);
      TotalMinus(m', n);
      TotalMonotone(m - {n}, m' - {n});
    }
  }

  lemma BlobsMinus(dir: Dir, names: set<Name>)
    ensures Blobs(dir - names) == Blobs(dir) - names
  {
  }

  /** Removing one blob takes its bytes and one file away. */
  lemma BlobRemoved(dir: Dir, n: Name)
    requires n in dir && IsBlob(n)
    ensures Total(Blobs(dir)) == |dir[n].data| + Total(Blobs(dir - {n}))
    ensures |Blobs(dir)| == 1 + |Blobs(dir - {n})|
  {
    BlobsMinus(dir, {n});
    TotalMinus(Blobs(dir), n);
    assert Blobs(dir).Keys - {n} == (Blobs(dir) - {n}).Keys;
  }

  /** Adding a new blob adds its bytes and one file. */
  lemma BlobAdded(dir: Dir, n: Name, f: File)
    requires n !in dir && IsBlob(n)
    ensures Total(Blobs(dir[n := f])) == Total(Blobs(dir)) + |f.data|
    ensures |Blobs(dir[n := f])| == |Blobs(dir)| + 1
    ensures Blobs(dir[n := f]) == Blobs(dir)[n := f]
  {
    assert Blobs(dir[n := f]) == Blobs(dir)[n := f];
    TotalPlus(Blobs(dir), n, f);
  }

  lemma MinusThenPlus(m: Dir, n: Name, f: File)
    ensures (m - {n})[n := f] == m[n := f]
  {
  }

  /** Replacing a blob exchanges its bytes. */
  lemma BlobReplaced(dir: Dir, n: Name, f: File)
    requires n in dir && IsBlob(n)
    ensures Total(Blobs(dir[n := f])) + |dir[n].data| == Total(Blobs(dir)) + |f.data|
    ensures |Blobs(dir[n := f])| == |Blobs(dir)|
    ensures Blobs(dir[n := f]) == Blobs(dir)[n := f]
  {
    hide IsBlob, Blobs, Total;
    BlobRemoved(dir, n);
    BlobAdded(dir - {n}, n, f);
    MinusThenPlus(dir, n, f);
    BlobsMinus(dir, {n});
    MinusThenPlus(Blobs(dir), n, f);
  }
}
