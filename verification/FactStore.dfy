/** The content-addressed store behind the fact log: every distinct payload is one
    numbered file, and the counters bound their number and total size. */
module FactStore {
  import opened Basics
  import opened FactLog
  import opened FactPaths

  const MAX_BYTES: nat := 0x10_0000
  const MAX_TOTAL_BYTES: nat := 0x400_0000

  /** Which digest went to which file. */
  datatype Blob = Blob(digest: Digest, path: FileName)

  function Total(blobs: seq<Blob>): nat {
    if blobs == [] then 0 else Total(blobs[..|blobs| - 1]) + |blobs[|blobs| - 1].digest.data|
  }

  predicate OnDisk(b: Blob, disk: map<FileName, seq<Byte>>) {
    |b.digest.data| <= MAX_BYTES && b.path in disk && disk[b.path] == b.digest.data
  }

  /** The index holds exactly these blobs, stored in this order: number n carries
      n in its name, and its bytes are in the file of that name. */
  predicate Indexed(blobs: seq<Blob>, paths: map<Digest, FileName>, disk: map<FileName, seq<Byte>>) {
    if blobs == [] then paths == map[]
    else
      var b := blobs[|blobs| - 1];
      && b.digest in paths && paths[b.digest] == b.path
      && b.path.revision == |blobs| && OnDisk(b, disk)
      && Indexed(blobs[..|blobs| - 1], paths - {b.digest}, disk)
  }

  /** The counters agree with the blobs, within the budget. */
  predicate Accounted(blobs: seq<Blob>, hashes: set<Digest>, paths: map<Digest, FileName>, bytes: nat,
                      disk: map<FileName, seq<Byte>>)
  {
    && hashes == paths.Keys && |hashes| == |blobs|
    && bytes == Total(blobs) <= MAX_TOTAL_BYTES
    && Indexed(blobs, paths, disk)
  }

  /** An indexed blob is one of the numbered ones, with its bytes on disk. */
  lemma {:induction false} Located(blobs: seq<Blob>, paths: map<Digest, FileName>, disk: map<FileName, seq<Byte>>,
                                   d: Digest)
    requires Indexed(blobs, paths, disk) && d in paths
    ensures OnDisk(Blob(d, paths[d]), disk) && 1 <= paths[d].revision <= |blobs|
  {
    if blobs != [] && blobs[|blobs| - 1].digest != d {
      Located(blobs[..|blobs| - 1], paths - {blobs[|blobs| - 1].digest}, disk, d);
    }
  }

  /** Two different blobs never share a file. */
  lemma {:induction false} PathsDistinct(blobs: seq<Blob>, paths: map<Digest, FileName>, disk: map<FileName, seq<Byte>>,
                                         a: Digest, b: Digest)
    requires Indexed(blobs, paths, disk) && a in paths && b in paths && a != b
    ensures Text(paths[a]) != Text(paths[b])
  {
    RevisionRecovered(paths[a]);
    RevisionRecovered(paths[b]);
    if blobs != [] {
      var front, last := blobs[..|blobs| - 1], blobs[|blobs| - 1].digest;
      if a == last {
        Located(front, paths - {last}, disk, b);
      } else if b == last {
        Located(front, paths - {last}, disk, a);
      } else {
        PathsDistinct(front, paths - {last}, disk, a, b);
      }
    }
  }

  lemma {:induction false} IndexedAfterWrite(blobs: seq<Blob>, paths: map<Digest, FileName>,
                                             disk: map<FileName, seq<Byte>>, path: FileName, data: seq<Byte>)
    requires Indexed(blobs, paths, disk) && (path in disk ==> disk[path] == data)
    ensures Indexed(blobs, paths, disk[path := data])
  {
    if blobs != [] {
      IndexedAfterWrite(blobs[..|blobs| - 1], paths - {blobs[|blobs| - 1].digest}, disk, path, data);
    }
  }

  /** Storing a new payload under the next number. */
  lemma StoredNew(blobs: seq<Blob>, hashes: set<Digest>, paths: map<Digest, FileName>, bytes: nat,
                  disk: map<FileName, seq<Byte>>, d: Digest, path: FileName)
    requires Accounted(blobs, hashes, paths, bytes, disk) && d !in hashes
    requires path.revision == |hashes| + 1
    requires |d.data| <= MAX_BYTES && bytes + |d.data| <= MAX_TOTAL_BYTES
    requires path in disk ==> disk[path] == d.data
    ensures Accounted(blobs + [Blob(d, path)], hashes + {d}, paths[d := path], bytes + |d.data|, disk[path := d.data])
  {
    var after := blobs + [Blob(d, path)];
    IndexedAfterWrite(blobs, paths, disk, path, d.data);
    assert after[..|after| - 1] == blobs;
    assert paths[d := path] - {d} == paths;
  }

  predicate Extends(a: map<Digest, FileName>, b: map<Digest, FileName>) {
    forall d | d in a :: d in b && b[d] == a[d]
  }

  class Store {
    var bytes: nat
    var hashes: set<Digest>
    var paths: map<Digest, FileName>
    var disk: map<FileName, seq<Byte>>
    ghost var blobs: seq<Blob>

    ghost predicate Valid()
      reads this
    {
      Accounted(blobs, hashes, paths, bytes, disk)
    }

    /** `found` is whatever already lies in the recording directory. */
    constructor (found: map<FileName, seq<Byte>>)
      ensures Valid() && paths == map[] && disk == found
    {
      bytes, hashes, paths, disk, blobs := 0, {}, map[], found, [];
    }

    method Put(data: seq<Byte>, name: string, suffix: string) returns (r: Result<Content, string>)
      requires Valid()
      modifies this
      ensures Valid() && Extends(old(paths), paths)
      ensures r.Ok? ==> r.value == Content(r.value.path, Sha(data), |data|)
                        && Sha(data) in paths && paths[Sha(data)] == r.value.path
      ensures bytes == old(bytes) + (if r.Ok? && Sha(data) !in old(hashes) then |data| else 0)
      ensures |data| > MAX_BYTES ==> r == Err("fact-payload-too-large")
      ensures r == Err("fact-byte-budget-exhausted") || r == Err("fact-blob-conflict") ==> Sha(data) !in old(hashes)
    {
      if |data| > MAX_BYTES {
        return Err("fact-payload-too-large");
      }
      var digest := Sha(data);
      if digest !in hashes && bytes + |data| > MAX_TOTAL_BYTES {
        return Err("fact-byte-budget-exhausted");
      }
      if digest in hashes {
        r := Again(digest);
      } else {
        r := Create(digest, Name(name, |hashes| + 1, suffix));
      }
    }

    /** A payload that is already stored keeps its file. */
    method Again(digest: Digest) returns (r: Result<Content, string>)
      requires Valid() && digest in hashes
      ensures r.Ok? ==> r.value == Content(paths[digest], digest, |digest.data|)
      ensures r.Err? ==> r.reason == "OSError"
    {
      Located(blobs, paths, disk, digest);
      var refused: bool := *;
      if refused {
        return Err("OSError");
      }
      assert disk[paths[digest]] == digest.data;
      r := Ok(Content(paths[digest], digest, |digest.data|));
    }

    /** A new payload goes to the next number, unless something else is there. */
    method Create(digest: Digest, path: FileName) returns (r: Result<Content, string>)
      requires Valid() && digest !in hashes
      requires |digest.data| <= MAX_BYTES && bytes + |digest.data| <= MAX_TOTAL_BYTES
      requires path.revision == |hashes| + 1
      modifies this
      ensures Valid() && Extends(old(paths), paths)
      ensures r.Err? ==> paths == old(paths) && disk == old(disk) && bytes == old(bytes)
      ensures r.Ok? ==> r.value == Content(path, digest, |digest.data|) && paths == old(paths)[digest := path]
                        && bytes == old(bytes) + |digest.data|
    {
      var refused: bool := *;
      if refused {
        return Err("OSError");
      }
      if path in disk && disk[path] != digest.data {
        return Err("fact-blob-conflict");
      }
      StoredNew(blobs, hashes, paths, bytes, disk, digest, path);
      disk := disk[path := digest.data];
      hashes := hashes + {digest};
      paths := paths[digest := path];
      bytes := bytes + |digest.data|;
      blobs := blobs + [Blob(digest, path)];
      r := Ok(Content(path, digest, |digest.data|));
    }
  }
}
