/** A single directory on disk, as the cache code sees it through `System.IO` (C#) or `os` (Python):
    an ordered listing of files with sizes, timestamps and, where the code reads a file back,
    its content. The order of `files` is the listing order. */
module FileSystem {
  import opened Wrappers

  /** Instants (`DateTime.UtcNow`, `datetime.now()`) as opaque ordered ticks. */
  type Time = int

  type Byte = b: int | 0 <= b < 256

  /** The content of a file, where the code reads it back or writes it: an access-time index
      written by the cache, downloaded image bytes, or anything else. */
  datatype FileData = Opaque | AccessIndex(times: map<string, Time>) | Image(bytes: seq<Byte>)

  datatype DiskFile = DiskFile(path: string, size: nat, accessedAt: Time, createdAt: Time, data: FileData)

  /** The paths of a listing. */
  function PathSet(files: seq<DiskFile>): set<string>
  {
    if files == [] then {} else {files[0].path} + PathSet(files[1..])
  }

  lemma PathSetMembers(files: seq<DiskFile>)
    ensures forall f :: f in files ==> f.path in PathSet(files)
    ensures forall p :: p in PathSet(files) ==> exists f :: f in files && f.path == p
  {
    if files != [] {
      PathSetMembers(files[1..]);
    }
  }

  /** No path is listed twice. */
  predicate DistinctPaths(files: seq<DiskFile>) {
    files == [] || (files[0].path !in PathSet(files[1..]) && DistinctPaths(files[1..]))
  }

  /** The first (with distinct paths: the only) file at path `p`. */
  function Find(files: seq<DiskFile>, p: string): (r: Option<DiskFile>)
    ensures r.Some? ==> r.value.path == p
  {
    if files == [] then None
    else if files[0].path == p then Some(files[0])
    else Find(files[1..], p)
  }

  /** A path is found exactly when it is listed, and what is found is a listed file. */
  lemma {:induction false} FindFacts(files: seq<DiskFile>, p: string)
    ensures Find(files, p).Some? <==> p in PathSet(files)
    ensures Find(files, p).Some? ==> Find(files, p).value in files
  {
    if files != [] && files[0].path != p {
      FindFacts(files[1..], p);
    }
  }

  /** The listing without the files whose path is in `gone`, in the same order. */
  function RemovePaths(files: seq<DiskFile>, gone: set<string>): (r: seq<DiskFile>)
    ensures |r| <= |files|
  {
    if files == [] then []
    else if files[0].path in gone then RemovePaths(files[1..], gone)
    else [files[0]] + RemovePaths(files[1..], gone)
  }

  /** Removal keeps exactly the files whose path is not in `gone`. */
  lemma {:induction false} RemovePathsFacts(files: seq<DiskFile>, gone: set<string>)
    ensures PathSet(RemovePaths(files, gone)) == PathSet(files) - gone
    ensures forall f :: f in RemovePaths(files, gone) <==> f in files && f.path !in gone
  {
    if files != [] {
      RemovePathsFacts(files[1..], gone);
    }
  }

  lemma PathSetRemove(files: seq<DiskFile>, gone: set<string>)
    ensures PathSet(RemovePaths(files, gone)) == PathSet(files) - gone
  {
    RemovePathsFacts(files, gone);
  }

  /** Removing files keeps the paths distinct. */
  lemma {:induction false} RemovePathsDistinct(files: seq<DiskFile>, gone: set<string>)
    requires DistinctPaths(files)
    ensures DistinctPaths(RemovePaths(files, gone))
  {
    if files != [] {
      RemovePathsDistinct(files[1..], gone);
      RemovePathsFacts(files[1..], gone);
    }
  }

  /** The listing after writing `f` at `f.path`: an existing file is overwritten where it stands
      and keeps its creation time; a new file appears at the end of the listing. */
  function Put(files: seq<DiskFile>, f: DiskFile): (r: seq<DiskFile>)
    ensures |r| >= |files| && r != []
  {
    if files == [] then [f]
    else if files[0].path == f.path then [f.(createdAt := files[0].createdAt)] + files[1..]
    else [files[0]] + Put(files[1..], f)
  }

  /** A write adds its path and leaves every file at another path in place. */
  lemma {:induction false} PutFacts(files: seq<DiskFile>, f: DiskFile)
    ensures PathSet(Put(files, f)) == PathSet(files) + {f.path}
    ensures forall g :: g in files && g.path != f.path ==> g in Put(files, f)
    ensures forall g :: g in Put(files, f) && g.path != f.path ==> g in files
  {
    if files != [] && files[0].path != f.path {
      PutFacts(files[1..], f);
    }
  }

  /** Writing a file keeps the paths distinct. */
  lemma {:induction false} PutDistinct(files: seq<DiskFile>, f: DiskFile)
    requires DistinctPaths(files)
    ensures DistinctPaths(Put(files, f))
  {
    if files != [] && files[0].path != f.path {
      PutDistinct(files[1..], f);
      PutFacts(files[1..], f);
    }
  }

  /** After a write, the file at that path has the written size and content. */
  lemma {:induction false} PutFind(files: seq<DiskFile>, f: DiskFile)
    ensures Find(Put(files, f), f.path).Some?
    ensures Find(Put(files, f), f.path).value.size == f.size
    ensures Find(Put(files, f), f.path).value.data == f.data
  {
    if files != [] && files[0].path != f.path {
      PutFind(files[1..], f);
    }
  }

  /** The directory the cache lives in. `listable` is false when enumerating it throws;
      files in `locked` exist but can be neither deleted nor overwritten (open elsewhere,
      read-only, or denied). */
  class Volume {
    var files: seq<DiskFile>
    var listable: bool
    const locked: set<string>

    predicate Valid()
      reads this
    {
      DistinctPaths(files)
    }

    constructor(files: seq<DiskFile>, listable: bool, locked: set<string>)
      requires DistinctPaths(files)
      ensures Valid()
      ensures this.files == files && this.listable == listable && this.locked == locked
    {
      this.files := files;
      this.listable := listable;
      this.locked := locked;
    }

    predicate Exists(p: string)
      reads this
    {
      p in PathSet(files)
    }

    /** `File.Delete` / `os.remove`: succeeds unless the file is locked; deleting a missing file
        does nothing. */
    method Delete(p: string) returns (ok: bool)
      requires Valid()
      modifies this
      ensures Valid() && listable == old(listable)
      ensures ok <==> p !in locked
      ensures files == if ok then RemovePaths(old(files), {p}) else old(files)
    {
      ok := p !in locked;
      if ok {
        RemovePathsDistinct(files, {p});
        files := RemovePaths(files, {p});
      }
    }

    /** `File.WriteAllBytes` / `File.WriteAllText` / `open(path, 'wb')`: fails on a locked file. */
    method Write(f: DiskFile) returns (ok: bool)
      requires Valid()
      modifies this
      ensures Valid() && listable == old(listable)
      ensures ok <==> f.path !in locked
      ensures files == if ok then Put(old(files), f) else old(files)
    {
      ok := f.path !in locked;
      if ok {
        PutDistinct(files, f);
        files := Put(files, f);
      }
    }
  }
}
