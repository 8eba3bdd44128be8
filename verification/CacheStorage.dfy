/** The storage of oci/internal/cache/storage.go as one caller at a time sees it. Any step may fail with an I/O error. */
module CacheStorage {
  import opened CachePaths
  import opened Framing
  import opened LexicalPath

  datatype ReadAnswer = Content(data: Bytes) | Missing | Corrupt | ReadError

  datatype ExistsAnswer = Exists | NotExists | ExistsError

  /** What lies elsewhere belongs to no cache: it may be anything, and changing it changes no file of theirs. */
  class Storage {
    const sum: Checksum
    const root: string
    var files: map<Path, Bytes>          // what is on disk, framed
    ghost var contents: map<Path, Bytes>  // what was stored
    ghost const safe: map<Path, Bytes> -> bool  // what the owner wants to hold of the contents at all times
    ghost var alwaysSafe: bool                  // whether it has held after every change so far
    ghost var faults: nat                       // how often the filesystem has failed

    ghost predicate Valid()
      reads this
    {
      && OneLine(sum) && IsAbs(root)
      && files.Keys == contents.Keys
      && forall path :: path in files ==> !path.Elsewhere? && files[path] == Frame(sum, contents[path])
    }

    constructor (sum: Checksum, root: string, ghost safe: map<Path, Bytes> -> bool)
      requires OneLine(sum) && IsAbs(root)
      ensures Valid() && contents == map[] && this.sum == sum && this.root == root && this.safe == safe
      ensures alwaysSafe == safe(map[])
    {
      this.sum := sum;
      this.root := root;
      files := map[];
      contents := map[];
      this.safe := safe;
      alwaysSafe := safe(map[]);
      faults := 0;
    }

    /** Whether the filesystem fails the next call. */
    method FilesystemFails() returns (fails: bool)
      modifies `faults
      ensures faults == old(faults) + if fails then 1 else 0
    {
      fails := *;
      if fails {
        faults := faults + 1;
      }
    }

    method WriteAtomically(path: Path, data: Bytes) returns (ok: bool)
      requires Valid()
      modifies this
      ensures Valid()
      ensures contents == if ok && !path.Elsewhere? then old(contents)[path := data] else old(contents)
      ensures alwaysSafe <==> old(alwaysSafe) && (ok && !path.Elsewhere? ==> safe(contents))
      ensures !path.Elsewhere? ==> faults == old(faults) + if ok then 0 else 1
      ensures old(faults) <= faults
    {
      var fails := FilesystemFails();
      if fails {
        return false;
      }
      if path.Elsewhere? {
        ok := *;
        return;
      }
      files := files[path := Frame(sum, data)];
      contents := contents[path := data];
      alwaysSafe := alwaysSafe && safe(contents);
      return true;
    }

    method ReadWithIntegrity(path: Path) returns (r: ReadAnswer)
      requires Valid()
      modifies `faults
      ensures !path.Elsewhere? && r.Content? ==> path in contents && r.data == contents[path]
      ensures r.Missing? ==> path !in contents
      ensures !path.Elsewhere? ==> !r.Corrupt?
      ensures !path.Elsewhere? ==> faults == old(faults) + if r.ReadError? then 1 else 0
      ensures old(faults) <= faults
    {
      var fails := FilesystemFails();
      if fails {
        return ReadError;
      }
      if path.Elsewhere? {
        r := *;
        return if r.Missing? then ReadError else r;
      }
      if path !in files {
        return Missing;
      }
      UnframeFrame(sum, contents[path]);
      match Unframe(sum, files[path])
      case Data(data) => return Content(data);
      case Corrupted => return Corrupt;
    }

    method CheckExists(path: Path) returns (r: ExistsAnswer)
      requires Valid()
      modifies `faults
      ensures !path.Elsewhere? && r.Exists? ==> path in contents
      ensures !path.Elsewhere? && r.NotExists? ==> path !in contents
      ensures faults == old(faults) + if r.ExistsError? then 1 else 0
    {
      var fails := FilesystemFails();
      if fails {
        return ExistsError;
      }
      if path.Elsewhere? {
        var there: bool := *;
        return if there then Exists else NotExists;
      }
      return if path in files then Exists else NotExists;
    }

    /** Removing a file that is not there is an error: the filesystem wraps its not-found error, and os.IsNotExist, which is to
        let it pass, does not unwrap. */
    method Remove(path: Path) returns (ok: bool)
      requires Valid()
      modifies this
      ensures Valid()
      ensures contents == if ok && !path.Elsewhere? then old(contents) - {path} else old(contents)
      ensures alwaysSafe <==> old(alwaysSafe) && (ok && !path.Elsewhere? ==> safe(contents))
      ensures !path.Elsewhere? ==> (ok <==> path in old(contents) && faults == old(faults))
      ensures old(faults) <= faults
    {
      var fails := FilesystemFails();
      if fails {
        return false;
      }
      if path.Elsewhere? {
        ok := *;
        return;
      }
      if path !in files {
        return false;
      }
      files := files - {path};
      contents := contents - {path};
      alwaysSafe := alwaysSafe && safe(contents);
      return true;
    }
  }

  /** Buffers the data of one stream and commits it when closed. */
  class StreamWriter {
    const storage: Storage
    const finalPath: Path
    var buffer: Bytes
    var size: int

    constructor (storage: Storage, path: Path)
      ensures this.storage == storage && finalPath == path && buffer == "" && size == 0
    {
      this.storage := storage;
      finalPath := path;
      buffer := "";
      size := 0;
    }

    method Write(data: Bytes)
      modifies this
      ensures buffer == old(buffer) + data && size == old(size) + |data|
    {
      buffer := buffer + data;
      size := size + |data|;
    }

    method Close() returns (ok: bool)
      requires storage.Valid()
      modifies storage
      ensures storage.Valid()
      ensures storage.contents ==
              if ok && !finalPath.Elsewhere? then old(storage.contents)[finalPath := buffer] else old(storage.contents)
      ensures storage.alwaysSafe <==> old(storage.alwaysSafe) && (ok && !finalPath.Elsewhere? ==> storage.safe(storage.contents))
      ensures !finalPath.Elsewhere? ==> storage.faults == old(storage.faults) + if ok then 0 else 1
      ensures old(storage.faults) <= storage.faults
    {
      ok := storage.WriteAtomically(finalPath, buffer);
    }
  }
}
