/**
 * The local directory a download writes into, reduced to what the transfer
 * touches: names bound to files, opening a file for appending, writing to
 * it, and renaming it. A name is bound to a file object, so a handle opened
 * on the partial file keeps referring to the same file after a rename, as on
 * a POSIX file system.
 */
module LocalFiles {

  class File {
    var data: seq<bv8>

    constructor Empty()
      ensures data == []
    {
      data := [];
    }

    /** `f.write(bytes)` on a file opened in append mode: the bytes go at the end. */
    method Write(bytes: seq<bv8>)
      modifies this
      ensures data == old(data) + bytes
    {
      data := data + bytes;
    }
  }

  class Folder {
    var files: map<string, File>

    /** No two names share one file (there are no hard links). */
    ghost predicate Valid()
      reads this
    {
      forall p, q :: p in files && q in files && p != q ==> files[p] != files[q]
    }

    /** The file bound to `path`, if any: all that writing through `path` can change. */
    function Frame(path: string): set<File>
      reads this
    {
      if path in files then {files[path]} else {}
    }

    /** Contents of `path`, or nothing when no file of that name exists. */
    function Stored(path: string): seq<bv8>
      reads this, Frame(path)
    {
      if path in files then files[path].data else []
    }

    /**
     * `open(path, "ab")`: an existing file is opened as it is; otherwise an
     * empty file is created under that name.
     */
    method OpenAppend(path: string) returns (f: File)
      requires Valid()
      modifies this
      ensures Valid() && path in files && f == files[path]
      ensures path in old(files) ==> f == old(files)[path] && files == old(files)
      ensures path !in old(files) ==> fresh(f) && f.data == [] && files == old(files)[path := f]
    {
      if path in files {
        f := files[path];
      } else {
        f := new File.Empty();
        files := files[path := f];
      }
    }

    /** `Path.rename`: the file of `from` is bound to `to` instead (replacing any file of that name). */
    method Rename(from: string, to: string)
      requires Valid() && from in files && from != to
      modifies this
      ensures Valid() && from !in files && to in files && files[to] == old(files)[from]
      ensures files == (old(files) - {from})[to := old(files)[from]]
    {
      files := (files - {from})[to := files[from]];
    }
  }
}
