/**
 * The part of the file system the store writer touches: the directories
 * that exist, and the files holding a credential store, each seen as the
 * store configparser reads from it.
 */
module FileSystem {
  import opened Ini

  class Disk {
    var dirs: set<string>
    var files: map<string, Store>

    /** Every file holds a store configparser could have read. */
    predicate Valid()
      reads this
    {
      forall p :: p in files ==> WellFormed(files[p])
    }

    /** What configparser reads from `path`: a missing file reads as the empty store. */
    function Load(path: string): (st: Store)
      reads this
      requires Valid()
      ensures WellFormed(st)
    {
      if path in files then files[path] else EMPTY
    }

    /** `os.path.exists` on a directory. */
    method PathExists(path: string) returns (b: bool)
      ensures b <==> path in dirs
    {
      b := path in dirs;
    }

    /** `os.makedirs` of a directory not yet there (it raises when the directory exists). */
    method MakeDirs(path: string)
      requires path !in dirs
      modifies this
      ensures dirs == old(dirs) + {path}
      ensures files == old(files)
    {
      dirs := dirs + {path};
    }

    /** Opening `path` for writing and writing `st` to it: the whole file is replaced. */
    method Write(path: string, st: Store)
      requires Valid() && WellFormed(st)
      modifies this
      ensures Valid()
      ensures files == old(files)[path := st]
      ensures dirs == old(dirs)
    {
      files := files[path := st];
    }
  }
}
