/**
 * The part of the file system the automations of
 * cmk/base/automations/check_mk.py touch when they rename or delete a host:
 * a map from the path of every file to its content. A directory is present
 * through the files below it.
 */
module SiteFiles {
  import opened Wrappers

  /** `os.rename` onto a path that was removed just before raises FileNotFoundError. */
  datatype RenameError = FileNotFound(path: string)

  function PathOf(basedir: string, name: string): string
  {
    basedir + "/" + name
  }

  /** The files below the directories the automation touches, by path. */
  class FileSystem {
    var files: map<string, string>

    constructor (files: map<string, string>)
      ensures this.files == files
    {
      this.files := files;
    }

    /**
     * `_rename_host_file`: if the old file exists, an existing new file is
     * removed and the old one is moved to the new name, counting 1;
     * otherwise nothing changes and the count is 0. Renaming a file onto
     * itself removes it before the move, which then fails.
     */
    method RenameHostFile(basedir: string, oldName: string, newName: string) returns (r: Result<int, RenameError>)
      modifies this
      ensures var oldPath := PathOf(basedir, oldName);
        var newPath := PathOf(basedir, newName);
        && (oldPath !in old(files) ==> r == Ok(0) && files == old(files))
        && (oldPath in old(files) && oldPath != newPath ==>
              r == Ok(1) && files == (old(files) - {oldPath})[newPath := old(files)[oldPath]])
        && (oldPath in old(files) && oldPath == newPath ==>
              r == Err(FileNotFound(oldPath)) && files == old(files) - {oldPath})
    {
      var oldPath := PathOf(basedir, oldName);
      var newPath := PathOf(basedir, newName);
      if oldPath !in files {
        return Ok(0);
      }
      if newPath in files {
        files := files - {newPath};
      }
      if oldPath !in files {
        return Err(FileNotFound(oldPath));
      }
      var content := files[oldPath];
      files := (files - {oldPath})[newPath := content];
      return Ok(1);
    }

    /**
     * `_delete_if_exists`: the file at `path` is unlinked, a directory at
     * `path` is removed with everything below it, and a missing path is
     * ignored; nothing else is touched.
     */
    method DeleteIfExists(path: string)
      modifies this
      ensures files == Without(old(files), path)
    {
      files := Without(files, path);
    }
  }

  /** `p` lies inside the directory `dir`. */
  predicate Below(p: string, dir: string)
  {
    |dir| < |p| && p[..|dir| + 1] == dir + "/"
  }

  /** The files left once `path`, as a file or as a directory tree, is removed. */
  function Without(files: map<string, string>, path: string): (r: map<string, string>)
    ensures r.Keys == set p | p in files && p != path && !Below(p, path)
    ensures forall p :: p in r ==> r[p] == files[p]
  {
    map p | p in files && p != path && !Below(p, path) :: files[p]
  }

  /** Removing a path that is neither a file nor a directory changes nothing. */
  lemma WithoutMissing(files: map<string, string>, path: string)
    requires path !in files && forall p :: p in files ==> !Below(p, path)
    ensures Without(files, path) == files
  {
  }

  /** Removing a path twice is removing it once. */
  lemma WithoutIdempotent(files: map<string, string>, path: string)
    ensures Without(Without(files, path), path) == Without(files, path)
  {
  }
}
