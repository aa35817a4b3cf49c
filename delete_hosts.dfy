/**
 * The per-host files the `delete-hosts` and `delete-hosts-known-remote`
 * automations remove (cmk/base/automations/check_mk.py). Both delete the
 * same list of single files, except that a host now monitored by a remote
 * site keeps its agent deployment state on the local site.
 */
module DeleteHosts {
  import opened SiteFiles

  /** The site directories the paths are built from. */
  datatype SiteDirs = SiteDirs(
    precompiledHostchecksDir: string,
    autochecksDir: string,
    countersDir: string,
    tcpCacheDir: string,
    varDir: string)

  /** The f-string `{dir}/{host}{ext}` the paths are written as. */
  function HostFile(dir: string, host: string, ext: string): string
  {
    dir + "/" + host + ext
  }

  /** The single files of `delete-hosts`. */
  function SingleFilePaths(d: SiteDirs, host: string): (paths: seq<string>)
    ensures |paths| == 9
  {
    KnownRemoteSingleFilePaths(d, host) + [HostFile(d.varDir + "/agent_deployment", host, "")]
  }

  /** The single files of `delete-hosts-known-remote`. */
  function KnownRemoteSingleFilePaths(d: SiteDirs, host: string): (paths: seq<string>)
    ensures |paths| == 8
  {
    [ HostFile(d.precompiledHostchecksDir, host, ""),
      HostFile(d.precompiledHostchecksDir, host, ".py"),
      HostFile(d.autochecksDir, host, ".mk"),
      HostFile(d.countersDir, host, ""),
      HostFile(d.tcpCacheDir, host, ""),
      HostFile(d.varDir + "/persisted", host, ""),
      HostFile(d.varDir + "/inventory", host, ""),
      HostFile(d.varDir + "/inventory", host, ".gz") ]
  }

  /**
   * A host known on a remote site loses the same files as a deleted host,
   * in the same order, except for its agent deployment state.
   */
  lemma KnownRemoteKeepsDeployment(d: SiteDirs, host: string)
    ensures KnownRemoteSingleFilePaths(d, host) == SingleFilePaths(d, host)[..8]
    ensures SingleFilePaths(d, host)[8] == d.varDir + "/agent_deployment/" + host
  {
    assert "/agent_deployment" + "/" == "/agent_deployment/";
  }

  /** The file extension of the `i`-th single file path. */
  function Suffix(i: nat): string
  {
    if i == 1 then ".py" else if i == 2 then ".mk" else if i == 7 then ".gz" else ""
  }

  /** `p.endswith(tail)`. */
  predicate EndsWith(p: string, tail: string)
  {
    |tail| <= |p| && p[|p| - |tail|..] == tail
  }

  lemma HostFileEnds(dir: string, host: string, ext: string)
    ensures EndsWith(HostFile(dir, host, ext), "/" + host + ext)
  {
    assert HostFile(dir, host, ext) == dir + ("/" + host + ext);
  }

  /** Every path ends in `/`, the host name and the extension of its kind of file. */
  lemma PathsEndInHost(d: SiteDirs, host: string, i: nat)
    requires i < 9
    ensures EndsWith(SingleFilePaths(d, host)[i], "/" + host + Suffix(i))
  {
    var paths := SingleFilePaths(d, host);
    var dir :=
      if i <= 1 then d.precompiledHostchecksDir
      else if i == 2 then d.autochecksDir
      else if i == 3 then d.countersDir
      else if i == 4 then d.tcpCacheDir
      else if i == 5 then d.varDir + "/persisted"
      else if i <= 7 then d.varDir + "/inventory"
      else d.varDir + "/agent_deployment";
    assert paths[i] == HostFile(dir, host, Suffix(i));
    HostFileEnds(dir, host, Suffix(i));
  }

  /**
   * The loop of `_delete_host_files` over the single files: each path is
   * deleted if it exists, so the files left are those no path names, and
   * no file outside the listed paths is touched.
   */
  method DeleteSingleFiles(fs: FileSystem, paths: seq<string>)
    modifies fs
    ensures fs.files == WithoutAll(old(fs.files), paths)
  {
    var i := 0;
    while i < |paths|
      invariant 0 <= i <= |paths|
      invariant fs.files == WithoutAll(old(fs.files), paths[..i])
    {
      fs.DeleteIfExists(paths[i]);
      assert paths[..i + 1] == paths[..i] + [paths[i]];
      WithoutAllSnoc(old(fs.files), paths[..i], paths[i]);
      i := i + 1;
    }
    assert paths[..i] == paths;
  }

  /** No path of `paths` names `p` or a directory above it. */
  predicate Survives(p: string, paths: seq<string>)
  {
    forall q :: q in paths ==> p != q && !Below(p, q)
  }

  /** The files left once each of `paths` is removed. */
  function WithoutAll(files: map<string, string>, paths: seq<string>): map<string, string>
  {
    map p | p in files && Survives(p, paths) :: files[p]
  }

  lemma SurvivesSnoc(p: string, paths: seq<string>, path: string)
    ensures Survives(p, paths + [path]) <==> Survives(p, paths) && p != path && !Below(p, path)
  {
    if Survives(p, paths + [path]) {
      forall q | q in paths ensures p != q && !Below(p, q) {
        assert q in paths + [path];
      }
      assert path in paths + [path];
    }
    if Survives(p, paths) && p != path && !Below(p, path) {
      forall q | q in paths + [path] ensures p != q && !Below(p, q) {
        if q != path {
          assert q in paths;
        }
      }
    }
  }

  lemma WithoutAllSnoc(files: map<string, string>, paths: seq<string>, path: string)
    ensures WithoutAll(files, paths + [path]) == Without(WithoutAll(files, paths), path)
  {
    var l := WithoutAll(files, paths + [path]);
    var r := Without(WithoutAll(files, paths), path);
    forall p ensures p in l <==> p in r {
      SurvivesSnoc(p, paths, path);
    }
    assert l.Keys == r.Keys;
  }
}
