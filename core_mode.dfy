/**
 * Whether the `restart` and `reload` automations (cmk/base/automations/check_mk.py)
 * restart the monitoring core or only reload it. A restart is needed once
 * local check plugins have been modified after the core was last started.
 *
 * Modification times are whole numbers here; a missing plugin directory is
 * an `Option` that is `None`, a missing pid file a path absent from the map
 * of file times.
 */
module CoreMode {
  import opened Wrappers

  datatype CoreAction = Restart | Reload

  /** A directory of local plugins: its own modification time and those of the files in it. */
  datatype PluginDir = PluginDir(mtime: int, fileMtimes: seq<int>)

  /** The file whose modification time tells when the core was started, relative to the site directory. */
  function PidFile(isCmc: bool): string
  {
    if isCmc then "tmp/run/cmc.pid" else "tmp/lock/nagios.lock"
  }

  /**
   * The start time of the core: the modification time of the CMC's pid file
   * or of the Nagios lock file, 0 when that file does not exist. `mtimes`
   * holds the modification times of the site's existing files.
   */
  function TimeOfLastCoreRestart(isCmc: bool, mtimes: map<string, int>): (t: int)
    ensures isCmc && "tmp/run/cmc.pid" in mtimes ==> t == mtimes["tmp/run/cmc.pid"]
    ensures !isCmc && "tmp/lock/nagios.lock" in mtimes ==> t == mtimes["tmp/lock/nagios.lock"]
    ensures PidFile(isCmc) !in mtimes ==> t == 0
  {
    var path := PidFile(isCmc);
    if path in mtimes then mtimes[path] else 0
  }

  /**
   * Only the file of the core in use is read: the time of any other file,
   * including the other core's file, does not change the result, and
   * removing the core's own file makes it 0.
   */
  lemma RestartTimeReadsOnlyPidFile(isCmc: bool, mtimes: map<string, int>, path: string, time: int)
    requires path != PidFile(isCmc)
    ensures TimeOfLastCoreRestart(isCmc, mtimes[path := time]) == TimeOfLastCoreRestart(isCmc, mtimes)
    ensures TimeOfLastCoreRestart(isCmc, mtimes - {PidFile(isCmc)}) == 0
    ensures PidFile(true) != PidFile(false)
  {
  }

  /** The latest of a directory's modification time and those of its files. */
  function LatestOf(dir: PluginDir): int
    decreases |dir.fileMtimes|
  {
    if dir.fileMtimes == [] then dir.mtime
    else
      var rest := LatestOf(PluginDir(dir.mtime, dir.fileMtimes[..|dir.fileMtimes| - 1]));
      var last := dir.fileMtimes[|dir.fileMtimes| - 1];
      if last > rest then last else rest
  }

  /** The latest time is one of the times, and no time is later. */
  lemma {:induction false} LatestOfIsMax(dir: PluginDir)
    ensures dir.mtime <= LatestOf(dir)
    ensures forall i :: 0 <= i < |dir.fileMtimes| ==> dir.fileMtimes[i] <= LatestOf(dir)
    ensures LatestOf(dir) == dir.mtime || exists i :: 0 <= i < |dir.fileMtimes| && dir.fileMtimes[i] == LatestOf(dir)
    decreases |dir.fileMtimes|
  {
    if dir.fileMtimes != [] {
      var init := PluginDir(dir.mtime, dir.fileMtimes[..|dir.fileMtimes| - 1]);
      LatestOfIsMax(init);
      assert forall i :: 0 <= i < |init.fileMtimes| ==> init.fileMtimes[i] == dir.fileMtimes[i];
    }
  }

  /** `_last_modification_in_dir`: the running maximum over the files of the directory. */
  method LastModificationInDir(dir: PluginDir) returns (maxTime: int)
    ensures maxTime == LatestOf(dir)
    ensures dir.mtime <= maxTime && forall i :: 0 <= i < |dir.fileMtimes| ==> dir.fileMtimes[i] <= maxTime
  {
    maxTime := dir.mtime;
    var i := 0;
    while i < |dir.fileMtimes|
      invariant 0 <= i <= |dir.fileMtimes|
      invariant maxTime == LatestOf(PluginDir(dir.mtime, dir.fileMtimes[..i]))
    {
      assert dir.fileMtimes[..i + 1][..i] == dir.fileMtimes[..i];
      if dir.fileMtimes[i] > maxTime {
        maxTime := dir.fileMtimes[i];
      }
      i := i + 1;
    }
    assert dir.fileMtimes[..i] == dir.fileMtimes;
    LatestOfIsMax(dir);
  }

  /** Some existing plugin directory holds something newer than the last core start. */
  predicate ChangedSince(dirs: seq<Option<PluginDir>>, lastTime: int)
  {
    exists i :: 0 <= i < |dirs| && dirs[i].Some? && LatestOf(dirs[i].value) > lastTime
  }

  /**
   * `_check_plugins_have_changed`: the local check and agent based plugin
   * directories, in that order, are compared with the last core start; a
   * missing directory is skipped.
   */
  method CheckPluginsHaveChanged(dirs: seq<Option<PluginDir>>, isCmc: bool, mtimes: map<string, int>) returns (changed: bool)
    ensures changed <==> ChangedSince(dirs, TimeOfLastCoreRestart(isCmc, mtimes))
  {
    var lastTime := TimeOfLastCoreRestart(isCmc, mtimes);
    var i := 0;
    while i < |dirs|
      invariant 0 <= i <= |dirs|
      invariant forall j :: 0 <= j < i && dirs[j].Some? ==> LatestOf(dirs[j].value) <= lastTime
    {
      if dirs[i].Some? {
        var thisTime := LastModificationInDir(dirs[i].value);
        if thisTime > lastTime {
          return true;
        }
      }
      i := i + 1;
    }
    return false;
  }

  /** The mode of the `restart` automation: a reload only on the CMC with unchanged plugins. */
  function RestartAutomationMode(isCmc: bool, pluginsChanged: bool): (a: CoreAction)
    ensures a == Reload <==> isCmc && !pluginsChanged
  {
    if isCmc && !pluginsChanged then Reload else Restart
  }

  /** The mode of the `reload` automation: a restart only when plugins changed. */
  function ReloadAutomationMode(pluginsChanged: bool): (a: CoreAction)
    ensures a == Restart <==> pluginsChanged
  {
    if pluginsChanged then Restart else Reload
  }

  /**
   * The two automations agree on the CMC; elsewhere `restart` always
   * restarts, while `reload` restarts only for changed plugins.
   */
  lemma ModesAgreeOnCmc(isCmc: bool, pluginsChanged: bool)
    ensures isCmc ==> RestartAutomationMode(isCmc, pluginsChanged) == ReloadAutomationMode(pluginsChanged)
    ensures !isCmc ==> RestartAutomationMode(isCmc, pluginsChanged) == Restart
    ensures ReloadAutomationMode(pluginsChanged) == Reload ==> !pluginsChanged
  {
  }

  /** Touching no plugin since the core started never forces a restart of the `reload` automation. */
  lemma UntouchedPluginsReload(dirs: seq<Option<PluginDir>>, isCmc: bool, mtimes: map<string, int>)
    requires PidFile(isCmc) in mtimes
    requires forall i :: 0 <= i < |dirs| && dirs[i].Some? ==>
      dirs[i].value.mtime <= mtimes[PidFile(isCmc)]
      && forall j :: 0 <= j < |dirs[i].value.fileMtimes| ==> dirs[i].value.fileMtimes[j] <= mtimes[PidFile(isCmc)]
    ensures !ChangedSince(dirs, TimeOfLastCoreRestart(isCmc, mtimes))
    ensures ReloadAutomationMode(ChangedSince(dirs, TimeOfLastCoreRestart(isCmc, mtimes))) == Reload
  {
    forall i | 0 <= i < |dirs| && dirs[i].Some? ensures LatestOf(dirs[i].value) <= mtimes[PidFile(isCmc)] {
      LatestOfIsMax(dirs[i].value);
    }
  }
}
