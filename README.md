# Checkmk discovery automations, MSI patching and site filters — a Dafny model

This project models three deterministic pieces of Checkmk:

- **Discovery automations** (`cmk/base/automations/check_mk.py`). It covers:
  - the automatic rediscovery pass over the queue of hosts flagged by their discovery check, with its soft 120-second deadline, the fail-open livestatus filter and the final core reload or restart;
  - argument handling of `service-discovery`;
  - the forced check of the discovery service that is sent to the core;
  - the new / vanished / changed split of host labels in the discovery preview;
  - `set-autochecks-v2` for hosts and clusters;
  - the helpers of `rename-hosts` and `delete-hosts`;
  - the restart/reload decision;
  - the SNMP settings of `diag-host`;
  - the state clamp of `active-check`.
- **MSI patching** (`cmk/utils/msi_engine.py`). It covers the product version normalisation and the row-wise rewriting of the `File.idt`, `Component.idt` and `Property.idt` tables.
- **Site filters** (`cmk/gui/visuals/_site_filters.py`). It covers the `|`-separated site list, the case-insensitive site matcher and the site autocompleter.

## How it is modelled

- **Values and state.** Strings are `seq<char>`. Python exceptions are the `Err` case of a `Result`. KeyError lookups return an `Option`.
- **State updated in place.** Two things the automations change step by step are classes whose methods state the new state:
  - the marker directory of the autodiscovery queue (`Autodiscovery.AutoQueue`);
  - the site's files, a path→content map (`SiteFiles.FileSystem`).
- **Loops.** The loops of the source are `while` loops proved against specification functions. Examples:
  - `Gather` and `Cutoff` for the autodiscovery pass;
  - `Triggered` for the per-host loop of `service-discovery`;
  - `SortBy` for the in-place `list.sort`;
  - `LatestOf` for the modification-time maximum.
- **Outside world as inputs.** Everything outside the modelled code becomes a parameter:
  - `autodiscovery` and `automation_discovery` are functions from host name to outcome;
  - the livestatus answer is an `Option` (`None` when the query fails);
  - the monotonic clock is a function from the reading's index to a time;
  - file sizes are a map from file name to size;
  - `uuid.uuid1()` values are a function of the line number;
  - the edition test and the core type are booleans.
- **Python built-ins.** `sorted`/`list.sort` is a stable insertion sort by string key, and its stability is proved (`Sorting.SortByStable`). `str.split`, `str.join`, `strip`, `lstrip`, ASCII `lower`/`upper`, substring `in` and `str(n)` are written out in `Text`.

## Model

| member | source | states |
|---|---|---|
| `DiscoveryArgs.ExtractDirective` | cmk/base/automations/check_mk.py:251-254 | true iff the directive occurs; then the args minus exactly its first occurrence, the rest in order; otherwise the args unchanged |
| `DiscoveryArgs.ExtractDirectiveCounts` | cmk/base/automations/check_mk.py:251-254 | extraction removes one copy of the directive and keeps every other argument |
| `DiscoveryArgs.ParseDiscoveryArgs` | cmk/base/automations/check_mk.py:266-295 | the three directives are stripped; `@raiseerrors` selects RAISE; fewer than two remaining args is the "Need two arguments" error; the four legacy tokens select a discovery mode, anything else is structured settings; hosts are the remaining args from index 1 |
| `DiscoveryArgs.RemainingArgsDropDirectives` | cmk/base/automations/check_mk.py:266-268 | every non-directive argument survives, and each present directive shortens the list by one |
| `DiscoveryArgs.DiscoverHosts` | cmk/base/automations/check_mk.py:325-380 | the hosts are handled in order until the first one whose discovery raises under RAISE, which ends the automation with that error; without such a host the results have exactly the listed hosts as keys, each with its discovery result; the discovery check is triggered, in order, for the error-free hosts the guard admits among those handled before the raise; under IGNORE nothing raises |
| `DiscoveryArgs.DiscoveredMembers` | cmk/base/automations/check_mk.py:326-374 | the results map has an entry exactly for each listed host, holding that host's discovery result |
| `DiscoveryArgs.TriggeredMembers` | cmk/base/automations/check_mk.py:377-380 | a host is triggered iff it is listed, its result has no error and the guard admits it |
| `DiscoveryNotify.ForcedCheckMessage` | cmk/base/automations/check_mk.py:216-230 | the socket text is `COMMAND [now] ` followed by the command and a newline |
| `DiscoveryNotify.DiscoveryCommandSplits` | cmk/base/automations/check_mk.py:216-225 | the service scheduled is "Check_MK Discovery" or "Check_MK inventory", and the command sent for a host without `;` splits back into the command name, the host, that service and the time, plus TRY on the CMC |
| `DiscoveryNotify.ForcedCheckFields` | cmk/base/automations/check_mk.py:225 | the command splits on `;` into SCHEDULE_FORCED_SVC_CHECK, host, service, time, plus TRY exactly on the CMC |
| `DiscoveryNotify.TriggerDiscoveryCheck` | cmk/base/automations/check_mk.py:216-248 | nothing is sent unless autotrigger is on, the host is not command-line only and not a cluster; a failed send is swallowed unless debug is on |
| `DiscoveryPreview.MakeLabelsDict` | cmk/base/automations/check_mk.py:476-479 | the dict has one entry per label name, each a label of that name from the input |
| `DiscoveryPreview.MakeLabelsDictPicksLast` | cmk/base/automations/check_mk.py:476-479 | the entry for a name is the last label of that name in input order, because the sort is stable |
| `DiscoveryPreview.DictWhereEntries` | cmk/base/automations/check_mk.py:481-501 | each entry of a dictionary made from the labels filtered by name is the entry the dictionary of all labels has: the last label of that name |
| `DiscoveryPreview.ChangedLabelsKeys` | cmk/base/automations/check_mk.py:481-487 | the changed labels are exactly the vanished labels whose name is also new |
| `DiscoveryPreview.ChangedLabelsValues` | cmk/base/automations/check_mk.py:481-487 | a changed label has the entry of the vanished dictionary for its name, not the new value |
| `DiscoveryPreview.SplitLabelsKeys` | cmk/base/automations/check_mk.py:481-501 | changed = vanished ∩ new names, new = new − vanished, vanished = vanished − new |
| `DiscoveryPreview.SplitLabelsPartition` | cmk/base/automations/check_mk.py:481-501 | the name sets above, and the three outputs are pairwise disjoint |
| `DiscoveryPreview.SplitLabelsEntries` | cmk/base/automations/check_mk.py:481-501 | every entry of the three outputs is named by its key and is the last label of that name in the list it is reported for (vanished for changed labels) |
| `DiscoveryPreview.SplitCheckTables` | cmk/base/automations/check_mk.py:492-493 | the host's own table, and the tables of all other hosts; KeyError when the host has no table |
| `Autodiscovery.OldestOf` | cmk/base/automations/check_mk.py:744 | the smallest marker time, and none for an empty queue |
| `Autodiscovery.AutoQueue.Unmark` | cmk/base/automations/check_mk.py:796-828 | the marker of the host is removed and the other markers keep their order |
| `Autodiscovery.AutoQueue.RemoveUnconfigured` | cmk/base/automations/check_mk.py:738-742 | exactly the markers of hosts outside hosts ∪ clusters ∪ shadow hosts are removed, the rest keep their order |
| `Autodiscovery.Cutoff` | cmk/base/automations/check_mk.py:762-765 | the pass handles the longest prefix of the queue whose clock readings are not later than start + 120 |
| `Autodiscovery.GatherResults` | cmk/base/automations/check_mk.py:767-837 | a host has a result iff it was reached, is live (or livestatus failed), is not command-line only and its discovery returned a result |
| `Autodiscovery.GatherActivation` | cmk/base/automations/check_mk.py:832-837 | activation is required iff some recorded host asked for it |
| `Autodiscovery.DiscoverOne` | cmk/base/automations/check_mk.py:772-834 | a host that is not processed, or whose discovery check is command-line only, changes nothing; otherwise its marker is removed when `autodiscovery` consumes it, and a present result is recorded with its activation wish |
| `Autodiscovery.DiscoverQueued` | cmk/base/automations/check_mk.py:762-840 | the loop's results and flag are those of the hosts before the deadline cut, including the results gathered before a timeout; the queue afterwards lacks exactly the markers consumed for those hosts |
| `Autodiscovery.ConsumedMembers` | cmk/base/automations/check_mk.py:768-828 | a marker is consumed iff its host was handled, processed, not command-line only and `autodiscovery` removed it |
| `Autodiscovery.WithoutHostsMembers` | cmk/base/automations/check_mk.py:738-742 | dropping the markers of a set of hosts keeps exactly the other markers |
| `Autodiscovery.ExecuteAutodiscovery` | cmk/base/automations/check_mk.py:687-883 | empty queue: `({}, False)`, nothing loaded; stale markers removed; no marker left: `({}, False)`; the queue afterwards is the configured markers without those consumed before the deadline; no activation: no core contact; otherwise reload on the CMC or restart elsewhere with sorted duplicates, caches reset before and after, result True |
| `Autodiscovery.PassKeepsUnhandledMarkers` | cmk/base/automations/check_mk.py:762-840 | after the pass a configured marker is still queued iff its host was not handled before the deadline or `autodiscovery` did not consume it |
| `SetAutochecks.AutochecksWrites` | cmk/base/automations/check_mk.py:919-934 | a real host owns all target services; on a cluster each node is written those of its services whose id the cluster's target set contains, with the cluster as effective host |
| `SetAutochecks.ClusterNodeWrites` | cmk/base/automations/check_mk.py:926-934 | a node's service is written iff some target service of the cluster has the same id |
| `SetAutochecks.SetAutochecksV2` | cmk/base/automations/check_mk.py:919-936 | the writes above, and the discovery check is scheduled only under the trigger guard, never for a cluster |
| `SiteFiles.FileSystem.RenameHostFile` | cmk/base/automations/check_mk.py:1189-1195 | old→new replacing new and returning 1 when old exists; otherwise no change and 0 |
| `RenameHosts.RenameMovesContent` | cmk/base/automations/check_mk.py:1189-1195 | after the rename the content is under the new name only and every other file is untouched |
| `RenameHosts.EscapeForRegex` | cmk/base/automations/check_mk.py:1366-1367 | each `.` becomes `[.]`, so the result grows by two per dot |
| `RenameHosts.EscapeRoundTrip` | cmk/base/automations/check_mk.py:1366-1367 | for names without `[`, un-escaping gives the name back |
| `RenameHosts.EscapedDotsBracketed` | cmk/base/automations/check_mk.py:1366-1367 | every dot of the escaped name is enclosed in `[` and `]` |
| `RenameHosts.CountActions` | cmk/base/automations/check_mk.py:1102-1106 | the counts map has exactly the performed actions as keys, each with its number of occurrences |
| `SiteFiles.FileSystem.DeleteIfExists` | cmk/base/automations/check_mk.py:1628-1635 | the file, or the directory with everything below it, is removed and nothing else |
| `SiteFiles.WithoutIdempotent` | cmk/base/automations/check_mk.py:1628-1635 | deleting the same path twice is deleting it once |
| `DeleteHosts.KnownRemoteKeepsDeployment` | cmk/base/automations/check_mk.py:1644-1696 | the known-remote list is the first eight paths of the delete-hosts list, whose ninth and last path is the host's agent deployment state |
| `DeleteHosts.PathsEndInHost` | cmk/base/automations/check_mk.py:1645-1656 | each of the nine paths ends in `/`, the host name and the extension of its kind of file |
| `DeleteHosts.DeleteSingleFiles` | cmk/base/automations/check_mk.py:1665-1666 | exactly the files named by (or lying below) one of the paths are gone |
| `CoreMode.ModesAgreeOnCmc` | cmk/base/automations/check_mk.py:1720-1779 | on the CMC both automations choose the same action; elsewhere `restart` always restarts |
| `CoreMode.CheckPluginsHaveChanged` | cmk/base/automations/check_mk.py:1739-1750 | true iff some existing plugin directory has a file or directory time later than the last core start |
| `CoreMode.LastModificationInDir` | cmk/base/automations/check_mk.py:1752-1756 | the maximum of the directory's and its files' modification times |
| `CoreMode.LatestOfIsMax` | cmk/base/automations/check_mk.py:1752-1756 | the computed time bounds every time of the directory and is one of them |
| `CoreMode.RestartTimeReadsOnlyPidFile` | cmk/base/automations/check_mk.py:1758-1767 | the core start time depends only on the pid file of the core in use (`tmp/run/cmc.pid` on the CMC, `tmp/lock/nagios.lock` otherwise), is 0 when that file is missing, and the two cores use different files |
| `CoreMode.UntouchedPluginsReload` | cmk/base/automations/check_mk.py:1739-1779 | when the pid file exists and no plugin time is later than its time, `reload` reloads |
| `Diagnostics.V3Credentials` | cmk/base/automations/check_mk.py:2404-2431 | without a level the configured credentials stay; a missing required field raises TypeError; otherwise the tuple starts with the level |
| `Diagnostics.V3CredentialsShape` | cmk/base/automations/check_mk.py:2399-2430 | the tuple is (level, name), (level, proto, name, password) or those plus the privacy protocol and password for authPriv |
| `Diagnostics.V3LevelFromLength` | cmk/base/automations/check_mk.py:2399-2402 | tuples of length 2, 4 and 6 are exactly the three levels |
| `Diagnostics.SnmpModeOf` | cmk/base/automations/check_mk.py:2447-2463 | v1 without bulkwalk, v2c with and without, v3 with bulkwalk; any other test is not implemented |
| `Diagnostics.SnmpSetupOf` | cmk/base/automations/check_mk.py:2404-2463 | rule credentials override the form unless the host has an explicit community; without a v3 level the credentials are a community: the typed one, else the configured community, else the default community (also when the host is configured for SNMPv3); TypeError comes before "not implemented" |
| `Diagnostics.ServiceStateOf` | cmk/base/automations/check_mk.py:2639 | exit codes 0, 1, 2 are kept and anything else becomes 3 |
| `Diagnostics.ActiveCheckSummary` | cmk/base/automations/check_mk.py:2640 | the stripped output up to its first `|`, which it never contains |
| `Diagnostics.BeforePipeSplit` | cmk/base/automations/check_mk.py:2640 | the performance data after the first `|` is dropped and the text before it is kept whole |
| `MsiVersion.StripAsciiSuffix` | cmk/utils/msi_engine.py:187-194 | unchanged without a lowercase letter; otherwise cut before the first one with `0` appended after a trailing dot; IndexError when the cut is empty |
| `MsiVersion.ComponentsCanonical` | cmk/utils/msi_engine.py:197-205 | a version made of a canonical major (at most three digits, no leading zero) and canonical minor and build numbers splits back into those three parts |
| `MsiVersion.CanonicalProductVersion` | cmk/utils/msi_engine.py:197-211 | such a canonical version is kept as it is and gets `.` + revision appended |
| `MsiVersion.GenerateProductVersion` | cmk/utils/msi_engine.py:197-211 | every result ends in `.` + revision; an error exactly when the major starts with a lowercase letter |
| `MsiVersion.FallbackVersion` | cmk/utils/msi_engine.py:198-211 | fewer than three dotted parts give `1.0.0.` + revision |
| `MsiVersion.DailyBuildVersion` | cmk/utils/msi_engine.py:203-205 | `2015.04.12` gives `15.4.12.` + revision |
| `MsiVersion.InnovationReleaseVersion` | cmk/utils/msi_engine.py:187-211 | `1.7.0i1` gives `1.7.0.` + revision |
| `MsiTables.MsiFileTable` | cmk/utils/msi_engine.py:26 | the four cabinet files, sorted |
| `MsiTables.MsiComponentTable` | cmk/utils/msi_engine.py:27-34 | the four components, sorted |
| `MsiTables.PatchFileRow` | cmk/utils/msi_engine.py:110-126 | field 3 becomes the size only for table files that exist; field 4 becomes the build version if it was non-empty and stays empty otherwise; the other fields are unchanged |
| `MsiTables.PatchRows` | cmk/utils/msi_engine.py:108-111 | the header is copied, every data row is rewritten in place, the row count is kept, and the first bad row stops with IndexError |
| `MsiTables.PatchMsiFiles` | cmk/utils/msi_engine.py:103-126 | the patched File.idt has the same header and row count, each row patched as above |
| `MsiTables.FileRowResplit` | cmk/utils/msi_engine.py:126 | a written row splits back into exactly its patched fields |
| `MsiTables.PatchComponentRow` | cmk/utils/msi_engine.py:138-141 | a component row gets an upper-case braced UUID in field 1; every other row is unchanged |
| `MsiTables.PatchMsiComponents` | cmk/utils/msi_engine.py:129-141 | the patched Component.idt has the same header and row count, each row patched as above |
| `MsiTables.ComponentRowResplit` | cmk/utils/msi_engine.py:138-141 | the written row differs from the input in field 1 of a component row only |
| `MsiTables.PatchPropertyRow` | cmk/utils/msi_engine.py:149-161 | only ProductName, ProductCode and ProductVersion change; UpgradeCode and all other rows are untouched |
| `MsiTables.PatchMsiProperties` | cmk/utils/msi_engine.py:144-161 | the patched Property.idt has the same header and row count, each row patched as above |
| `MsiTables.ProductVersionParts` | cmk/utils/msi_engine.py:159 | the new ProductVersion is the first at most four dot-parts of the build version plus CRLF |
| `SiteFilters.GetRequestSites` | cmk/gui/visuals/_site_filters.py:124-125 | the stripped value split on `|` without empty pieces; `[]` for a missing variable; no element is empty or contains `|` |
| `SiteFilters.RequestSitesDropEmpty` | cmk/gui/visuals/_site_filters.py:124-125 | reading back a `|`-joined list of pieces gives the pieces in order, repetitions kept, with only the empty pieces dropped |
| `Text.NonEmptyAppend` | cmk/gui/visuals/_site_filters.py:125 | dropping empty strings distributes over concatenation, drops `""` and keeps every other string |
| `SiteFilters.RequestSitesRoundTrip` | cmk/gui/visuals/_site_filters.py:124-125 | a list of proper site names joined with `|` reads back as itself |
| `SiteFilters.MatchesIdOrTitle` | cmk/gui/visuals/_site_filters.py:153-154 | true iff the lowercased input occurs in the lowercased id (None as "") or title |
| `SiteFilters.EmptyIdentMatchesAll` | cmk/gui/visuals/_site_filters.py:153-154 | an empty input matches every choice |
| `SiteFilters.MatchIgnoresCase` | cmk/gui/visuals/_site_filters.py:153-154 | the match does not depend on the letter case of the input |
| `SiteFilters.TitleMatchesItself` | cmk/gui/visuals/_site_filters.py:153-154 | typing a choice's title in any case matches that choice |
| `SiteFilters.MatchingChoices` | cmk/gui/visuals/_site_filters.py:141 | exactly the matching options |
| `SiteFilters.MatchingChoicesAppend` | cmk/gui/visuals/_site_filters.py:141 | filtering distributes over concatenation, so the matches keep the option order and every repetition |
| `SiteFilters.MatchingChoicesSingle` | cmk/gui/visuals/_site_filters.py:141 | a single option is kept iff it matches |
| `SiteFilters.SortByTitle` | cmk/gui/visuals/_site_filters.py:143-144 | a stable permutation of the choices sorted by lowercase title |
| `SiteFilters.SitesAutocompleter` | cmk/gui/visuals/_site_filters.py:134-150 | every non-placeholder result matches; CME keeps the option order, other editions sort by lowercase title; a non-strict call puts ("", "All Sites") first; the length is the match count plus 0 or 1 |
| `SiteFilters.RequestVarsFromRow` | cmk/gui/visuals/_site_filters.py:107-108 | exactly `{"site": row["site"]}`; KeyError for a row without a site |

## Left out

- The discovery, preview and set-autochecks engines of `cmk.checkengine.discovery` are not part of this model. This covers `autodiscovery`, `automation_discovery`, `DiscoverySettings.from_discovery_mode`/`from_json` and `set_autochecks_for_effective_host`. They are parameters or opaque values, so the reconciliation itself (ripeness windows, enforced services, effective-host resolution) is not modelled.
- `AutoQueue` is not part of this model beyond its markers: the iteration order is the sequence order, and the markers' persistence and ordering code are not modelled.
- `Autodiscovery.DiscoverQueued`: the loop walks the hosts queued when it starts. Whether `autodiscovery` removes a host's marker is an input (`consumes`), and only the removal of that host's own marker is modelled. `oldest_queued` and the rediscovery reference time are passed on unmodelled.
- `DiscoveryArgs.DiscoverHosts`: which hosts make `automation_discovery` raise under RAISE is an input (`fails`); the exception itself is reduced to the host name.
- The livestatus query, the Unix socket send, `subprocess`, `os.system`, `omd` and `sed` calls, `py_compile`, file reads and writes and temporary directories are left out as I/O. Their outcomes are parameters where the code branches on them.
- The signal-based `Timeout(limit + 10)` around the autodiscovery loop is not modelled, because it is pre-emptive. Only the cooperative clock check before each host is.
- `config.load()`, `ConfigCache`, `create_core`, `do_reload`/`do_restart` and the cache manager are left out. They appear only as the ordered effects `LoadConfig`, `ClearCaches`, `InitializeConfigCache`, `Reload` and `Restart`, plus a boolean saying whether the core call raises.
- Floating point is not modelled: clock readings and file modification times are integers, and the float TCP timeout of `diag-host` is left out.
- Case mapping is not modelled beyond ASCII. `str.lower()`/`str.upper()` map only `A`–`Z`/`a`–`z`, so Unicode case folding is not captured.
- The UTF-8 `decode()` of the active-check output is not modelled: the output is treated as text.
- `Diagnostics.NotImplementedText`: Python's `repr` quoting is written for test names without quotes or backslashes, so the escaping of such names is not modelled.
- `DiscoveryPreview.MakeLabelsDict`: `HostLabel.to_dict()` is the label itself, and the key order of the dict is not modelled.
- `MsiTables.PatchRows`: the patched table is returned instead of being written to `<name>.new`, and file sizes and UUIDs are inputs.
- `SiteFilters.SitesAutocompleter`: the edition test and `sites_options()` are inputs, and the list is a sequence rewritten by the sort, not a list aliased elsewhere.
- The rest of `rename-hosts` is not modelled: history archive renaming, core stop/start, `_omd_rename_host` and the other renaming helpers only run external commands and file operations.
- The remaining deletion steps of `delete-hosts` are not modelled: the data source, baked agent and logwatch directories come from directory listings.
- `AutomationGetConfiguration`, the notification automations and the remaining automations of the file delegate to code outside this model.
