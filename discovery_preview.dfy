/**
 * The label part of the discovery preview (cmk/base/automations/check_mk.py,
 * `_get_discovery_preview`): the discovered host labels are turned into
 * dictionaries keyed by label name, and the vanished labels whose name comes
 * back with a new value are reported as changed instead of as vanished and new.
 */
module DiscoveryPreview {
  import opened Wrappers
  import opened Sorting

  /** A discovered host label; the dictionary value `to_dict()` makes of it is the label itself here. */
  datatype HostLabel = HostLabel(name: string, value: string, pluginName: Option<string>)

  function LabelName(l: HostLabel): string
  {
    l.name
  }

  /** The names of a list of labels. */
  function Names(labels: seq<HostLabel>): set<string>
  {
    set l | l in labels :: l.name
  }

  /** A dictionary comprehension over `s`: a later label replaces an earlier one of the same name. */
  function LastWins(s: seq<HostLabel>): (m: map<string, HostLabel>)
    ensures m.Keys == Names(s)
    ensures forall n :: n in m ==> m[n].name == n && m[n] in s
  {
    if s == [] then map[]
    else
      var init := s[..|s| - 1];
      var last := s[|s| - 1];
      assert s == init + [last];
      LastWins(init)[last.name := last]
  }

  /** The last element of a non-empty sequence. */
  function Last<T>(s: seq<T>): T
    requires s != []
  {
    s[|s| - 1]
  }

  lemma {:induction false} LastWinsIsLast(s: seq<HostLabel>, n: string)
    requires n in LastWins(s)
    ensures KeyRun(s, LabelName, n) != [] && LastWins(s)[n] == Last(KeyRun(s, LabelName, n))
  {
    var init := s[..|s| - 1];
    var last := s[|s| - 1];
    assert s == init + [last];
    KeyRunAppend(init, [last], LabelName, n);
    KeyRunSingle(last, LabelName, n);
    if last.name != n {
      LastWinsIsLast(init, n);
    }
  }

  /**
   * `make_discovered_host_labels`: the labels sorted by name, then put in a
   * dictionary. Every name gets one entry, and since the sort is stable, that
   * entry is the last label of that name in the input.
   */
  function MakeLabelsDict(labels: seq<HostLabel>): (m: map<string, HostLabel>)
    ensures m.Keys == Names(labels)
    ensures forall n :: n in m ==> m[n].name == n && m[n] in labels
  {
    var sorted := SortBy(labels, LabelName);
    assert Names(sorted) == Names(labels) by {
      forall l ensures l in sorted <==> l in labels {
        assert l in sorted <==> l in multiset(sorted);
      }
    }
    assert forall l :: l in sorted ==> l in multiset(labels);
    LastWins(sorted)
  }

  /** The entry for each name is the last label of that name, in input order. */
  lemma MakeLabelsDictPicksLast(labels: seq<HostLabel>, n: string)
    requires n in MakeLabelsDict(labels)
    ensures KeyRun(labels, LabelName, n) != []
    ensures MakeLabelsDict(labels)[n] == Last(KeyRun(labels, LabelName, n))
  {
    var sorted := SortBy(labels, LabelName);
    LastWinsIsLast(sorted, n);
    SortByStable(labels, LabelName, n);
  }

  /** The labels whose name is in `names` (`inside`) or not in it (`!inside`), in order. */
  function LabelsWhere(labels: seq<HostLabel>, names: set<string>, inside: bool): (r: seq<HostLabel>)
    ensures forall l :: l in r <==> l in labels && ((l.name in names) == inside)
  {
    if labels == [] then []
    else (if (labels[0].name in names) == inside then [labels[0]] else []) + LabelsWhere(labels[1..], names, inside)
  }

  datatype LabelSplit = LabelSplit(
    newLabels: map<string, HostLabel>,
    vanishedLabels: map<string, HostLabel>,
    changedLabels: map<string, HostLabel>)

  /** `make_discovered_host_labels([l for l in labels if l.name in names])`, or `not in` for `!inside`. */
  function DictWhere(labels: seq<HostLabel>, names: set<string>, inside: bool): (m: map<string, HostLabel>)
    ensures m.Keys == set n | n in Names(labels) && (n in names) == inside
    ensures forall n :: n in m ==> m[n].name == n && m[n] in labels
  {
    NamesWhere(labels, names, inside);
    MakeLabelsDict(LabelsWhere(labels, names, inside))
  }

  /** Every entry of `m` is named by its key and is the last label of that name in `labels`. */
  predicate EntriesAreLast(m: map<string, HostLabel>, labels: seq<HostLabel>)
  {
    forall n :: n in m ==>
      m[n].name == n && KeyRun(labels, LabelName, n) != [] && m[n] == Last(KeyRun(labels, LabelName, n))
  }

  /**
   * Each entry of the filtered dictionary is the entry the dictionary of all
   * labels has for that name, which is the last label of that name.
   */
  lemma DictWhereEntries(labels: seq<HostLabel>, names: set<string>, inside: bool)
    ensures forall n :: n in DictWhere(labels, names, inside) ==>
      n in MakeLabelsDict(labels) && DictWhere(labels, names, inside)[n] == MakeLabelsDict(labels)[n]
    ensures EntriesAreLast(DictWhere(labels, names, inside), labels)
  {
    WhereKeepsEntries(labels, names, inside);
    forall n | n in DictWhere(labels, names, inside)
      ensures KeyRun(labels, LabelName, n) != [] && MakeLabelsDict(labels)[n] == Last(KeyRun(labels, LabelName, n))
    {
      MakeLabelsDictPicksLast(labels, n);
    }
  }

  /** Filtering by a name set keeps every label of a name on the kept side, in order. */
  lemma {:induction false} KeyRunWhere(labels: seq<HostLabel>, names: set<string>, inside: bool, n: string)
    requires (n in names) == inside
    ensures KeyRun(LabelsWhere(labels, names, inside), LabelName, n) == KeyRun(labels, LabelName, n)
  {
    if labels != [] {
      var l := labels[0];
      var kept := if (l.name in names) == inside then [l] else [];
      KeyRunWhere(labels[1..], names, inside, n);
      KeyRunAppend(kept, LabelsWhere(labels[1..], names, inside), LabelName, n);
      if kept != [] {
        KeyRunSingle(l, LabelName, n);
      }
    }
  }

  /**
   * The dictionary of the filtered labels has, for each name it keeps, the
   * same entry as the dictionary of all labels: the last label of that name.
   */
  lemma WhereKeepsEntries(labels: seq<HostLabel>, names: set<string>, inside: bool)
    ensures forall n :: n in MakeLabelsDict(LabelsWhere(labels, names, inside)) ==>
      n in MakeLabelsDict(labels) && MakeLabelsDict(LabelsWhere(labels, names, inside))[n] == MakeLabelsDict(labels)[n]
  {
    var kept := LabelsWhere(labels, names, inside);
    NamesWhere(labels, names, inside);
    forall n | n in MakeLabelsDict(kept)
      ensures n in MakeLabelsDict(labels) && MakeLabelsDict(kept)[n] == MakeLabelsDict(labels)[n]
    {
      assert n in Names(kept);
      MakeLabelsDictPicksLast(kept, n);
      KeyRunWhere(labels, names, inside, n);
      MakeLabelsDictPicksLast(labels, n);
    }
  }

  /** The new / vanished / changed split of the preview. */
  function SplitLabels(newL: seq<HostLabel>, vanished: seq<HostLabel>): LabelSplit
  {
    var changed := DictWhere(vanished, MakeLabelsDict(newL).Keys, true);
    LabelSplit(
      DictWhere(newL, changed.Keys, false),
      DictWhere(vanished, changed.Keys, false),
      changed)
  }

  lemma NamesWhere(labels: seq<HostLabel>, names: set<string>, inside: bool)
    ensures Names(LabelsWhere(labels, names, inside)) == set n | n in Names(labels) && (n in names) == inside
  {
    var r := LabelsWhere(labels, names, inside);
    forall n | n in Names(labels) && (n in names) == inside ensures n in Names(r) {
      var l :| l in labels && l.name == n;
      assert l in r;
    }
  }

  /** The changed labels are the vanished labels whose name is also new. */
  lemma ChangedLabelsKeys(newL: seq<HostLabel>, vanished: seq<HostLabel>)
    ensures SplitLabels(newL, vanished).changedLabels.Keys == Names(vanished) * Names(newL)
  {
    var newNames := MakeLabelsDict(newL).Keys;
    var keys := DictWhere(vanished, newNames, true).Keys;
    forall n ensures n in keys <==> n in Names(vanished) * Names(newL) {
      assert n in keys <==> n in Names(vanished) && n in newNames;
    }
  }

  /** A changed label is reported with the entry the vanished dictionary has for its name. */
  lemma ChangedLabelsValues(newL: seq<HostLabel>, vanished: seq<HostLabel>)
    ensures forall n :: n in SplitLabels(newL, vanished).changedLabels ==>
      n in MakeLabelsDict(vanished) && SplitLabels(newL, vanished).changedLabels[n] == MakeLabelsDict(vanished)[n]
  {
    DictWhereEntries(vanished, MakeLabelsDict(newL).Keys, true);
  }

  /** Dropping the changed names from one list leaves the names the other list lacks. */
  lemma UnchangedKeys(own: seq<HostLabel>, other: seq<HostLabel>, changed: set<string>)
    requires changed == Names(own) * Names(other)
    ensures DictWhere(own, changed, false).Keys == Names(own) - Names(other)
  {
    var keys := DictWhere(own, changed, false).Keys;
    forall n ensures n in keys <==> n in Names(own) - Names(other) {
      assert n in keys <==> n in Names(own) && n !in changed;
    }
  }

  /** The name sets of the three outputs. */
  lemma SplitLabelsKeys(newL: seq<HostLabel>, vanished: seq<HostLabel>)
    ensures var r := SplitLabels(newL, vanished);
      && r.changedLabels.Keys == Names(vanished) * Names(newL)
      && r.newLabels.Keys == Names(newL) - Names(vanished)
      && r.vanishedLabels.Keys == Names(vanished) - Names(newL)
  {
    var r := SplitLabels(newL, vanished);
    ChangedLabelsKeys(newL, vanished);
    var changed := r.changedLabels.Keys;
    UnchangedKeys(newL, vanished, changed);
    UnchangedKeys(vanished, newL, changed);
  }

  /**
   * The changed labels are the vanished names that are also new; the new and
   * the vanished outputs keep only the names that are not changed, so the
   * three name sets are pairwise disjoint.
   */
  lemma SplitLabelsPartition(newL: seq<HostLabel>, vanished: seq<HostLabel>)
    ensures var r := SplitLabels(newL, vanished);
      && r.changedLabels.Keys == Names(vanished) * Names(newL)
      && r.newLabels.Keys == Names(newL) - Names(vanished)
      && r.vanishedLabels.Keys == Names(vanished) - Names(newL)
      && r.newLabels.Keys !! r.vanishedLabels.Keys
      && r.newLabels.Keys !! r.changedLabels.Keys
      && r.vanishedLabels.Keys !! r.changedLabels.Keys
  {
    SplitLabelsKeys(newL, vanished);
    var a, b := Names(newL), Names(vanished);
    assert (a - b) !! (b - a) && (a - b) !! (b * a) && (b - a) !! (b * a);
  }

  /**
   * Every entry of the three outputs is named by its key and is the last
   * label of that name in the list it is reported for: a changed label keeps
   * its vanished value.
   */
  lemma SplitLabelsEntries(newL: seq<HostLabel>, vanished: seq<HostLabel>)
    ensures var r := SplitLabels(newL, vanished);
      && EntriesAreLast(r.changedLabels, vanished)
      && EntriesAreLast(r.newLabels, newL)
      && EntriesAreLast(r.vanishedLabels, vanished)
  {
    var changed := DictWhere(vanished, MakeLabelsDict(newL).Keys, true);
    DictWhereEntries(vanished, MakeLabelsDict(newL).Keys, true);
    DictWhereEntries(newL, changed.Keys, false);
    DictWhereEntries(vanished, changed.Keys, false);
  }

  /** The check tables of the preview: the host's own table, and the tables of all other hosts. */
  datatype PreviewTables<T> = PreviewTables(checkTable: T, nodesCheckTable: map<string, T>)

  /** `check_preview.table[host_name]` raises KeyError when the host has no table. */
  function SplitCheckTables<T>(host: string, table: map<string, T>): (r: Option<PreviewTables<T>>)
    ensures r.None? <==> host !in table
    ensures r.Some? ==> r.value.checkTable == table[host]
    ensures r.Some? ==> r.value.nodesCheckTable.Keys == table.Keys - {host}
    ensures r.Some? ==> forall h :: h in r.value.nodesCheckTable ==> r.value.nodesCheckTable[h] == table[h]
  {
    if host in table then Some(PreviewTables(table[host], map h | h in table && h != host :: table[h]))
    else None
  }
}
