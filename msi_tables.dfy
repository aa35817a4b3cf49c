/**
 * Row-wise rewriting of the tab-separated Windows Installer tables
 * `File.idt`, `Component.idt` and `Property.idt` (cmk/utils/msi_engine.py).
 *
 * A table is the sequence of its lines as `readlines` returns them, line
 * terminators included. The first three lines are the table header and are
 * copied verbatim; every further line is split on tabs, some fields are
 * overwritten, and the fields are joined again. The patched table is returned
 * as a line sequence instead of being written to `<name>.new`.
 */
module MsiTables {
  import opened Wrappers
  import opened Text
  import opened Sorting

  /** Reading `words[i]` past the end of a row raises IndexError. */
  datatype PatchError = IndexError(line: nat)

  /** Number of header lines copied unchanged. */
  const HeaderLines: nat := 3

  function MsiFileList(): seq<string>
  {
    ["check_mk_install_yml", "checkmk.dat", "plugins_cap", "python_3.cab"]
  }

  function MsiComponentList(): seq<string>
  {
    ["check_mk_install_yml_", "checkmk.dat", "plugins_cap_", "python_3.cab"]
  }

  /** The files of the cabinet, sorted: already in sorted order. */
  function MsiFileTable(): (t: seq<string>)
    ensures SortedBy(t, Itself)
    ensures multiset(t) == multiset(MsiFileList())
  {
    var t := MsiFileList();
    SortedFour(t, 5, 0, 1);
    t
  }

  /** The components whose GUID is regenerated, sorted: already in sorted order. */
  function MsiComponentTable(): (t: seq<string>)
    ensures SortedBy(t, Itself)
    ensures multiset(t) == multiset(MsiComponentList())
  {
    var t := MsiComponentList();
    SortedFour(t, 5, 0, 1);
    t
  }

  function Min(a: nat, b: nat): nat
  {
    if a <= b then a else b
  }

  /** The header part of a table: its first three lines, or all of a shorter table. */
  function Header(lines: seq<string>): (h: seq<string>)
    ensures |h| == Min(HeaderLines, |lines|) && h == lines[..|h|]
  {
    lines[..Min(HeaderLines, |lines|)]
  }

  // ---------------------------------------------------------------- File.idt

  /**
   * One data row of `File.idt`. `sizes` maps the names of the files present
   * in the working directory to their size in bytes. Field 3 becomes the
   * size for a row naming a file of the cabinet that is present; field 4
   * becomes the build version if it was non-empty. Field 4 is read on every
   * row, so a row of fewer than five fields fails.
   */
  function PatchFileRow(words: seq<string>, sizes: map<string, nat>, versionBuild: string): (r: Option<seq<string>>)
    ensures r.None? <==> |words| < 5
    ensures r.Some? ==>
      && |r.value| == |words|
      && r.value[..3] == words[..3]
      && r.value[3] == (if words[0] in MsiFileTable() && words[0] in sizes then NatToString(sizes[words[0]]) else words[3])
      && r.value[4] == (if words[4] != "" then versionBuild else "")
      && r.value[5..] == words[5..]
  {
    if |words| < 5 then None
    else
      var name := words[0];
      var sized := if name in MsiFileTable() && name in sizes then words[3 := NatToString(sizes[name])] else words;
      Some(sized[4 := if sized[4] != "" then versionBuild else ""])
  }

  /**
   * The loop shared by the three patch functions: the header is copied, and
   * every data row is split on tabs, rewritten by `patch` (which is also given
   * the row's line number) and joined again.
   * A row that `patch` rejects stops the loop with an IndexError naming its
   * line; no earlier row was rejected.
   */
  method PatchRows(lines: seq<string>, patch: (nat, seq<string>) -> Option<seq<string>>)
    returns (out: Result<seq<string>, PatchError>)
    ensures out.Err? <==> exists i :: HeaderLines <= i < |lines| && patch(i, Split(lines[i], '\t')).None?
    ensures out.Err? ==>
      && HeaderLines <= out.error.line < |lines|
      && patch(out.error.line, Split(lines[out.error.line], '\t')).None?
      && forall i :: HeaderLines <= i < out.error.line ==> patch(i, Split(lines[i], '\t')).Some?
    ensures out.Ok? ==>
      && |out.value| == |lines|
      && Header(out.value) == Header(lines)
      && forall i :: HeaderLines <= i < |lines| ==>
           patch(i, Split(lines[i], '\t')).Some? && out.value[i] == Join(patch(i, Split(lines[i], '\t')).value, '\t')
  {
    var header := Header(lines);
    var written := header;
    var i := |header|;
    while i < |lines|
      invariant |written| == i <= |lines|
      invariant i >= |header| && written[..|header|] == header
      invariant forall j :: HeaderLines <= j < i ==>
        patch(j, Split(lines[j], '\t')).Some? && written[j] == Join(patch(j, Split(lines[j], '\t')).value, '\t')
    {
      var row := patch(i, Split(lines[i], '\t'));
      if row.None? {
        return Err(IndexError(i));
      }
      written := written + [Join(row.value, '\t')];
      i := i + 1;
    }
    assert Header(written) == written[..|header|];
    return Ok(written);
  }

  /** Patches `File.idt`; a row of fewer than five fields fails. */
  method PatchMsiFiles(lines: seq<string>, sizes: map<string, nat>, versionBuild: string)
    returns (out: Result<seq<string>, PatchError>)
    ensures out.Err? <==> exists i :: HeaderLines <= i < |lines| && |Split(lines[i], '\t')| < 5
    ensures out.Err? ==>
      && HeaderLines <= out.error.line < |lines|
      && |Split(lines[out.error.line], '\t')| < 5
      && forall i :: HeaderLines <= i < out.error.line ==> |Split(lines[i], '\t')| >= 5
    ensures out.Ok? ==>
      && |out.value| == |lines|
      && Header(out.value) == Header(lines)
      && forall i :: HeaderLines <= i < |lines| ==>
           PatchFileRow(Split(lines[i], '\t'), sizes, versionBuild).Some? &&
           out.value[i] == Join(PatchFileRow(Split(lines[i], '\t'), sizes, versionBuild).value, '\t')
  {
    out := PatchRows(lines, (_, words) => PatchFileRow(words, sizes, versionBuild));
  }

  /** A patched `File.idt` row re-splits into exactly its patched fields. */
  lemma FileRowResplit(line: string, sizes: map<string, nat>, versionBuild: string)
    requires '\t' !in versionBuild
    requires PatchFileRow(Split(line, '\t'), sizes, versionBuild).Some?
    ensures var fields := PatchFileRow(Split(line, '\t'), sizes, versionBuild).value;
      Split(Join(fields, '\t'), '\t') == fields
  {
    var words := Split(line, '\t');
    var fields := PatchFileRow(words, sizes, versionBuild).value;
    forall i | 0 <= i < |fields| ensures '\t' !in fields[i] {
      if i != 3 && i != 4 {
        assert fields[i] == words[i] by {
          if i < 3 { assert fields[..3][i] == words[..3][i]; }
          else { assert fields[5..][i - 5] == words[5..][i - 5]; }
        }
      }
    }
    SplitJoin(fields, '\t');
  }

  // ----------------------------------------------------------- Component.idt

  /** The GUID text written for a component: braced and upper-cased. */
  function BracedUuid(uuid: string): (g: string)
    ensures |g| == |uuid| + 2 && g[0] == '{' && g[|g| - 1] == '}'
    ensures forall i :: 0 <= i < |uuid| ==> g[i + 1] == UpperChar(uuid[i])
  {
    Upper("{" + uuid + "}")
  }

  /**
   * One data row of `Component.idt`: a row naming a component of the table
   * gets a fresh GUID in field 1 (and fails if it has no field 1); any other
   * row is unchanged.
   */
  function PatchComponentRow(words: seq<string>, uuid: string): (r: Option<seq<string>>)
    ensures r.None? <==> |words| >= 1 && words[0] in MsiComponentTable() && |words| < 2
    ensures r.Some? && |words| >= 1 && words[0] in MsiComponentTable() ==> r.value == words[1 := BracedUuid(uuid)]
    ensures r.Some? && !(|words| >= 1 && words[0] in MsiComponentTable()) ==> r.value == words
  {
    if |words| >= 1 && words[0] in MsiComponentTable() then
      if |words| < 2 then None else Some(words[1 := BracedUuid(uuid)])
    else Some(words)
  }

  /**
   * Patches `Component.idt`. `uuids(i)` is the time-based UUID generated for
   * the row on line `i`.
   */
  method PatchMsiComponents(lines: seq<string>, uuids: nat -> string)
    returns (out: Result<seq<string>, PatchError>)
    ensures out.Err? <==> exists i :: HeaderLines <= i < |lines| && PatchComponentRow(Split(lines[i], '\t'), uuids(i)).None?
    ensures out.Err? ==> HeaderLines <= out.error.line < |lines|
    ensures out.Ok? ==>
      && |out.value| == |lines|
      && Header(out.value) == Header(lines)
      && forall i :: HeaderLines <= i < |lines| ==>
           PatchComponentRow(Split(lines[i], '\t'), uuids(i)).Some? &&
           out.value[i] == Join(PatchComponentRow(Split(lines[i], '\t'), uuids(i)).value, '\t')
  {
    out := PatchRows(lines, (i: nat, words) => PatchComponentRow(words, uuids(i)));
  }

  /** Upper-casing only touches lowercase letters, so it introduces no tab. */
  lemma NoTabInBracedUuid(uuid: string)
    requires '\t' !in uuid
    ensures '\t' !in BracedUuid(uuid)
  {
    var g := BracedUuid(uuid);
    forall i | 0 <= i < |g| ensures g[i] != '\t' {
      if 0 < i < |g| - 1 {
        assert g[i] == UpperChar(uuid[i - 1]);
      }
    }
  }

  /**
   * A patched `Component.idt` row re-splits into its fields: a component
   * row differs from the original in field 1 only, any other row not at all.
   */
  lemma ComponentRowResplit(line: string, uuid: string)
    requires '\t' !in uuid
    requires PatchComponentRow(Split(line, '\t'), uuid).Some?
    ensures var words := Split(line, '\t');
      var fields := Split(Join(PatchComponentRow(words, uuid).value, '\t'), '\t');
      && |fields| == |words|
      && (forall i :: 0 <= i < |words| && i != 1 ==> fields[i] == words[i])
      && (words[0] in MsiComponentTable() ==> fields[1] == BracedUuid(uuid))
      && (words[0] !in MsiComponentTable() ==> fields == words)
  {
    var words := Split(line, '\t');
    var patched := PatchComponentRow(words, uuid).value;
    NoTabInBracedUuid(uuid);
    forall i | 0 <= i < |patched| ensures '\t' !in patched[i] {
      if i != 1 || words[0] !in MsiComponentTable() {
        assert patched[i] == words[i];
      }
    }
    SplitJoin(patched, '\t');
  }

  // ------------------------------------------------------------ Property.idt

  /** The first four dot-separated parts of the build version, with a CRLF line end. */
  function ProductVersionField(versionBuild: string): string
  {
    var parts := Split(versionBuild, '.');
    Join(parts[..Min(4, |parts|)], '.') + "\r\n"
  }

  /**
   * One data row of `Property.idt`: the values of `ProductName`,
   * `ProductCode` and `ProductVersion` are replaced (and a row of theirs
   * without a value fails); every other property, `UpgradeCode` included, is
   * unchanged.
   */
  function PatchPropertyRow(tokens: seq<string>, productCode: string, versionBuild: string): (r: Option<seq<string>>)
    ensures var patched := |tokens| >= 1 && tokens[0] in {"ProductName", "ProductCode", "ProductVersion"};
      && (r.None? <==> patched && |tokens| < 2)
      && (r.Some? && !patched ==> r.value == tokens)
      && (r.Some? && patched ==> |r.value| == |tokens| && r.value[0] == tokens[0] && r.value[2..] == tokens[2..])
      && (r.Some? && patched && tokens[0] == "ProductName" ==> r.value[1] == "Check MK Agent 2.1\r\n")
      && (r.Some? && patched && tokens[0] == "ProductCode" ==> r.value[1] == productCode)
      && (r.Some? && patched && tokens[0] == "ProductVersion" ==> r.value[1] == ProductVersionField(versionBuild))
  {
    if |tokens| == 0 then Some(tokens)
    else if tokens[0] == "ProductName" then
      if |tokens| < 2 then None else Some(tokens[1 := "Check MK Agent 2.1\r\n"])
    else if tokens[0] == "ProductCode" then
      if |tokens| < 2 then None else Some(tokens[1 := productCode])
    else if tokens[0] == "ProductVersion" then
      if |tokens| < 2 then None else Some(tokens[1 := ProductVersionField(versionBuild)])
    else Some(tokens)
  }

  /** Patches `Property.idt`. */
  method PatchMsiProperties(lines: seq<string>, productCode: string, versionBuild: string)
    returns (out: Result<seq<string>, PatchError>)
    ensures out.Err? <==> exists i :: HeaderLines <= i < |lines| && PatchPropertyRow(Split(lines[i], '\t'), productCode, versionBuild).None?
    ensures out.Err? ==> HeaderLines <= out.error.line < |lines|
    ensures out.Ok? ==>
      && |out.value| == |lines|
      && Header(out.value) == Header(lines)
      && forall i :: HeaderLines <= i < |lines| ==>
           PatchPropertyRow(Split(lines[i], '\t'), productCode, versionBuild).Some? &&
           out.value[i] == Join(PatchPropertyRow(Split(lines[i], '\t'), productCode, versionBuild).value, '\t')
  {
    out := PatchRows(lines, (_, tokens) => PatchPropertyRow(tokens, productCode, versionBuild));
  }

  /**
   * The new `ProductVersion` value, without its line end, splits on dots
   * into the first (at most) four parts of the build version.
   */
  lemma ProductVersionParts(versionBuild: string)
    ensures var parts := Split(versionBuild, '.');
      var v := ProductVersionField(versionBuild);
      && |v| >= 2 && v[|v| - 2..] == "\r\n"
      && Split(v[..|v| - 2], '.') == parts[..Min(4, |parts|)]
      && 1 <= |Split(v[..|v| - 2], '.')| <= 4
  {
    var parts := Split(versionBuild, '.');
    var kept := parts[..Min(4, |parts|)];
    var v := ProductVersionField(versionBuild);
    assert v[..|v| - 2] == Join(kept, '.');
    assert forall i :: 0 <= i < |kept| ==> kept[i] == parts[i];
    SplitJoin(kept, '.');
  }
}
