/**
 * Product version normalisation of the MSI patcher (cmk/utils/msi_engine.py):
 * Windows Installer accepts only dotted numbers, so suffixes such as `i1`,
 * `p3` or `b2` are cut off and a revision number is appended.
 */
module MsiVersion {
  import opened Wrappers
  import opened Text

  /** `result[-1]` on an empty string raises IndexError. */
  datatype VersionError = IndexError

  predicate IsAsciiLower(c: char)
  {
    'a' <= c <= 'z'
  }

  /** Position of the first match of `[a-z]`, or `|s|` when there is none. */
  function FirstLower(s: string): (k: nat)
    ensures k <= |s|
    ensures forall i :: 0 <= i < k ==> !IsAsciiLower(s[i])
    ensures k < |s| ==> IsAsciiLower(s[k])
  {
    if s == [] || IsAsciiLower(s[0]) then 0 else 1 + FirstLower(s[1..])
  }

  /**
   * Cuts `version` before its first lowercase ASCII letter and re-completes a
   * trailing dot with `0`. A version that starts with a lowercase letter
   * leaves an empty prefix, on which the source fails with IndexError.
   */
  function StripAsciiSuffix(version: string): (r: Result<string, VersionError>)
    ensures r.Err? <==> version != [] && IsAsciiLower(version[0])
    ensures (forall i :: 0 <= i < |version| ==> !IsAsciiLower(version[i])) ==> r == Ok(version)
    ensures r.Ok? ==> forall i :: 0 <= i < |r.value| ==> !IsAsciiLower(r.value[i])
    ensures r.Ok? && FirstLower(version) < |version| ==>
      var k := FirstLower(version);
      && 0 < k <= |r.value|
      && r.value[..k] == version[..k]
      && (if version[k - 1] == '.' then r.value == version[..k] + "0" else r.value == version[..k])
  {
    var k := FirstLower(version);
    if k < |version| then
      var result := version[..k];
      if result == [] then Err(IndexError)
      else if result[|result| - 1] == '.' then Ok(result + "0")
      else Ok(result)
    else Ok(version)
  }

  /** The dotted parts of the version before its first `-`. */
  function VersionParts(version: string): seq<string>
  {
    Split(Split(version, '-')[0], '.')
  }

  /** A minor or build part: leading zeros removed, `0` when nothing is left. */
  function NumberPart(part: string): (r: string)
    ensures r != "" && LStrip(r, '0') == LStrip(part, '0')
    ensures r == "0" || r[0] != '0'
  {
    var p := LStrip(part, '0');
    LStripIdempotent(part, '0');
    if p == "" then
      assert LStrip("0", '0') == LStrip("", '0') == "";
      "0"
    else p
  }

  /** The major part: leading zeros removed; a daily-build year such as `2015` loses its first two digits. */
  function MajorPart(part: string): (r: string)
    ensures |LStrip(part, '0')| <= 3 ==> r == LStrip(part, '0')
    ensures |LStrip(part, '0')| > 3 ==> r == LStrip(LStrip(part, '0')[2..], '0')
    ensures r == [] || r[0] != '0'
  {
    var major := LStrip(part, '0');
    if |major| > 3 then LStrip(major[2..], '0') else major
  }

  /**
   * The try block of `generate_product_version`: major, minor and build as
   * normalised above; `1`, `0`, `0` when the version has fewer than three
   * dotted parts (the unpacking raises and the defaults stay).
   */
  function Components(version: string): (c: (string, string, string))
    ensures |VersionParts(version)| < 3 ==> c == ("1", "0", "0")
    ensures |VersionParts(version)| >= 3 ==>
      c == (MajorPart(VersionParts(version)[0]), NumberPart(VersionParts(version)[1]), NumberPart(VersionParts(version)[2]))
  {
    var parts := VersionParts(version);
    if |parts| < 3 then ("1", "0", "0")
    else (MajorPart(parts[0]), NumberPart(parts[1]), NumberPart(parts[2]))
  }

  /** The last step: `major.minor.build` without suffix, then `.` and the revision. */
  function ProductVersion(c: (string, string, string), revision: string): (r: Result<string, VersionError>)
    ensures r.Ok? ==> |r.value| > |revision| && r.value[|r.value| - |revision| - 1..] == "." + revision
    ensures r.Err? <==> c.0 != [] && IsAsciiLower(c.0[0])
  {
    var joined := c.0 + "." + c.1 + "." + c.2;
    assert c.0 != [] ==> joined[0] == c.0[0];
    assert c.0 == [] ==> joined[0] == '.';
    match StripAsciiSuffix(joined)
    case Ok(pv) => Ok(pv + "." + revision)
    case Err(e) => Err(e)
  }

  /** `generate_product_version(version, revision_text=revision)`. */
  function GenerateProductVersion(version: string, revision: string): (r: Result<string, VersionError>)
    ensures r.Ok? ==> |r.value| > |revision| && r.value[|r.value| - |revision| - 1..] == "." + revision
    ensures r.Err? <==> var c := Components(version); c.0 != [] && IsAsciiLower(c.0[0])
  {
    ProductVersion(Components(version), revision)
  }

  /** Fewer than three dotted parts fall back to `1.0.0`. */
  lemma FallbackVersion(version: string, revision: string)
    requires |VersionParts(version)| < 3
    ensures GenerateProductVersion(version, revision) == Ok("1.0.0" + "." + revision)
  {
    var c := Components(version);
    var joined := c.0 + "." + c.1 + "." + c.2;
    assert joined == "1.0.0";
    assert forall i :: 0 <= i < |joined| ==> !IsAsciiLower(joined[i]);
    assert StripAsciiSuffix(joined) == Ok("1.0.0");
  }

  /** A version written as three dot-separated parts without `-` has exactly those parts. */
  lemma ThreeParts(a: string, b: string, c: string)
    requires '-' !in a && '-' !in b && '-' !in c
    requires '.' !in a && '.' !in b && '.' !in c
    ensures VersionParts(a + "." + b + "." + c) == [a, b, c]
  {
    var v := a + "." + b + "." + c;
    assert '-' !in v by {
      forall i | 0 <= i < |v| ensures v[i] != '-' {
        if i < |a| { assert v[i] == a[i]; }
        else if i == |a| { }
        else if i < |a| + 1 + |b| { assert v[i] == b[i - |a| - 1]; }
        else if i == |a| + 1 + |b| { }
        else { assert v[i] == c[i - |a| - |b| - 2]; }
      }
    }
    SplitNoSep(v, '-');
    var parts := [a, b, c];
    assert Join(parts[2..], '.') == c;
    assert Join(parts[1..], '.') == b + "." + c;
    assert Join(parts, '.') == v;
    SplitJoin(parts, '.');
  }

  lemma ComponentsOfParts(version: string, a: string, b: string, c: string)
    requires VersionParts(version) == [a, b, c]
    ensures Components(version) == (MajorPart(a), NumberPart(b), NumberPart(c))
  {
    var parts := VersionParts(version);
    assert |parts| == 3 && parts[0] == a && parts[1] == b && parts[2] == c;
  }

  /** A run of decimal digits. */
  predicate IsNumeral(s: string)
  {
    s != [] && forall i :: 0 <= i < |s| ==> IsDigit(s[i])
  }

  /** A numeral as the normalisation writes it: no leading zero, except `0` itself. */
  predicate IsCanonicalNumeral(s: string)
  {
    IsNumeral(s) && (s == "0" || s[0] != '0')
  }

  /** A major version the normalisation leaves alone: up to three digits, no leading zero. */
  predicate IsCanonicalMajor(s: string)
  {
    IsNumeral(s) && s[0] != '0' && |s| <= 3
  }

  lemma LStripNoLeading(s: string, c: char)
    requires s == [] || s[0] != c
    ensures LStrip(s, c) == s
  {
  }

  lemma NumberPartCanonical(s: string)
    requires IsCanonicalNumeral(s)
    ensures NumberPart(s) == s
  {
    if s != "0" {
      LStripNoLeading(s, '0');
    }
  }

  lemma MajorPartCanonical(s: string)
    requires IsCanonicalMajor(s)
    ensures MajorPart(s) == s
  {
    LStripNoLeading(s, '0');
  }

  /** The characters of `a.b.c` are those of the parts and the two dots. */
  lemma DottedChars(a: string, b: string, c: string, p: char -> bool)
    requires forall i :: 0 <= i < |a| ==> p(a[i])
    requires forall i :: 0 <= i < |b| ==> p(b[i])
    requires forall i :: 0 <= i < |c| ==> p(c[i])
    requires p('.')
    ensures var v := a + "." + b + "." + c; forall i :: 0 <= i < |v| ==> p(v[i])
  {
    var v := a + "." + b + "." + c;
    forall i | 0 <= i < |v| ensures p(v[i]) {
      if i < |a| { assert v[i] == a[i]; }
      else if i == |a| { assert v[i] == '.'; }
      else if i < |a| + 1 + |b| { assert v[i] == b[i - |a| - 1]; }
      else if i == |a| + 1 + |b| { assert v[i] == '.'; }
      else { assert v[i] == c[i - |a| - |b| - 2]; }
    }
  }

  /**
   * A version already in normal form is read back part by part: the
   * normalisation of the three components is the identity on it.
   */
  lemma ComponentsCanonical(a: string, b: string, c: string)
    requires IsCanonicalMajor(a) && IsCanonicalNumeral(b) && IsCanonicalNumeral(c)
    ensures Components(a + "." + b + "." + c) == (a, b, c)
  {
    assert '-' !in a && '.' !in a by { assert forall i :: 0 <= i < |a| ==> IsDigit(a[i]); }
    assert '-' !in b && '.' !in b by { assert forall i :: 0 <= i < |b| ==> IsDigit(b[i]); }
    assert '-' !in c && '.' !in c by { assert forall i :: 0 <= i < |c| ==> IsDigit(c[i]); }
    ThreeParts(a, b, c);
    ComponentsOfParts(a + "." + b + "." + c, a, b, c);
    MajorPartCanonical(a);
    NumberPartCanonical(b);
    NumberPartCanonical(c);
  }

  /** A version in normal form only gets the revision appended. */
  lemma CanonicalProductVersion(a: string, b: string, c: string, revision: string)
    requires IsCanonicalMajor(a) && IsCanonicalNumeral(b) && IsCanonicalNumeral(c)
    ensures GenerateProductVersion(a + "." + b + "." + c, revision) == Ok(a + "." + b + "." + c + "." + revision)
  {
    var v := a + "." + b + "." + c;
    ComponentsCanonical(a, b, c);
    DottedChars(a, b, c, NotLower);
    assert forall i :: 0 <= i < |v| ==> !IsAsciiLower(v[i]);
    assert StripAsciiSuffix(v) == Ok(v);
  }

  predicate NotLower(ch: char)
  {
    !IsAsciiLower(ch)
  }

  lemma DailyBuildMajor()
    ensures MajorPart("2015") == "15"
  {
    assert LStrip("2015", '0') == "2015";
    assert "2015"[2..] == "15";
    assert LStrip("15", '0') == "15";
  }

  lemma DailyBuildMinor()
    ensures NumberPart("04") == "4"
  {
    assert "04"[0] == '0' && "04"[1..] == "4";
    assert LStrip("4", '0') == "4";
    assert LStrip("04", '0') == "4";
  }

  lemma DailyBuildBuild()
    ensures NumberPart("12") == "12"
  {
    assert LStrip("12", '0') == "12";
  }

  lemma DailyBuildComponents(version: string)
    requires version == "2015.04.12"
    ensures Components(version) == ("15", "4", "12")
  {
    ThreeParts("2015", "04", "12");
    assert "2015" + "." + "04" + "." + "12" == version;
    ComponentsOfParts(version, "2015", "04", "12");
    DailyBuildMajor();
    DailyBuildMinor();
    DailyBuildBuild();
  }

  /** A daily build `2015.04.12` becomes `15.4.12`. */
  lemma DailyBuildVersion(version: string, revision: string)
    requires version == "2015.04.12"
    ensures GenerateProductVersion(version, revision) == Ok("15.4.12" + "." + revision)
  {
    DailyBuildComponents(version);
    DailyBuildProductVersion(Components(version), revision);
  }

  lemma DailyBuildProductVersion(c: (string, string, string), revision: string)
    requires c == ("15", "4", "12")
    ensures ProductVersion(c, revision) == Ok("15.4.12" + "." + revision)
  {
    var joined := c.0 + "." + c.1 + "." + c.2;
    assert joined == "15.4.12";
    assert forall i :: 0 <= i < |joined| ==> !IsAsciiLower(joined[i]);
  }

  lemma InnovationReleaseParts()
    ensures MajorPart("1") == "1" && NumberPart("7") == "7"
  {
    assert LStrip("1", '0') == "1";
    assert LStrip("7", '0') == "7";
  }

  lemma InnovationReleaseBuild()
    ensures NumberPart("0i1") == "i1"
  {
    assert "0i1"[0] == '0' && "0i1"[1..] == "i1";
    assert LStrip("i1", '0') == "i1";
    assert LStrip("0i1", '0') == "i1";
  }

  lemma InnovationReleaseComponents(version: string)
    requires version == "1.7.0i1"
    ensures Components(version) == ("1", "7", "i1")
  {
    ThreeParts("1", "7", "0i1");
    assert "1" + "." + "7" + "." + "0i1" == version;
    ComponentsOfParts(version, "1", "7", "0i1");
    InnovationReleaseParts();
    InnovationReleaseBuild();
  }

  /** An innovation release `1.7.0i1` loses its suffix: `1.7.0`. */
  lemma InnovationReleaseVersion(version: string, revision: string)
    requires version == "1.7.0i1"
    ensures GenerateProductVersion(version, revision) == Ok("1.7.0" + "." + revision)
  {
    InnovationReleaseComponents(version);
    InnovationReleaseProductVersion(Components(version), revision);
  }

  /** `FirstLower` is the position of the first lowercase letter. */
  lemma {:induction false} FirstLowerAt(s: string, k: nat)
    requires k < |s| && IsAsciiLower(s[k])
    requires forall i :: 0 <= i < k ==> !IsAsciiLower(s[i])
    ensures FirstLower(s) == k
  {
    if k > 0 {
      FirstLowerAt(s[1..], k - 1);
    }
  }

  lemma InnovationReleaseSuffix()
    ensures StripAsciiSuffix("1.7.i1") == Ok("1.7.0")
  {
    var v := "1.7.i1";
    FirstLowerAt(v, 4);
    assert v[..4] == "1.7.";
    assert "1.7." + "0" == "1.7.0";
  }

  lemma InnovationReleaseProductVersion(c: (string, string, string), revision: string)
    requires c == ("1", "7", "i1")
    ensures ProductVersion(c, revision) == Ok("1.7.0" + "." + revision)
  {
    assert c.0 + "." + c.1 + "." + c.2 == "1.7.i1";
    InnovationReleaseSuffix();
  }
}
