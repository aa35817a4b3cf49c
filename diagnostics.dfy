/**
 * Pure decisions of the diagnostic automations of
 * cmk/base/automations/check_mk.py: the SNMP credentials and SNMP version a
 * connection test of `diag-host` uses, and how `active-check` turns the exit
 * code and output of a check plugin into a service state and summary.
 */
module Diagnostics {
  import opened Wrappers
  import opened Text

  // ---------------------------------------------------------------------------
  // SNMP credentials

  /** SNMP credentials: a community string (v1/v2c) or an SNMPv3 tuple. */
  datatype Credentials = Community(community: string) | V3(fields: seq<string>)

  datatype SnmpError =
    | TypeError
    | NotImplemented(command: string)

  /** Truth value of an optional string in Python: None and "" are false. */
  predicate Truthy(s: Option<string>)
  {
    s.Some? && s.value != ""
  }

  /** The optional credential fields of the SNMPv3 form of the diagnostics page. */
  datatype V3Form = V3Form(
    use: Option<string>,
    authProto: Option<string>,
    securityName: Option<string>,
    securityPassword: Option<string>,
    privacyProto: Option<string>,
    privacyPassword: Option<string>)

  /** The security levels that authenticate. */
  predicate Authenticates(level: string)
  {
    level == "authNoPriv" || level == "authPriv"
  }

  /**
   * The SNMPv3 tuple built from the form: the security level, then the
   * authentication protocol, security name and password for an
   * authenticating level (the security name only, otherwise), then the
   * privacy protocol and password for `authPriv`. A field the level needs
   * that is missing raises TypeError. Without a level, the host's
   * configured credentials stay.
   */
  function V3Credentials(form: V3Form, configured: Credentials): (r: Result<Credentials, SnmpError>)
    ensures !Truthy(form.use) ==> r == Ok(configured)
    ensures Truthy(form.use) && Authenticates(form.use.value) ==>
      (r.Err? <==> form.authProto.None? || form.securityName.None? || form.securityPassword.None?
                   || (form.use.value == "authPriv" && (form.privacyProto.None? || form.privacyPassword.None?)))
    ensures Truthy(form.use) && !Authenticates(form.use.value) ==> (r.Err? <==> form.securityName.None?)
    ensures r.Err? ==> r.error == TypeError
    ensures Truthy(form.use) && r.Ok? ==> r.value.V3? && |r.value.fields| >= 2 && r.value.fields[0] == form.use.value
  {
    if !Truthy(form.use) then Ok(configured)
    else
      var level := form.use.value;
      var head :=
        if Authenticates(level) then
          if form.authProto.None? || form.securityName.None? || form.securityPassword.None? then None
          else Some([level, form.authProto.value, form.securityName.value, form.securityPassword.value])
        else
          if form.securityName.None? then None else Some([level, form.securityName.value]);
      if head.None? then Err(TypeError)
      else if level == "authPriv" then
        if form.privacyProto.None? || form.privacyPassword.None? then Err(TypeError)
        else Ok(V3(head.value + [form.privacyProto.value, form.privacyPassword.value]))
      else Ok(V3(head.value))
  }

  /**
   * The tuple has the shape of the three levels: two fields for
   * `noAuthNoPriv` (or any other non-authenticating level), four for
   * `authNoPriv`, six for `authPriv`, with the form's fields in order.
   */
  lemma V3CredentialsShape(form: V3Form, configured: Credentials)
    requires Truthy(form.use) && V3Credentials(form, configured).Ok?
    ensures var t := V3Credentials(form, configured).value.fields;
      var level := form.use.value;
      && (!Authenticates(level) ==> t == [level, form.securityName.value])
      && (level == "authNoPriv" ==>
            t == [level, form.authProto.value, form.securityName.value, form.securityPassword.value])
      && (level == "authPriv" ==>
            t == [level, form.authProto.value, form.securityName.value, form.securityPassword.value,
                  form.privacyProto.value, form.privacyPassword.value])
  {
  }

  /** The security level of a tuple can be told from its length alone. */
  lemma V3LevelFromLength(form: V3Form, configured: Credentials)
    requires Truthy(form.use) && V3Credentials(form, configured).Ok?
    ensures var n := |V3Credentials(form, configured).value.fields|;
      && (n == 6 <==> form.use.value == "authPriv")
      && (n == 4 <==> form.use.value == "authNoPriv")
      && (n == 2 <==> !Authenticates(form.use.value))
  {
    V3CredentialsShape(form, configured);
  }

  /**
   * The v1/v2c credentials: the community typed into the form, else the
   * host's configured community, else the default community. A host
   * configured for SNMPv3 still gets a community string.
   */
  function CommunityCredentials(formCommunity: string, configured: Credentials, defaultCommunity: string): (c: Credentials)
    ensures c.Community?
    ensures formCommunity != "" ==> c == Community(formCommunity)
    ensures formCommunity == "" && configured.Community? ==> c == configured
    ensures formCommunity == "" && configured.V3? ==> c == Community(defaultCommunity)
  {
    if formCommunity != "" then Community(formCommunity)
    else if configured.Community? then configured
    else Community(defaultCommunity)
  }

  datatype SnmpVersion = V1 | V2C | V3Version

  /** The SNMP version and bulkwalk setting of a test, by test name. */
  datatype SnmpMode = SnmpMode(version: SnmpVersion, bulkwalk: bool)

  const SnmpTests: set<string> := {"snmpv1", "snmpv2", "snmpv2_nobulk", "snmpv3"}

  /** The `match` over the test name; any other test is not implemented. */
  function SnmpModeOf(test: string): (r: Result<SnmpMode, SnmpError>)
    ensures r.Err? <==> test !in SnmpTests
    ensures r.Err? ==> r.error == NotImplemented(test)
    ensures r.Ok? ==> (r.value.version == V3Version <==> test == "snmpv3")
    ensures r.Ok? ==> (r.value.version == V1 <==> test == "snmpv1")
    ensures r.Ok? ==> (r.value.bulkwalk <==> test == "snmpv2" || test == "snmpv3")
  {
    match test
    case "snmpv1" => Ok(SnmpMode(V1, false))
    case "snmpv2" => Ok(SnmpMode(V2C, true))
    case "snmpv2_nobulk" => Ok(SnmpMode(V2C, false))
    case "snmpv3" => Ok(SnmpMode(V3Version, true))
    case _ => Err(NotImplemented(test))
  }

  /** The message of the `(1, ...)` answer for a test that is not implemented (for names that `repr` leaves unescaped). */
  function NotImplementedText(command: string): string
  {
    "SNMP command '" + command + "' not implemented"
  }

  /** The connection settings of an SNMP test. */
  datatype SnmpSetup = SnmpSetup(credentials: Credentials, mode: SnmpMode)

  /**
   * The start of `_execute_snmp`: the credentials from the form (v3 for the
   * `snmpv3` test, the community otherwise); unless the host has an
   * explicit community, credentials found in the rule set for the SNMP
   * version replace them; then the version table. A TypeError from the v3
   * form comes before a test that is not implemented can be noticed.
   */
  function SnmpSetupOf(
    test: string, form: V3Form, formCommunity: string, configured: Credentials, defaultCommunity: string,
    explicitCommunity: bool, ruleCredentials: Option<Credentials>): (r: Result<SnmpSetup, SnmpError>)
    ensures r.Ok? <==> test in SnmpTests && (test == "snmpv3" ==> V3Credentials(form, configured).Ok?)
    ensures r.Ok? && !explicitCommunity && ruleCredentials.Some? ==> r.value.credentials == ruleCredentials.value
    ensures r.Ok? && (explicitCommunity || ruleCredentials.None?) && test != "snmpv3" ==>
      && r.value.credentials.Community?
      && (formCommunity != "" ==> r.value.credentials == Community(formCommunity))
      && (formCommunity == "" && configured.Community? ==> r.value.credentials == configured)
      && (formCommunity == "" && configured.V3? ==> r.value.credentials == Community(defaultCommunity))
    ensures r.Ok? && (explicitCommunity || ruleCredentials.None?) && test == "snmpv3" ==>
      r.value.credentials == V3Credentials(form, configured).value
    ensures r.Ok? ==> r == Ok(SnmpSetup(r.value.credentials, SnmpModeOf(test).value))
    ensures r.Err? && test == "snmpv3" ==> r.error == TypeError
    ensures r.Err? && test != "snmpv3" ==> r.error == NotImplemented(test)
  {
    var fromForm :=
      if test == "snmpv3" then V3Credentials(form, configured)
      else Ok(CommunityCredentials(formCommunity, configured, defaultCommunity));
    if fromForm.Err? then Err(fromForm.error)
    else
      var credentials := if !explicitCommunity && ruleCredentials.Some? then ruleCredentials.value else fromForm.value;
      match SnmpModeOf(test)
      case Ok(mode) => Ok(SnmpSetup(credentials, mode))
      case Err(e) => Err(e)
  }

  // ---------------------------------------------------------------------------
  // active checks

  /** The exit codes a check plugin may return; anything else is UNKNOWN (3). */
  function ServiceStateOf(returnCode: int): (state: int)
    ensures 0 <= state <= 3
    ensures 0 <= returnCode <= 2 ==> state == returnCode
    ensures state == 3 <==> !(0 <= returnCode <= 2)
  {
    if returnCode in {0, 1, 2} then returnCode else 3
  }

  /** Whitespace that `bytes.strip()` removes. */
  predicate IsAsciiSpace(c: char)
  {
    c == ' ' || '\t' <= c <= '\r'
  }

  /** `bytes.strip()` on the output of the plugin: `s` without its leading and trailing ASCII white space. */
  function StripBytes(s: string): (r: string)
    ensures exists i :: StrippedAt(s, r, i, IsAsciiSpace)
    ensures r == [] || (!IsAsciiSpace(r[0]) && !IsAsciiSpace(r[|r| - 1]))
  {
    StripWith(s, IsAsciiSpace)
  }

  /** `s.split("|", 1)[0]`: the text before the first `|`, or all of it. */
  function BeforePipe(s: string): (r: string)
    ensures r <= s && '|' !in r
    ensures |r| < |s| ==> s[|r|] == '|'
  {
    if s == [] || s[0] == '|' then [] else [s[0]] + BeforePipe(s[1..])
  }

  /** The summary of an active check: the stripped output without its performance data. */
  function ActiveCheckSummary(stdout: string): (summary: string)
    ensures '|' !in summary
    ensures '|' !in StripBytes(stdout) ==> summary == StripBytes(stdout)
  {
    BeforePipe(StripBytes(stdout))
  }

  /** Output without `|` is kept whole; otherwise everything from the first `|` on is dropped. */
  lemma {:induction false} BeforePipeSplit(text: string, perf: string)
    requires '|' !in text
    ensures BeforePipe(text + "|" + perf) == text
  {
    if text != [] {
      assert (text + "|" + perf)[1..] == text[1..] + "|" + perf;
      BeforePipeSplit(text[1..], perf);
    } else {
      assert (text + "|" + perf)[0] == '|';
    }
  }
}
