/**
 * The forced check of the discovery service that an automation schedules
 * after it changed a host's services (cmk/base/automations/check_mk.py):
 * the external command sent to the core over the livestatus socket, and the
 * conditions under which it is sent.
 */
module DiscoveryNotify {
  import opened Wrappers
  import opened Text

  /** The name of the discovery service, which depends on the naming scheme in use. */
  function DiscoveryServiceName(useNewDescriptionsFor: set<string>): (name: string)
    ensures "cmk_inventory" in useNewDescriptionsFor ==> name == "Check_MK Discovery"
    ensures "cmk_inventory" !in useNewDescriptionsFor ==> name == "Check_MK inventory"
  {
    if "cmk_inventory" in useNewDescriptionsFor then "Check_MK Discovery" else "Check_MK inventory"
  }

  const ForcedCheckName := "SCHEDULE_FORCED_SVC_CHECK"

  /** The command proper, without the `COMMAND [now] ` envelope. */
  function ForcedCheckCommand(host: string, service: string, now: nat, isCmc: bool): string
  {
    ForcedCheckName + ";" + host + ";" + service + ";" + NatToString(now) + (if isCmc then ";TRY" else "")
  }

  /** The text sent to the socket; `now` is the current time in whole seconds. */
  function ForcedCheckMessage(host: string, service: string, now: nat, isCmc: bool): (msg: string)
    ensures |msg| > 12 + |NatToString(now)|
    ensures msg[..9] == "COMMAND [" && msg[|msg| - 1] == '\n'
    ensures msg[9..9 + |NatToString(now)|] == NatToString(now)
    ensures msg[9 + |NatToString(now)|..11 + |NatToString(now)|] == "] "
    ensures msg[11 + |NatToString(now)|..|msg| - 1] == ForcedCheckCommand(host, service, now, isCmc)
  {
    var ts := NatToString(now);
    var msg := "COMMAND [" + ts + "] " + ForcedCheckCommand(host, service, now, isCmc) + "\n";
    assert msg[..9] == "COMMAND [";
    assert msg[9..9 + |ts|] == ts;
    assert msg[9 + |ts|..11 + |ts|] == "] ";
    msg
  }

  lemma DecimalHasNoSemicolon(now: nat)
    ensures ';' !in NatToString(now)
  {
    var ts := NatToString(now);
    forall i | 0 <= i < |ts| ensures ts[i] != ';' {
      assert IsDigit(ts[i]);
    }
  }

  /** The fields of the command, in order. */
  function ForcedCheckFieldList(host: string, service: string, now: nat, isCmc: bool): seq<string>
  {
    [ForcedCheckName, host, service, NatToString(now)] + (if isCmc then ["TRY"] else [])
  }

  lemma JoinTryTail(ts: string, isCmc: bool)
    ensures Join(if isCmc then [ts, "TRY"] else [ts], ';') == ts + (if isCmc then ";TRY" else "")
  {
    if isCmc {
      JoinCons(ts, ["TRY"], ';');
    }
  }

  lemma JoinThreeBefore(a: string, b: string, c: string, tail: seq<string>, sep: char)
    requires |tail| >= 1
    ensures Join([a, b, c] + tail, sep) == a + [sep] + b + [sep] + c + [sep] + Join(tail, sep)
  {
    JoinCons(c, tail, sep);
    JoinCons(b, [c] + tail, sep);
    JoinCons(a, [b] + ([c] + tail), sep);
    assert [a, b, c] + tail == [a] + ([b] + ([c] + tail));
  }

  lemma ForcedCheckJoin(host: string, service: string, now: nat, isCmc: bool)
    ensures Join(ForcedCheckFieldList(host, service, now, isCmc), ';') == ForcedCheckCommand(host, service, now, isCmc)
  {
    var ts := NatToString(now);
    var tail := if isCmc then [ts, "TRY"] else [ts];
    JoinTryTail(ts, isCmc);
    JoinThreeBefore(ForcedCheckName, host, service, tail, ';');
    assert ForcedCheckFieldList(host, service, now, isCmc) == [ForcedCheckName, host, service] + tail;
  }

  /**
   * For a host and service name free of `;`, the command splits on `;` into
   * the command name, the host, the service and the time, followed by `TRY`
   * exactly when the core is the CMC.
   */
  lemma ForcedCheckFields(host: string, service: string, now: nat, isCmc: bool)
    requires ';' !in host && ';' !in service
    ensures Split(ForcedCheckCommand(host, service, now, isCmc), ';')
         == [ForcedCheckName, host, service, NatToString(now)] + (if isCmc then ["TRY"] else [])
  {
    var fields := ForcedCheckFieldList(host, service, now, isCmc);
    DecimalHasNoSemicolon(now);
    assert forall i :: 0 <= i < |fields| ==> ';' !in fields[i];
    ForcedCheckJoin(host, service, now, isCmc);
    SplitJoin(fields, ';');
  }

  /**
   * Under either naming scheme the discovery service name is free of `;`, so
   * the command scheduling the discovery check of a `;`-free host always
   * splits back into its five or six fields, the third being that name.
   */
  lemma DiscoveryCommandSplits(host: string, useNewDescriptionsFor: set<string>, now: nat, isCmc: bool)
    requires ';' !in host
    ensures var service := DiscoveryServiceName(useNewDescriptionsFor);
      && (service == "Check_MK Discovery" || service == "Check_MK inventory")
      && Split(ForcedCheckCommand(host, service, now, isCmc), ';')
         == [ForcedCheckName, host, service, NatToString(now)] + (if isCmc then ["TRY"] else [])
  {
    var service := DiscoveryServiceName(useNewDescriptionsFor);
    assert ';' !in service by {
      forall i | 0 <= i < |service| ensures service[i] != ';' {
      }
    }
    ForcedCheckFields(host, service, now, isCmc);
  }

  /**
   * Whether an automation schedules the discovery check of a host: only with
   * the autotrigger on, for a host whose discovery check is not restricted to
   * the command line, and never for a cluster.
   */
  predicate ShouldTrigger(autotrigger: bool, commandlineOnly: bool, isCluster: bool)
  {
    autotrigger && !commandlineOnly && !isCluster
  }

  /** What sending the command amounts to: a failed send is swallowed unless debugging is on. */
  datatype SendOutcome = NotSent | Sent(message: string) | SendFailed(message: string) | Raised(message: string)

  /**
   * `_trigger_discovery_check` with `_schedule_discovery_check` inlined;
   * `sendSucceeds` is the outcome of connecting and sending on the socket.
   */
  function TriggerDiscoveryCheck(
    autotrigger: bool, commandlineOnly: bool, isCluster: bool,
    host: string, useNewDescriptionsFor: set<string>, now: nat, isCmc: bool,
    sendSucceeds: bool, debug: bool): (r: SendOutcome)
    ensures r.NotSent? <==> !ShouldTrigger(autotrigger, commandlineOnly, isCluster)
    ensures !r.NotSent? ==> r.message == ForcedCheckMessage(host, DiscoveryServiceName(useNewDescriptionsFor), now, isCmc)
    ensures r.Raised? <==> ShouldTrigger(autotrigger, commandlineOnly, isCluster) && !sendSucceeds && debug
    ensures r.Sent? <==> ShouldTrigger(autotrigger, commandlineOnly, isCluster) && sendSucceeds
  {
    if !autotrigger || commandlineOnly || isCluster then NotSent
    else
      var msg := ForcedCheckMessage(host, DiscoveryServiceName(useNewDescriptionsFor), now, isCmc);
      if sendSucceeds then Sent(msg)
      else if debug then Raised(msg)
      else SendFailed(msg)
  }
}
