/**
 * Argument handling of the `service-discovery` automation
 * (cmk/base/automations/check_mk.py): the `@scan`, `@noscan` and
 * `@raiseerrors` directives are taken out of the argument list, the first
 * remaining argument selects the discovery settings and the rest are host
 * names.
 */
module DiscoveryArgs {
  import opened Wrappers

  /** Position of the first occurrence of `x` in `s`. */
  function IndexOf(s: seq<string>, x: string): (k: nat)
    requires x in s
    ensures k < |s| && s[k] == x && x !in s[..k]
  {
    if s[0] == x then 0
    else
      var k := 1 + IndexOf(s[1..], x);
      assert s[..k] == [s[0]] + s[1..][..k - 1];
      k
  }

  /** `[a for i, a in enumerate(args) if i != skip]`, enumerating from `from`. */
  function AllBut(args: seq<string>, skip: nat, from: nat): seq<string>
    decreases |args|
  {
    if args == [] then []
    else (if from == skip then [] else [args[0]]) + AllBut(args[1..], skip, from + 1)
  }

  lemma {:induction false} AllButSlices(args: seq<string>, skip: nat, from: nat)
    requires from <= skip < from + |args|
    ensures AllBut(args, skip, from) == args[..skip - from] + args[skip - from + 1..]
    decreases |args|
  {
    if from == skip {
      AllButNone(args[1..], skip, from + 1);
    } else {
      AllButSlices(args[1..], skip, from + 1);
      assert args[..skip - from] == [args[0]] + args[1..][..skip - from - 1];
      assert args[skip - from + 1..] == args[1..][skip - from..];
    }
  }

  lemma {:induction false} AllButNone(args: seq<string>, skip: nat, from: nat)
    requires skip < from
    ensures AllBut(args, skip, from) == args
    decreases |args|
  {
    if args != [] {
      AllButNone(args[1..], skip, from + 1);
    }
  }

  /**
   * Whether `directive` occurs in `args`, and `args` without its first
   * occurrence; later occurrences and the order of the other arguments are kept.
   */
  function ExtractDirective(directive: string, args: seq<string>): (r: (bool, seq<string>))
    ensures r.0 <==> directive in args
    ensures !r.0 ==> r.1 == args
    ensures r.0 ==> exists i :: 0 <= i < |args| && args[i] == directive && directive !in args[..i]
                              && r.1 == args[..i] + args[i + 1..]
  {
    if directive in args then
      var k := IndexOf(args, directive);
      AllButSlices(args, k, 0);
      (true, AllBut(args, k, 0))
    else (false, args)
  }

  /** Dropping the element at `i` removes one copy of it and nothing else. */
  lemma RemoveAtCounts(args: seq<string>, i: nat)
    requires i < |args|
    ensures multiset(args[..i] + args[i + 1..]) + multiset{args[i]} == multiset(args)
    ensures forall x :: x != args[i] ==> (x in args[..i] + args[i + 1..] <==> x in args)
  {
    assert args == args[..i] + [args[i]] + args[i + 1..];
    forall x | x != args[i] ensures x in args[..i] + args[i + 1..] <==> x in args {
      assert x in args <==> x in multiset(args);
      assert x in args[..i] + args[i + 1..] <==> x in multiset(args[..i] + args[i + 1..]);
    }
  }

  /** Taking a directive out removes exactly one copy of it and nothing else. */
  lemma ExtractDirectiveCounts(directive: string, args: seq<string>)
    ensures ExtractDirective(directive, args).0 ==>
      && multiset(ExtractDirective(directive, args).1) + multiset{directive} == multiset(args)
      && |ExtractDirective(directive, args).1| == |args| - 1
    ensures forall x :: x != directive ==> (x in ExtractDirective(directive, args).1 <==> x in args)
  {
    var r := ExtractDirective(directive, args);
    if r.0 {
      var i :| 0 <= i < |args| && args[i] == directive && directive !in args[..i]
                && r.1 == args[..i] + args[i + 1..];
      RemoveAtCounts(args, i);
    }
  }

  datatype OnError = Raise | Ignore

  /** The discovery settings: a legacy mode token, or the serialized settings of the newer format. */
  datatype Settings = LegacyMode(token: string) | SerializedSettings(text: string)

  datatype DiscoveryRequest = DiscoveryRequest(
    forceSnmpCacheRefresh: bool,
    preventScan: bool,
    onError: OnError,
    settings: Settings,
    hosts: seq<string>)

  const LegacyModes: seq<string> := ["new", "remove", "fixall", "refresh"]

  const NeedTwoArguments: string := "Need two arguments: DiscoveryMode|DiscoverySettings HOSTNAME "

  /** The arguments left once the three directives are taken out, in that order. */
  function RemainingArgs(args: seq<string>): seq<string>
  {
    ExtractDirective("@raiseerrors", ExtractDirective("@noscan", ExtractDirective("@scan", args).1).1).1
  }

  /** Argument parsing of `service-discovery`; fewer than two remaining arguments is an automation error. */
  function ParseDiscoveryArgs(args: seq<string>): (r: Result<DiscoveryRequest, string>)
    ensures r.Err? <==> |RemainingArgs(args)| < 2
    ensures r.Err? ==> r.error == NeedTwoArguments
    ensures r.Ok? ==>
      && r.value.forceSnmpCacheRefresh == ("@scan" in args)
      && r.value.preventScan == ("@noscan" in args)
      && (r.value.onError == Raise <==> "@raiseerrors" in args)
      && r.value.hosts == RemainingArgs(args)[1..]
      && (RemainingArgs(args)[0] in LegacyModes ==> r.value.settings == LegacyMode(RemainingArgs(args)[0]))
      && (RemainingArgs(args)[0] !in LegacyModes ==> r.value.settings == SerializedSettings(RemainingArgs(args)[0]))
  {
    var (scan, a1) := ExtractDirective("@scan", args);
    var (noscan, a2) := ExtractDirective("@noscan", a1);
    var (raise, a3) := ExtractDirective("@raiseerrors", a2);
    ExtractDirectiveCounts("@scan", args);
    ExtractDirectiveCounts("@noscan", a1);
    var onError := if raise then Raise else Ignore;
    if |a3| < 2 then Err(NeedTwoArguments)
    else
      var settings := if a3[0] in LegacyModes then LegacyMode(a3[0]) else SerializedSettings(a3[0]);
      Ok(DiscoveryRequest(scan, noscan, onError, settings, a3[1..]))
  }

  /**
   * Every argument other than the three directives survives, and each
   * directive that is present shortens the argument list by exactly one.
   */
  lemma RemainingArgsDropDirectives(args: seq<string>)
    ensures forall x :: x != "@scan" && x != "@noscan" && x != "@raiseerrors" ==>
      (x in RemainingArgs(args) <==> x in args)
    ensures |RemainingArgs(args)| ==
      |args| - (if "@scan" in args then 1 else 0) - (if "@noscan" in args then 1 else 0)
             - (if "@raiseerrors" in args then 1 else 0)
  {
    var a1 := ExtractDirective("@scan", args).1;
    var a2 := ExtractDirective("@noscan", a1).1;
    ExtractDirectiveCounts("@scan", args);
    ExtractDirectiveCounts("@noscan", a1);
    ExtractDirectiveCounts("@raiseerrors", a2);
  }

  /** Whether the discovery of `h` raises: only in RAISE mode, for a host whose discovery fails. */
  predicate Raises(onError: OnError, fails: string -> bool, h: string)
  {
    onError == Raise && fails(h)
  }

  /** The number of hosts discovered before the first one whose discovery raises, or all of them. */
  function Completed(hosts: seq<string>, onError: OnError, fails: string -> bool): (n: nat)
    ensures n <= |hosts|
    ensures forall i :: 0 <= i < n ==> !Raises(onError, fails, hosts[i])
    ensures n < |hosts| ==> Raises(onError, fails, hosts[n])
  {
    if hosts == [] || Raises(onError, fails, hosts[0]) then 0
    else 1 + Completed(hosts[1..], onError, fails)
  }

  lemma {:induction false} CompletedAt(hosts: seq<string>, onError: OnError, fails: string -> bool, n: nat)
    requires n <= |hosts|
    requires forall i :: 0 <= i < n ==> !Raises(onError, fails, hosts[i])
    requires n < |hosts| ==> Raises(onError, fails, hosts[n])
    ensures Completed(hosts, onError, fails) == n
  {
    if n > 0 {
      CompletedAt(hosts[1..], onError, fails, n - 1);
    }
  }

  /**
   * The per-host loop of `service-discovery`: each host is discovered
   * (`discover` stands for `automation_discovery`, giving the error text of
   * its result), later results for a repeated host replace earlier ones, and
   * the discovery check is triggered for every host whose result carries no
   * error and which `guard` admits. In RAISE mode a host whose discovery
   * fails (`fails`) raises out of the loop: the automation ends with that
   * error, and the checks of the hosts before it have been triggered. In
   * IGNORE mode such errors are part of the result's error text instead.
   */
  method DiscoverHosts<R>(hosts: seq<string>, discover: string -> (R, Option<string>),
                          onError: OnError, fails: string -> bool, guard: string -> bool)
    returns (outcome: Result<map<string, R>, string>, triggered: seq<string>)
    ensures var n := Completed(hosts, onError, fails);
      && triggered == Triggered(hosts[..n], discover, guard)
      && (outcome.Err? <==> n < |hosts|)
      && (outcome.Err? ==> outcome.error == hosts[n])
    ensures outcome.Ok? ==> outcome.value == Discovered(hosts, discover)
    ensures outcome.Ok? ==> forall h :: h in outcome.value <==> h in hosts
    ensures outcome.Ok? ==> forall h :: h in outcome.value ==> outcome.value[h] == discover(h).0
    ensures onError == Ignore ==> outcome.Ok? && triggered == Triggered(hosts, discover, guard)
  {
    var results := map[];
    triggered := [];
    var i := 0;
    while i < |hosts|
      invariant 0 <= i <= |hosts|
      invariant forall j :: 0 <= j < i ==> !Raises(onError, fails, hosts[j])
      invariant results == Discovered(hosts[..i], discover)
      invariant triggered == Triggered(hosts[..i], discover, guard)
    {
      var host := hosts[i];
      if Raises(onError, fails, host) {
        CompletedAt(hosts, onError, fails, i);
        return Err(host), triggered;
      }
      var result := discover(host);
      TriggeredStep(hosts, i, discover, guard);
      DiscoveredStep(hosts, i, discover);
      triggered := triggered + (if result.1.None? && guard(host) then [host] else []);
      results := results[host := result.0];
      i := i + 1;
    }
    CompletedAt(hosts, onError, fails, i);
    assert hosts[..i] == hosts;
    DiscoveredMembers(hosts, discover);
    outcome := Ok(results);
  }

  /** The results of the hosts in order: one per host, a later duplicate replacing an earlier result. */
  function Discovered<R>(hosts: seq<string>, discover: string -> (R, Option<string>)): (results: map<string, R>)
  {
    if hosts == [] then map[]
    else Discovered(hosts[..|hosts| - 1], discover)[hosts[|hosts| - 1] := discover(hosts[|hosts| - 1]).0]
  }

  /** Every host has a result, and it is the one its discovery gave. */
  lemma {:induction false} DiscoveredMembers<R>(hosts: seq<string>, discover: string -> (R, Option<string>))
    ensures forall h :: h in Discovered(hosts, discover) <==> h in hosts
    ensures forall h :: h in Discovered(hosts, discover) ==> Discovered(hosts, discover)[h] == discover(h).0
  {
    if hosts != [] {
      var init := hosts[..|hosts| - 1];
      DiscoveredMembers(init, discover);
      assert hosts == init + [hosts[|hosts| - 1]];
    }
  }

  lemma DiscoveredStep<R>(hosts: seq<string>, i: nat, discover: string -> (R, Option<string>))
    requires i < |hosts|
    ensures Discovered(hosts[..i + 1], discover) == Discovered(hosts[..i], discover)[hosts[i] := discover(hosts[i]).0]
  {
    assert hosts[..i + 1][..i] == hosts[..i];
  }

  lemma TriggeredStep<R>(hosts: seq<string>, i: nat, discover: string -> (R, Option<string>), guard: string -> bool)
    requires i < |hosts|
    ensures Triggered(hosts[..i + 1], discover, guard)
         == Triggered(hosts[..i], discover, guard) + (if discover(hosts[i]).1.None? && guard(hosts[i]) then [hosts[i]] else [])
  {
    assert hosts[..i + 1] == hosts[..i] + [hosts[i]];
    TriggeredSnoc(hosts[..i], hosts[i], discover, guard);
  }

  /** The hosts, in order and with repetitions, for which the discovery check is triggered. */
  function Triggered<R>(hosts: seq<string>, discover: string -> (R, Option<string>), guard: string -> bool): (t: seq<string>)
  {
    if hosts == [] then []
    else
      (if discover(hosts[0]).1.None? && guard(hosts[0]) then [hosts[0]] else [])
        + Triggered(hosts[1..], discover, guard)
  }

  /** A host is triggered iff it is listed, its result carries no error and the guard admits it. */
  lemma {:induction false} TriggeredMembers<R>(hosts: seq<string>, discover: string -> (R, Option<string>), guard: string -> bool)
    ensures forall h :: h in Triggered(hosts, discover, guard) <==> h in hosts && discover(h).1.None? && guard(h)
  {
    if hosts != [] {
      TriggeredMembers(hosts[1..], discover, guard);
      assert forall h :: h in hosts <==> h == hosts[0] || h in hosts[1..];
    }
  }

  lemma {:induction false} TriggeredSnoc<R>(hosts: seq<string>, h: string, discover: string -> (R, Option<string>), guard: string -> bool)
    ensures Triggered(hosts + [h], discover, guard)
         == Triggered(hosts, discover, guard) + (if discover(h).1.None? && guard(h) then [h] else [])
  {
    if hosts == [] {
      assert [h][1..] == [];
    } else {
      assert (hosts + [h])[1..] == hosts[1..] + [h];
      TriggeredSnoc(hosts[1..], h, discover, guard);
    }
  }
}
