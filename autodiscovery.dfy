/**
 * One pass of the automatic service discovery (cmk/base/automations/check_mk.py,
 * `_execute_autodiscovery`): the hosts flagged by their discovery check are
 * rediscovered one after the other until a soft deadline passes, and the
 * monitoring core is reloaded or restarted if any host asks for it.
 *
 * The queue of marker files is a class holding its markers in iteration
 * order. The discovery of a single host, the livestatus query, the clock and
 * the core are inputs: `discover(h)` is what `autodiscovery` returns for host
 * `h`, `live` is the livestatus answer (None when the query fails), and
 * `clock(k)` is the k-th reading of the monotonic clock.
 */
module Autodiscovery {
  import opened Wrappers
  import opened Text
  import opened Sorting

  /** A marker file of the queue: the host it names and its modification time. */
  datatype Marker = Marker(host: string, mtime: int)

  /** The host names of the configuration. */
  datatype HostsConfig = HostsConfig(hosts: set<string>, clusters: set<string>, shadowHosts: set<string>)

  function AllHosts(config: HostsConfig): set<string>
  {
    config.hosts + config.clusters + config.shadowHosts
  }

  /** The markers of hosts that are configured, in queue order. */
  function Configured(markers: seq<Marker>, allHosts: set<string>): (r: seq<Marker>)
    ensures forall m :: m in r <==> m in markers && m.host in allHosts
  {
    if markers == [] then []
    else
      var init := markers[..|markers| - 1];
      var last := markers[|markers| - 1];
      assert markers == init + [last];
      Configured(init, allHosts) + (if last.host in allHosts then [last] else [])
  }

  /** The markers whose host is not in `gone`, in queue order. */
  function WithoutHosts(markers: seq<Marker>, gone: set<string>): seq<Marker>
  {
    if markers == [] then []
    else
      var init := markers[..|markers| - 1];
      var last := markers[|markers| - 1];
      WithoutHosts(init, gone) + (if last.host in gone then [] else [last])
  }

  lemma {:induction false} WithoutHostsMembers(markers: seq<Marker>, gone: set<string>)
    ensures forall m :: m in WithoutHosts(markers, gone) <==> m in markers && m.host !in gone
  {
    if markers != [] {
      var init := markers[..|markers| - 1];
      WithoutHostsMembers(init, gone);
      assert markers == init + [markers[|markers| - 1]];
    }
  }

  lemma {:induction false} WithoutHostsUnion(markers: seq<Marker>, a: set<string>, b: set<string>)
    ensures WithoutHosts(WithoutHosts(markers, a), b) == WithoutHosts(markers, a + b)
  {
    if markers != [] {
      var init := markers[..|markers| - 1];
      var last := markers[|markers| - 1];
      WithoutHostsUnion(init, a, b);
      var once := WithoutHosts(init, a) + (if last.host in a then [] else [last]);
      assert WithoutHosts(markers, a) == once;
      if last.host !in a {
        assert once[..|once| - 1] == WithoutHosts(init, a);
      } else {
        assert once == WithoutHosts(init, a);
      }
    }
  }

  function MarkerHosts(markers: seq<Marker>): (hosts: seq<string>)
    ensures |hosts| == |markers| && forall i :: 0 <= i < |markers| ==> hosts[i] == markers[i].host
  {
    seq(|markers|, i requires 0 <= i < |markers| => markers[i].host)
  }

  /** The smallest modification time among the markers, None for an empty queue. */
  function OldestOf(markers: seq<Marker>): (t: Option<int>)
    ensures t.None? <==> markers == []
    ensures t.Some? ==> exists i :: 0 <= i < |markers| && markers[i].mtime == t.value
    ensures t.Some? ==> forall i :: 0 <= i < |markers| ==> t.value <= markers[i].mtime
  {
    if markers == [] then None
    else
      var rest := OldestOf(markers[1..]);
      if rest.None? || markers[0].mtime <= rest.value then
        Some(markers[0].mtime)
      else
        assert forall i :: 1 <= i < |markers| ==> markers[i] == markers[1..][i - 1];
        rest
  }

  /** The directory of marker files. */
  class AutoQueue {
    var markers: seq<Marker>

    constructor (markers: seq<Marker>)
      ensures this.markers == markers
    {
      this.markers := markers;
    }

    function Oldest(): (t: Option<int>)
      reads this
      ensures t == OldestOf(markers)
    {
      OldestOf(markers)
    }

    /** Unlinks the marker of `host`, if there is one. */
    method Unmark(host: string)
      modifies this
      ensures markers == WithoutHosts(old(markers), {host})
    {
      markers := WithoutHosts(markers, {host});
    }

    /** Unlinks, one after the other, the markers of hosts outside `allHosts`. */
    method RemoveUnconfigured(allHosts: set<string>)
      modifies this
      ensures markers == Configured(old(markers), allHosts)
    {
      var kept: seq<Marker> := [];
      var i := 0;
      while i < |markers|
        invariant 0 <= i <= |markers|
        invariant kept == Configured(markers[..i], allHosts)
      {
        assert markers[..i + 1][..i] == markers[..i];
        if markers[i].host in allHosts {
          kept := kept + [markers[i]];
        }
        i := i + 1;
      }
      assert markers[..i] == markers;
      markers := kept;
    }
  }

  /** The hosts livestatus reports in state UP. */
  function UpHosts(response: seq<(string, int)>): set<string>
  {
    set i | 0 <= i < |response| && response[i].1 == 0 :: response[i].0
  }

  /** Whether a host is processed: it is UP, or livestatus could not be asked at all. */
  predicate IsProcessed(live: Option<seq<(string, int)>>, host: string)
  {
    live.None? || host in UpHosts(live.value)
  }

  /** The soft deadline, in seconds after the start of the pass. */
  const Limit: int := 120

  /** The clock reading taken before host `i` is still within the deadline. */
  predicate InTime(clock: nat -> int, i: nat)
  {
    clock(i + 1) <= clock(0) + Limit
  }

  /**
   * The number of queued hosts handled before the deadline: the clock is
   * read once before each host, and the pass ends at the first reading later
   * than `clock(0) + Limit`.
   */
  function Cutoff(clock: nat -> int, from: nat, count: nat): (n: nat)
    requires from <= count
    ensures from <= n <= count
    ensures forall i :: from <= i < n ==> InTime(clock, i)
    ensures n < count ==> !InTime(clock, n)
    decreases count - from
  {
    if from == count then count
    else if !InTime(clock, from) then from
    else Cutoff(clock, from + 1, count)
  }

  lemma {:induction false} CutoffAt(clock: nat -> int, from: nat, count: nat, n: nat)
    requires from <= n <= count
    requires forall i :: from <= i < n ==> InTime(clock, i)
    requires n < count ==> !InTime(clock, n)
    ensures Cutoff(clock, from, count) == n
    decreases count - from
  {
    if from < n {
      CutoffAt(clock, from + 1, count, n);
    }
  }

  /** What one host yields: nothing for a host whose discovery check is command-line only. */
  function HostOutcome<R>(host: string, commandlineOnly: string -> bool, discover: string -> (Option<R>, bool)): (Option<R>, bool)
  {
    if commandlineOnly(host) then (None, false) else discover(host)
  }

  /**
   * The results and the activation flag after handling `hosts` in order:
   * hosts that are not processed are skipped, only present results are
   * recorded, and the activation flag is the OR of their flags.
   */
  function Gather<R>(hosts: seq<string>, live: Option<seq<(string, int)>>,
                     commandlineOnly: string -> bool, discover: string -> (Option<R>, bool)): (map<string, R>, bool)
  {
    if hosts == [] then (map[], false)
    else HandleOne(Gather(hosts[..|hosts| - 1], live, commandlineOnly, discover), hosts[|hosts| - 1],
                   live, commandlineOnly, discover)
  }

  /** The results and the activation flag after handling one more host. */
  function HandleOne<R>(pass: (map<string, R>, bool), host: string, live: Option<seq<(string, int)>>,
                        commandlineOnly: string -> bool, discover: string -> (Option<R>, bool)): (map<string, R>, bool)
  {
    var outcome := HostOutcome(host, commandlineOnly, discover);
    if IsProcessed(live, host) && outcome.0.Some? then
      (pass.0[host := outcome.0.value], pass.1 || outcome.1)
    else pass
  }

  /** Whether the call of `autodiscovery` for `h` unlinks the marker of `h`. */
  predicate ConsumesMarker(h: string, live: Option<seq<(string, int)>>,
                           commandlineOnly: string -> bool, consumes: string -> bool)
  {
    IsProcessed(live, h) && !commandlineOnly(h) && consumes(h)
  }

  /**
   * The hosts whose marker `autodiscovery` consumes while handling `hosts`:
   * those it is called for (processed, not command-line only) and for which
   * `consumes` says that it removes the marker.
   */
  function Consumed(hosts: seq<string>, live: Option<seq<(string, int)>>,
                    commandlineOnly: string -> bool, consumes: string -> bool): set<string>
  {
    if hosts == [] then {}
    else
      var init := Consumed(hosts[..|hosts| - 1], live, commandlineOnly, consumes);
      var last := hosts[|hosts| - 1];
      if ConsumesMarker(last, live, commandlineOnly, consumes) then init + {last} else init
  }

  lemma {:induction false} ConsumedMembers(hosts: seq<string>, live: Option<seq<(string, int)>>,
                                           commandlineOnly: string -> bool, consumes: string -> bool)
    ensures forall h :: h in Consumed(hosts, live, commandlineOnly, consumes) <==>
      h in hosts && ConsumesMarker(h, live, commandlineOnly, consumes)
  {
    if hosts != [] {
      var init := hosts[..|hosts| - 1];
      ConsumedMembers(init, live, commandlineOnly, consumes);
      assert hosts == init + [hosts[|hosts| - 1]];
    }
  }

  lemma ConsumedStep(hosts: seq<string>, i: nat, live: Option<seq<(string, int)>>,
                     commandlineOnly: string -> bool, consumes: string -> bool)
    requires i < |hosts|
    ensures Consumed(hosts[..i + 1], live, commandlineOnly, consumes) ==
      if ConsumesMarker(hosts[i], live, commandlineOnly, consumes)
      then Consumed(hosts[..i], live, commandlineOnly, consumes) + {hosts[i]}
      else Consumed(hosts[..i], live, commandlineOnly, consumes)
  {
    assert hosts[..i + 1][..i] == hosts[..i];
  }

  /** Whether host `h` contributes a result. */
  predicate Yields<R>(h: string, live: Option<seq<(string, int)>>,
                      commandlineOnly: string -> bool, discover: string -> (Option<R>, bool))
  {
    IsProcessed(live, h) && !commandlineOnly(h) && discover(h).0.Some?
  }

  /**
   * A host has a result iff it was handled, processed, not command-line only
   * and its discovery gave one; the recorded result is that one.
   */
  lemma {:induction false} GatherResults<R>(hosts: seq<string>, live: Option<seq<(string, int)>>,
                                            commandlineOnly: string -> bool, discover: string -> (Option<R>, bool))
    ensures var results := Gather(hosts, live, commandlineOnly, discover).0;
      && (forall h :: h in results <==> h in hosts && Yields(h, live, commandlineOnly, discover))
      && (forall h :: h in results ==> results[h] == discover(h).0.value)
  {
    if hosts != [] {
      var init := hosts[..|hosts| - 1];
      GatherResults(init, live, commandlineOnly, discover);
      assert hosts == init + [hosts[|hosts| - 1]];
    }
  }

  /** Activation is required iff some host that yields a result asks for it. */
  lemma {:induction false} GatherActivation<R>(hosts: seq<string>, live: Option<seq<(string, int)>>,
                                               commandlineOnly: string -> bool, discover: string -> (Option<R>, bool))
    ensures Gather(hosts, live, commandlineOnly, discover).1
      <==> exists i :: 0 <= i < |hosts| && Yields(hosts[i], live, commandlineOnly, discover) && discover(hosts[i]).1
  {
    if hosts != [] {
      var init := hosts[..|hosts| - 1];
      GatherActivation(init, live, commandlineOnly, discover);
      assert forall i :: 0 <= i < |init| ==> hosts[i] == init[i];
    }
  }

  /** The steps of the pass that touch the configuration and the core, in order. */
  datatype Effect =
    | LoadConfig
    | ClearCaches
    | InitializeConfigCache
    | Reload(allHosts: set<string>, duplicates: seq<string>)
    | Restart(allHosts: set<string>, duplicates: seq<string>)

  /** The steps after a host asked for activation: the core call framed by cache resets (try and finally). */
  function ActivationEffects(isCmc: bool, coreHosts: set<string>, duplicates: seq<string>): seq<Effect>
  {
    var sorted := SortBy(duplicates, Itself);
    [ClearCaches, InitializeConfigCache]
      + [if isCmc then Reload(coreHosts, sorted) else Restart(coreHosts, sorted)]
      + [ClearCaches, InitializeConfigCache]
  }

  /**
   * The loop over the queue: before each host the clock is read and the
   * loop ends once the deadline has passed; the results gathered so far are
   * kept. `hosts` are the queued hosts when the loop starts; the call of
   * `autodiscovery` for a host unlinks its marker when `consumes` says so.
   */
  method DiscoverQueued<R>(queue: AutoQueue, hosts: seq<string>, live: Option<seq<(string, int)>>,
                           commandlineOnly: string -> bool, discover: string -> (Option<R>, bool),
                           consumes: string -> bool, clock: nat -> int)
    returns (results: map<string, R>, activation: bool)
    modifies queue
    ensures (results, activation) == Gather(hosts[..Cutoff(clock, 0, |hosts|)], live, commandlineOnly, discover)
    ensures queue.markers == WithoutHosts(old(queue.markers), Consumed(hosts[..Cutoff(clock, 0, |hosts|)], live, commandlineOnly, consumes))
  {
    var start := clock(0);
    results := map[];
    activation := false;
    var i := 0;
    var gone: set<string> := {};
    assert hosts[..0] == [];
    WithoutNothing(queue.markers);
    while i < |hosts|
      invariant 0 <= i <= |hosts|
      invariant forall j :: 0 <= j < i ==> InTime(clock, j)
      invariant (results, activation) == Gather(hosts[..i], live, commandlineOnly, discover)
      invariant gone == Consumed(hosts[..i], live, commandlineOnly, consumes)
      invariant queue.markers == WithoutHosts(old(queue.markers), gone)
    {
      var now := clock(i + 1);
      if now > start + Limit {
        break;
      }
      var host := hosts[i];
      assert hosts[..i + 1][..i] == hosts[..i];
      ConsumedStep(hosts, i, live, commandlineOnly, consumes);
      WithoutHostsUnion(old(queue.markers), gone, {host});
      results, activation := DiscoverOne(queue, host, live, commandlineOnly, discover, consumes, results, activation);
      if ConsumesMarker(host, live, commandlineOnly, consumes) {
        gone := gone + {host};
      }
      i := i + 1;
    }
    CutoffAt(clock, 0, |hosts|, i);
  }

  /**
   * One host of the loop: `autodiscovery` is called for a processed host
   * whose discovery check is not command-line only, may unlink its marker,
   * and its result and activation wish are recorded.
   */
  method DiscoverOne<R>(queue: AutoQueue, host: string, live: Option<seq<(string, int)>>,
                        commandlineOnly: string -> bool, discover: string -> (Option<R>, bool),
                        consumes: string -> bool, results: map<string, R>, activation: bool)
    returns (results': map<string, R>, activation': bool)
    modifies queue
    ensures (results', activation') == HandleOne((results, activation), host, live, commandlineOnly, discover)
    ensures queue.markers == if ConsumesMarker(host, live, commandlineOnly, consumes)
      then WithoutHosts(old(queue.markers), {host}) else old(queue.markers)
  {
    results', activation' := results, activation;
    if IsProcessed(live, host) {
      var hostOutcome := HostOutcome(host, commandlineOnly, discover);
      if !commandlineOnly(host) && consumes(host) {
        queue.Unmark(host);
      }
      if hostOutcome.0.Some? {
        results' := results[host := hostOutcome.0.value];
        activation' := activation || hostOutcome.1;
      }
    }
  }

  lemma {:induction false} WithoutNothing(markers: seq<Marker>)
    ensures WithoutHosts(markers, {}) == markers
  {
    if markers != [] {
      WithoutNothing(markers[..|markers| - 1]);
      assert markers == markers[..|markers| - 1] + [markers[|markers| - 1]];
    }
  }

  datatype CoreError = CoreActionFailed

  /**
   * The pass. `coreHosts` and `duplicates` are the hosts and the duplicate
   * host names of the configuration made for the core; `coreFails` whether
   * the reload or restart raises.
   */
  method ExecuteAutodiscovery<R>(
    queue: AutoQueue, config: HostsConfig, live: Option<seq<(string, int)>>,
    commandlineOnly: string -> bool, discover: string -> (Option<R>, bool), consumes: string -> bool,
    clock: nat -> int, isCmc: bool, coreHosts: set<string>, duplicates: seq<string>, coreFails: bool)
    returns (outcome: Result<(map<string, R>, bool), CoreError>, effects: seq<Effect>)
    modifies queue
    ensures old(queue.markers) == [] ==> queue.markers == [] && effects == [] && outcome == Ok((map[], false))
    ensures var kept := Configured(old(queue.markers), AllHosts(config));
      var hosts := MarkerHosts(kept);
      var handled := hosts[..Cutoff(clock, 0, |hosts|)];
      && (old(queue.markers) != [] ==>
            queue.markers == WithoutHosts(kept, Consumed(handled, live, commandlineOnly, consumes)))
      && (old(queue.markers) != [] && kept == [] ==> effects == [LoadConfig] && outcome == Ok((map[], false)))
      && (kept != [] ==>
            var pass := Gather(handled, live, commandlineOnly, discover);
            && (!pass.1 ==> effects == [LoadConfig] && outcome == Ok((pass.0, false)))
            && (pass.1 ==> effects == [LoadConfig] + ActivationEffects(isCmc, coreHosts, duplicates))
            && (pass.1 ==> outcome == if coreFails then Err(CoreActionFailed) else Ok((pass.0, true))))
  {
    if queue.markers == [] {
      return Ok((map[], false)), [];
    }
    effects := [LoadConfig];
    queue.RemoveUnconfigured(AllHosts(config));
    if queue.Oldest().None? {
      return Ok((map[], false)), effects;
    }
    var results, activation := DiscoverQueued(queue, MarkerHosts(queue.markers), live, commandlineOnly, discover, consumes, clock);
    if !activation {
      return Ok((results, false)), effects;
    }
    effects := effects + ActivationEffects(isCmc, coreHosts, duplicates);
    if coreFails {
      return Err(CoreActionFailed), effects;
    }
    return Ok((results, true)), effects;
  }

  /**
   * After the pass, a configured marker stays queued unless its host was
   * handled before the deadline and `autodiscovery` consumed it; in
   * particular the hosts left over by a timeout are still queued for the
   * next pass.
   */
  lemma PassKeepsUnhandledMarkers(kept: seq<Marker>, handled: seq<string>, live: Option<seq<(string, int)>>,
                                  commandlineOnly: string -> bool, consumes: string -> bool)
    ensures forall m :: m in WithoutHosts(kept, Consumed(handled, live, commandlineOnly, consumes)) <==>
      m in kept && !(m.host in handled && ConsumesMarker(m.host, live, commandlineOnly, consumes))
  {
    WithoutHostsMembers(kept, Consumed(handled, live, commandlineOnly, consumes));
    ConsumedMembers(handled, live, commandlineOnly, consumes);
  }
}
