/**
 * The `set-autochecks-v2` automation (cmk/base/automations/check_mk.py):
 * it stores the services a user accepted on the discovery page. For a real
 * host they go to the host itself; for a cluster each node keeps those of
 * its own services that the cluster's target set contains, with the cluster
 * as their effective host.
 */
module SetAutochecks {
  import opened Wrappers
  import DiscoveryNotify

  /** What `id()` of an autocheck entry identifies: the check plugin and the item. */
  datatype ServiceId = ServiceId(plugin: string, item: Option<string>)

  /** An autocheck entry; `parameters` stands for everything besides its identity. */
  datatype Service = Service(id: ServiceId, parameters: string)

  datatype SetAutochecksInput = SetAutochecksInput(
    discoveredHost: string,
    targetServices: map<string, Service>,
    nodesServices: map<string, map<string, Service>>)

  /** One call of `set_autochecks_for_effective_host`, for the owner under which it is keyed. */
  datatype AutochecksWrite = AutochecksWrite(effectiveHost: string, services: set<Service>)

  function Values(services: map<string, Service>): set<Service>
  {
    set name | name in services :: services[name]
  }

  /** The ids of the cluster's target services. */
  function DesiredIds(input: SetAutochecksInput): set<ServiceId>
  {
    set s | s in Values(input.targetServices) :: s.id
  }

  /**
   * The autochecks written, keyed by their owner. A host that is not a
   * cluster owns all its target services; a cluster writes for every node
   * the node's services whose id is desired on the cluster.
   */
  function AutochecksWrites(input: SetAutochecksInput, clusters: set<string>): (w: map<string, AutochecksWrite>)
    ensures input.discoveredHost !in clusters ==>
      w.Keys == {input.discoveredHost} &&
      w[input.discoveredHost] == AutochecksWrite(input.discoveredHost, Values(input.targetServices))
    ensures input.discoveredHost in clusters ==> w.Keys == input.nodesServices.Keys
    ensures input.discoveredHost in clusters ==> forall node :: node in w ==>
      && w[node].effectiveHost == input.discoveredHost
      && (forall s :: s in w[node].services <==> s in Values(input.nodesServices[node]) && s.id in DesiredIds(input))
  {
    if input.discoveredHost !in clusters then
      map[input.discoveredHost := AutochecksWrite(input.discoveredHost, Values(input.targetServices))]
    else
      var desired := DesiredIds(input);
      map node | node in input.nodesServices ::
        AutochecksWrite(input.discoveredHost, set s | s in Values(input.nodesServices[node]) && s.id in desired)
  }

  /**
   * On a cluster, a node is given exactly those of its services for which
   * some target service of the cluster has the same identity; nothing else
   * is written for it.
   */
  lemma ClusterNodeWrites(input: SetAutochecksInput, clusters: set<string>, node: string, s: Service)
    requires input.discoveredHost in clusters && node in input.nodesServices
    ensures s in AutochecksWrites(input, clusters)[node].services <==>
      (exists name :: name in input.nodesServices[node] && input.nodesServices[node][name] == s)
      && (exists name :: name in input.targetServices && input.targetServices[name].id == s.id)
  {
    var w := AutochecksWrites(input, clusters);
    if s.id in DesiredIds(input) {
      var t :| t in Values(input.targetServices) && t.id == s.id;
      var name :| name in input.targetServices && input.targetServices[name] == t;
    }
    if exists name :: name in input.targetServices && input.targetServices[name].id == s.id {
      var name :| name in input.targetServices && input.targetServices[name].id == s.id;
      assert input.targetServices[name] in Values(input.targetServices);
    }
  }

  /** What the automation does: the autochecks it writes, and whether it schedules the discovery check. */
  datatype SetAutochecksOutcome = SetAutochecksOutcome(writes: map<string, AutochecksWrite>, triggersCheck: bool)

  /**
   * `AutomationSetAutochecksV2.execute`: the writes above, followed by the
   * guarded scheduling of the discovery check of the discovered host, which
   * a cluster never gets.
   */
  function SetAutochecksV2(input: SetAutochecksInput, clusters: set<string>, autotrigger: bool, commandlineOnly: bool)
    : (r: SetAutochecksOutcome)
    ensures r.writes == AutochecksWrites(input, clusters)
    ensures r.triggersCheck <==> autotrigger && !commandlineOnly && input.discoveredHost !in clusters
    ensures input.discoveredHost in clusters ==> !r.triggersCheck
  {
    SetAutochecksOutcome(
      AutochecksWrites(input, clusters),
      DiscoveryNotify.ShouldTrigger(autotrigger, commandlineOnly, input.discoveredHost in clusters))
  }
}
