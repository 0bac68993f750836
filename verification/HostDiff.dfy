/** Service instances and the difference between two host lists. */
module HostDiff {
  import opened Wrappers
  import opened Decimal

  datatype ServiceInstance = ServiceInstance(
    instanceId: Option<string>,
    ip: string,
    port: int,
    weight: real,
    healthy: bool,
    enabled: bool,
    ephemeral: bool,
    clusterName: Option<string>,
    serviceName: Option<string>,
    metadata: map<string, string>
  ) {
    /** The key hosts are compared under. */
    function IpAndPort(): string {
      ip + ":" + PrintInt(port)
    }

    predicate IsSameInstance(other: ServiceInstance) {
      && instanceId == other.instanceId
      && ip == other.ip
      && port == other.port
      && weight == other.weight
      && healthy == other.healthy
      && enabled == other.enabled
      && ephemeral == other.ephemeral
      && clusterName == other.clusterName
      && serviceName == other.serviceName
      && metadata == other.metadata
    }
  }

  type HostMap = map<string, ServiceInstance>

  /** The hosts by ip and port; a later host replaces an earlier one with the same key. */
  function Hosts(hosts: seq<ServiceInstance>): HostMap {
    if hosts == [] then map[]
    else Hosts(hosts[..|hosts| - 1])[hosts[|hosts| - 1].IpAndPort() := hosts[|hosts| - 1]]
  }

  /** The printed key tells ip and port apart, whatever characters the ip has. */
  lemma KeyInjective(a: ServiceInstance, b: ServiceInstance)
    ensures a.IpAndPort() == b.IpAndPort() <==> a.ip == b.ip && a.port == b.port
  {
    if a.IpAndPort() == b.IpAndPort() {
      var pa, pb := PrintInt(a.port), PrintInt(b.port);
      PrintedWithoutColon(a.port);
      PrintedWithoutColon(b.port);
      var k := a.IpAndPort();
      assert k[|a.ip|] == ':' && k[|b.ip|] == ':';
      assert |a.ip| == |b.ip| by {
        assert forall i :: |a.ip| < i < |k| ==> k[i] == pa[i - |a.ip| - 1];
        assert forall i :: |b.ip| < i < |k| ==> k[i] == pb[i - |b.ip| - 1];
      }
      assert a.ip == k[..|a.ip|] == b.ip;
      assert pa == k[|a.ip| + 1..] == pb;
      PrintIntInjective(a.port, b.port);
    }
  }

  lemma PrintedWithoutColon(n: int)
    ensures forall i :: 0 <= i < |PrintInt(n)| ==> PrintInt(n)[i] != ':'
  {
    PrintedValue(if n < 0 then -n else n);
  }

  /** A host that no later host shadows. */
  ghost predicate LastWithKey(hosts: seq<ServiceInstance>, i: int, key: string) {
    && 0 <= i < |hosts|
    && hosts[i].IpAndPort() == key
    && forall j :: i < j < |hosts| ==> hosts[j].IpAndPort() != key
  }

  /** A key is present exactly when some host has it, and then holds the last such host. */
  lemma {:induction false} HostsLastWins(hosts: seq<ServiceInstance>, key: string)
    ensures key in Hosts(hosts) <==> exists i :: LastWithKey(hosts, i, key)
    ensures forall i :: LastWithKey(hosts, i, key) ==> key in Hosts(hosts) && Hosts(hosts)[key] == hosts[i]
  {
    hide ServiceInstance.IpAndPort;
    if hosts != [] {
      var n := |hosts| - 1;
      var front := hosts[..n];
      HostsLastWins(front, key);
      if hosts[n].IpAndPort() == key {
        assert LastWithKey(hosts, n, key);
        assert forall i :: LastWithKey(hosts, i, key) ==> i == n;
      } else {
        forall i ensures LastWithKey(hosts, i, key) <==> LastWithKey(front, i, key) {
          assert 0 <= i < n ==> front[i] == hosts[i];
          assert forall j :: 0 <= j < n ==> front[j] == hosts[j];
        }
      }
    }
  }

  datatype ServiceInfoDiff = ServiceInfoDiff(
    newInstances: seq<ServiceInstance>,
    removedInstances: seq<ServiceInstance>,
    modifiedInstances: seq<ServiceInstance>,
    changed: bool
  )

  /** Every host stands under its own key. */
  ghost predicate Keyed(m: HostMap) {
    forall k :: k in m ==> m[k].IpAndPort() == k
  }

  lemma {:induction false} HostsKeyed(hosts: seq<ServiceInstance>)
    ensures Keyed(Hosts(hosts))
  {
    if hosts != [] {
      HostsKeyed(hosts[..|hosts| - 1]);
    }
  }

  /** The list holds a map's hosts for exactly these keys, each once. */
  ghost predicate Lists(hosts: seq<ServiceInstance>, m: HostMap, keys: set<string>) {
    && (forall i :: 0 <= i < |hosts| ==> var k := hosts[i].IpAndPort(); k in keys && k in m && m[k] == hosts[i])
    && (forall k :: k in keys ==> exists i :: 0 <= i < |hosts| && hosts[i].IpAndPort() == k)
    && (forall i, j :: 0 <= i < j < |hosts| ==> hosts[i].IpAndPort() != hosts[j].IpAndPort())
  }

  function NewKeys(before: HostMap, now: HostMap): set<string> {
    now.Keys - before.Keys
  }

  function ModifiedKeys(before: HostMap, now: HostMap): set<string> {
    set k | k in now.Keys && k in before.Keys && before[k] != now[k]
  }

  ghost predicate Describes(diff: ServiceInfoDiff, before: HostMap, now: HostMap) {
    && Lists(diff.newInstances, now, NewKeys(before, now))
    && Lists(diff.modifiedInstances, now, ModifiedKeys(before, now))
    && Lists(diff.removedInstances, before, NewKeys(now, before))
    && (diff.changed <==> diff.newInstances != [] || diff.removedInstances != [] || diff.modifiedInstances != [])
  }

  function KeysOf(hosts: seq<ServiceInstance>): set<string> {
    set i | 0 <= i < |hosts| :: hosts[i].IpAndPort()
  }

  /** Takes the removed hosts out of a map and puts the new and the modified ones in. */
  function Patch(before: HostMap, diff: ServiceInfoDiff): HostMap {
    before - KeysOf(diff.removedInstances) + Hosts(diff.newInstances) + Hosts(diff.modifiedInstances)
  }

  lemma {:induction false} ListsHosts(hosts: seq<ServiceInstance>, m: HostMap, keys: set<string>)
    requires Lists(hosts, m, keys)
    ensures Hosts(hosts) == map k | k in keys && k in m :: m[k]
    ensures KeysOf(hosts) == keys && keys <= m.Keys
    ensures hosts == [] <==> keys == {}
  {
    hide ServiceInstance.IpAndPort;
    forall k
      ensures k in Hosts(hosts) <==> k in keys
      ensures k in keys ==> k in m && Hosts(hosts)[k] == m[k]
    {
      HostsLastWins(hosts, k);
      if k in keys {
        var i :| 0 <= i < |hosts| && hosts[i].IpAndPort() == k;
        assert LastWithKey(hosts, i, k);
      }
    }
    if hosts != [] {
      assert hosts[0].IpAndPort() in keys;
    }
  }

  /** The three lists share no key, together they turn the old hosts into the new ones, and the
      difference says `changed` exactly when the two last-wins maps differ. */
  lemma DiffIsPatch(diff: ServiceInfoDiff, before: HostMap, now: HostMap)
    requires Describes(diff, before, now)
    ensures KeysOf(diff.newInstances) !! KeysOf(diff.modifiedInstances) !! KeysOf(diff.removedInstances)
    ensures Patch(before, diff) == now
    ensures diff.changed <==> before != now
  {
    hide Lists, Hosts, KeysOf;
    ListsHosts(diff.newInstances, now, NewKeys(before, now));
    ListsHosts(diff.modifiedInstances, now, ModifiedKeys(before, now));
    ListsHosts(diff.removedInstances, before, NewKeys(now, before));
    assert diff.changed <==> NewKeys(before, now) + ModifiedKeys(before, now) + NewKeys(now, before) != {};
    NoKeysIff(before, now);
  }

  lemma NoKeysIff(before: HostMap, now: HostMap)
    ensures before == now <==> NewKeys(before, now) + ModifiedKeys(before, now) + NewKeys(now, before) == {}
  {
    if NewKeys(before, now) + ModifiedKeys(before, now) + NewKeys(now, before) == {} {
      assert before.Keys == now.Keys by {
        assert NewKeys(before, now) == {} && NewKeys(now, before) == {};
      }
      forall k | k in before ensures before[k] == now[k] {
        assert k !in ModifiedKeys(before, now);
      }
    }
  }

  lemma ListsOneMore(hosts: seq<ServiceInstance>, m: HostMap, keys: set<string>, left: set<string>, k: string)
    requires Lists(hosts, m, keys - left) && Keyed(m)
    requires k in left && k in m
    ensures Lists(if k in keys then hosts + [m[k]] else hosts, m, keys - (left - {k}))
  {
    hide ServiceInstance.IpAndPort;
    var more := hosts + [m[k]];
    if k in keys {
      forall q | q in keys - (left - {k}) ensures exists i :: 0 <= i < |more| && more[i].IpAndPort() == q {
        if q != k {
          assert q in keys - left;
          var i :| 0 <= i < |hosts| && hosts[i].IpAndPort() == q;
          assert more[i].IpAndPort() == q;
        } else {
          assert more[|hosts|].IpAndPort() == q;
        }
      }
    } else {
      assert keys - (left - {k}) == keys - left;
    }
  }

  lemma ListsNone(m: HostMap, keys: set<string>)
    requires keys <= m.Keys
    ensures Lists([], m, keys - m.Keys)
  {
  }

  /** Compares two host lists. The two maps are walked in whatever order they give their keys. */
  method Calculate(oldHosts: seq<ServiceInstance>, newHosts: seq<ServiceInstance>) returns (diff: ServiceInfoDiff)
    ensures Describes(diff, Hosts(oldHosts), Hosts(newHosts))
    ensures KeysOf(diff.newInstances) !! KeysOf(diff.modifiedInstances) !! KeysOf(diff.removedInstances)
    ensures Patch(Hosts(oldHosts), diff) == Hosts(newHosts)
    ensures diff.changed <==> Hosts(oldHosts) != Hosts(newHosts)
  {
    var before, now := Hosts(oldHosts), Hosts(newHosts);
    HostsKeyed(oldHosts);
    HostsKeyed(newHosts);
    var added, modified := WalkNew(before, now);
    var removed := WalkOld(before, now);
    diff := ServiceInfoDiff(added, removed, modified, added != [] || removed != [] || modified != []);
    DiffIsPatch(diff, before, now);
  }

  /** The first loop: new and modified hosts. */
  method WalkNew(before: HostMap, now: HostMap) returns (added: seq<ServiceInstance>, modified: seq<ServiceInstance>)
    requires Keyed(before) && Keyed(now)
    ensures Lists(added, now, NewKeys(before, now))
    ensures Lists(modified, now, ModifiedKeys(before, now))
  {
    hide Lists;
    ghost var newKeys, modifiedKeys := NewKeys(before, now), ModifiedKeys(before, now);
    added, modified := [], [];
    ListsNone(now, newKeys);
    ListsNone(now, modifiedKeys);
    var left := now.Keys;
    while left != {}
      invariant left <= now.Keys
      invariant Lists(added, now, newKeys - left)
      invariant Lists(modified, now, modifiedKeys - left)
      decreases |left|
    {
      var key :| key in left;
      ListsOneMore(added, now, newKeys, left, key);
      ListsOneMore(modified, now, modifiedKeys, left, key);
      if key !in before {
        added := added + [now[key]];
      } else if !before[key].IsSameInstance(now[key]) {
        modified := modified + [now[key]];
      }
      left := left - {key};
    }
    assert newKeys - left == newKeys && modifiedKeys - left == modifiedKeys;
  }

  /** The second loop: hosts that are gone. */
  method WalkOld(before: HostMap, now: HostMap) returns (removed: seq<ServiceInstance>)
    requires Keyed(before) && Keyed(now)
    ensures Lists(removed, before, NewKeys(now, before))
  {
    hide Lists;
    ghost var goneKeys := NewKeys(now, before);
    removed := [];
    ListsNone(before, goneKeys);
    var left := before.Keys;
    while left != {}
      invariant left <= before.Keys
      invariant Lists(removed, before, goneKeys - left)
      decreases |left|
    {
      var key :| key in left;
      ListsOneMore(removed, before, goneKeys, left, key);
      if key !in now {
        removed := removed + [before[key]];
      }
      left := left - {key};
    }
    assert goneKeys - left == goneKeys;
  }
}
