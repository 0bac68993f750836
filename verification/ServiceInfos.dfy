/** The service snapshot the server pushes or answers a poll with. */
module ServiceInfos {
  import opened Wrappers
  import opened HostDiff
  import opened Keys

  const SERVICE_INFO_SEPARATOR := "@@"

  datatype ServiceInfo = ServiceInfo(
    name: string,
    groupName: string,
    clusters: string,
    cacheMillis: int,
    lastRefTime: int,
    checksum: string,
    allIps: Option<bool>,
    allIps3x: Option<bool>,
    reachProtectionThreshold: bool,
    hosts: Option<seq<ServiceInstance>>
  ) {
    predicate IsAllIps() {
      if allIps.Some? then allIps.value else allIps3x == Some(true)
    }

    /** Whether the snapshot counts as usable: marked as complete, or with a healthy host that
        carries weight. */
    predicate Validate() {
      IsAllIps() || (hosts.Some? && exists i :: 0 <= i < |hosts.value| && Usable(hosts.value[i]))
    }

    /** The key of the cache and of the listener registry. */
    function Key(): string {
      GroupedServiceName(name, groupName)
    }
  }

  predicate Usable(host: ServiceInstance) {
    host.healthy && host.weight > 0.0
  }

  /** Marked as complete, where the newer mark goes before the older. */
  ghost predicate MarkedComplete(info: ServiceInfo) {
    info.allIps == Some(true) || (info.allIps.None? && info.allIps3x == Some(true))
  }

  /** Some host is healthy and has positive weight. */
  ghost predicate HasUsableHost(info: ServiceInfo) {
    info.hosts.Some? &&
    exists i :: 0 <= i < |info.hosts.value| && info.hosts.value[i].healthy && info.hosts.value[i].weight > 0.0
  }

  lemma ValidateIff(info: ServiceInfo)
    ensures info.Validate() <==> MarkedComplete(info) || HasUsableHost(info)
  {
    if HasUsableHost(info) {
      var i :| 0 <= i < |info.hosts.value| && info.hosts.value[i].healthy && info.hosts.value[i].weight > 0.0;
      assert Usable(info.hosts.value[i]);
    }
  }

  predicate Contains(s: string, part: string) {
    part <= s || (s != [] && Contains(s[1..], part))
  }

  /** The part stands somewhere in the string. */
  ghost predicate Occurs(s: string, part: string, at: int) {
    0 <= at <= |s| - |part| && s[at..at + |part|] == part
  }

  lemma OccursShifted(s: string, part: string, at: int)
    requires s != []
    ensures 0 < at ==> (Occurs(s, part, at) <==> Occurs(s[1..], part, at - 1))
    ensures Occurs(s[1..], part, at) ==> Occurs(s, part, at + 1)
  {
    assert 0 <= at <= |s| - 1 - |part| ==> s[1..][at..at + |part|] == s[at + 1..at + 1 + |part|];
    assert 0 < at <= |s| - |part| ==> s[1..][at - 1..at - 1 + |part|] == s[at..at + |part|];
  }

  lemma {:induction false} ContainsIff(s: string, part: string)
    ensures Contains(s, part) <==> exists at :: Occurs(s, part, at)
  {
    assert part <= s <==> Occurs(s, part, 0);
    if s != [] {
      ContainsIff(s[1..], part);
      if !(part <= s) && Contains(s, part) {
        var at :| Occurs(s[1..], part, at);
        OccursShifted(s, part, at);
        assert Occurs(s, part, at + 1);
      }
    }
    forall at | Occurs(s, part, at) ensures Contains(s, part) {
      if at > 0 {
        OccursShifted(s, part, at);
      }
    }
  }

  /** Services without the separator in their names, in groups without its character, share their key
      exactly when name and group are the same. A name that holds the separator is grouped already: it
      is its own key in every group. */
  lemma GroupedNameIff(aName: string, aGroup: string, bName: string, bGroup: string)
    requires forall at :: !Occurs(aName, "@@", at) && !Occurs(bName, "@@", at)
    requires '@' !in aGroup && '@' !in bGroup
    ensures GroupedServiceName(aName, aGroup) == GroupedServiceName(bName, bGroup) <==>
            aName == bName && aGroup == bGroup
    ensures GroupedServiceName(aName, aGroup) == if aGroup == "" then aName else aGroup + "@@" + aName
    ensures GroupedServiceName(aGroup + "@@" + aName, bGroup) == aGroup + "@@" + aName
  {
    ContainsIff(aName, "@@");
    ContainsIff(bName, "@@");
    MarkInside(aGroup, aName);
    MarkInside(bGroup, bName);
    hide Contains;
    FirstPart(aGroup, bGroup, '@', "@" + aName, "@" + bName);
    CancelLeft("@", aName, bName);
    assert aGroup + "@@" + aName == aGroup + ['@'] + ("@" + aName);
    assert bGroup + "@@" + bName == bGroup + ['@'] + ("@" + bName);
  }

  lemma {:induction false} MarkInside(left: string, right: string)
    ensures Contains(left + "@@" + right, "@@")
  {
    var s := left + "@@" + right;
    if left == [] {
      assert s[..2] == "@@";
    } else {
      MarkInside(left[1..], right);
      assert s[1..] == left[1..] + "@@" + right;
    }
  }

  function GroupedServiceName(serviceName: string, groupName: string): string {
    if groupName != [] && !Contains(serviceName, SERVICE_INFO_SEPARATOR) then
      groupName + SERVICE_INFO_SEPARATOR + serviceName
    else
      serviceName
  }
}
