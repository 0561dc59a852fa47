/** The service resolver, `getServiceID`: the provider's service listing (a call outside
    this program, taken here as its result) is scanned for a service whose name equals the
    requested name exactly. */
module ServiceResolver {
  import opened Wrappers

  /** A service summary as the provider lists it. */
  datatype Service = Service(id: string, name: string)

  /** Index k holds the first service whose name is exactly `name`. */
  predicate IsFirstExact(services: seq<Service>, name: string, k: int) {
    0 <= k < |services| && services[k].name == name &&
    forall j :: 0 <= j < k ==> services[j].name != name
  }

  /** `getServiceID`: a failed listing gives ("", its error); a successful one gives the ID
      of the first exactly named service, or "" with no error when there is none. */
  method GetServiceID(serviceName: string, listed: Result<seq<Service>>) returns (id: string, err: Outcome)
    ensures listed.Err? ==> id == "" && err == Fail(listed.error)
    ensures listed.Ok? ==> err == Pass
    ensures listed.Ok? ==>
      (exists k :: IsFirstExact(listed.value, serviceName, k) && id == listed.value[k].id) ||
      (id == "" && forall k :: 0 <= k < |listed.value| ==> listed.value[k].name != serviceName)
  {
    if listed.Err? {
      return "", Fail(listed.error);
    }
    var services := listed.value;
    for i := 0 to |services|
      invariant forall j :: 0 <= j < i ==> services[j].name != serviceName
    {
      if services[i].name == serviceName {
        assert IsFirstExact(services, serviceName, i);
        return services[i].id, Pass;
      }
    }
    return "", Pass;
  }
}
