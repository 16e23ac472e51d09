/**
 * The part of a device shared by every implementation (ble/device_base.go):
 * three timestamps and the linear service search. Times are abstract
 * instants given by the caller in place of `time.Now()`.
 */
module DeviceBase {
  import opened Wrappers
  import Uuid
  import Services

  /** `baseDevice`; the accessors `DiscoveredAt`, `ModifiedAt` and `LastSeenAt` are its fields. */
  datatype BaseDevice = BaseDevice(discoveredAt: int, modifiedAt: int, lastSeenAt: int)

  /** `newBaseDevice`: all three timestamps are the same instant. */
  function NewBaseDevice(now: int): (b: BaseDevice)
    ensures b.discoveredAt == now && b.modifiedAt == now && b.lastSeenAt == now
  {
    BaseDevice(now, now, now)
  }

  /** `lookupServiceFrom`: the first service whose UUID equals the query, else `(nil, false)`. */
  function LookupServiceFrom(services: seq<Services.Service>, u: Uuid.UUID): (r: (Option<Services.Service>, bool))
    ensures r.1 <==> exists i :: 0 <= i < |services| && Uuid.Equal(services[i].uuid, u)
    ensures !r.1 ==> r.0 == None
    ensures r.1 ==> r.0.Some? && exists i :: 0 <= i < |services| && services[i] == r.0.value && FirstMatch(services, u, i)
  {
    if services == [] then (None, false)
    else if Uuid.Equal(services[0].uuid, u) then
      assert FirstMatch(services, u, 0);
      (Some(services[0]), true)
    else
      var r := LookupServiceFrom(services[1..], u);
      if r.1 then
        var i :| 0 <= i < |services[1..]| && services[1..][i] == r.0.value && FirstMatch(services[1..], u, i);
        assert FirstMatch(services, u, i + 1);
        r
      else
        assert forall i :: 1 <= i < |services| ==> services[i] == services[1..][i - 1];
        r
  }

  /** Service `i` matches the query and none before it does. */
  predicate FirstMatch(services: seq<Services.Service>, u: Uuid.UUID, i: nat)
    requires i < |services|
  {
    Uuid.Equal(services[i].uuid, u) && forall j :: 0 <= j < i ==> !Uuid.Equal(services[j].uuid, u)
  }

  /** Among services with distinct UUIDs, the one found is the one with the queried UUID. */
  lemma FoundIsUnique(services: seq<Services.Service>, u: Uuid.UUID, i: nat)
    requires i < |services| && services[i].uuid == u
    requires forall j, k :: 0 <= j < k < |services| ==> services[j].uuid != services[k].uuid
    ensures LookupServiceFrom(services, u) == (Some(services[i]), true)
  {
    var r := LookupServiceFrom(services, u);
    var m :| 0 <= m < |services| && services[m] == r.0.value && FirstMatch(services, u, m);
    assert services[m].uuid == u;
  }
}
