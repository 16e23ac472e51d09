/**
 * The device of ble/device_tiny.go: the scan result it was first seen in,
 * the services advertised for it (a table keyed by UUID), the signal
 * strength of the latest advertisement, a memoised manufacturer and, while
 * connected, a session with the radio adapter.
 */
module Devices {
  import opened Wrappers
  import opened Errors
  import Uuid
  import Index
  import Db
  import Manufacturers
  import Services
  import DeviceBase

  /**
   * The adapter's service discovery on a live connection: the service with
   * a UUID that the connection with the given handle finds, if any.
   */
  type Discovery = (nat, Uuid.UUID) -> Option<Services.Service>

  /** One service-data entry of an advertisement. */
  datatype ServiceDataElement = ServiceDataElement(uuid: Uuid.UUID, data: seq<bv8>)

  /** One manufacturer-data entry of an advertisement. */
  datatype ManufacturerDataElement = ManufacturerDataElement(companyId: int, data: seq<bv8>)

  /**
   * The parts of a radio scan result the core reads. `address` is the text
   * the adapter gives for the sender's address, which the scanner uses as
   * the device key.
   */
  datatype ScanResult = ScanResult(
    address: string,
    rssi: int,
    localName: string,
    serviceData: seq<ServiceDataElement>,
    manufacturerData: seq<ManufacturerDataElement>)

  /** The service `addServiceDataElement` builds: no characteristics in a scan result. */
  function ServiceOf(sd: ServiceDataElement): (s: Services.Service)
    ensures s.uuid == sd.uuid && s.data == sd.data && s.characteristics == []
  {
    Services.Service(sd.uuid, sd.data, [])
  }

  function ServiceKey(s: Services.Service): Uuid.UUID { s.uuid }

  function ServicesOf(sds: seq<ServiceDataElement>): (ss: seq<Services.Service>)
    ensures |ss| == |sds| && forall i :: 0 <= i < |sds| ==> ss[i] == ServiceOf(sds[i])
  {
    seq(|sds|, i requires 0 <= i < |sds| => ServiceOf(sds[i]))
  }

  /** The service table a scan result gives: one entry per UUID, the last element winning. */
  function ServiceTableOf(sds: seq<ServiceDataElement>): map<Uuid.UUID, Services.Service>
  {
    Index.LastWins(ServicesOf(sds), ServiceKey)
  }

  /** Every key holds its own service. */
  predicate WellKeyed(t: map<Uuid.UUID, Services.Service>) {
    forall u :: u in t ==> t[u].uuid == u
  }

  /** The UUIDs of a list of services. */
  function UuidsOf(ss: seq<Services.Service>): set<Uuid.UUID>
  {
    if ss == [] then {} else UuidsOf(ss[..|ss| - 1]) + {ss[|ss| - 1].uuid}
  }

  /** Services with distinct UUIDs have as many UUIDs as entries. */
  lemma {:induction false} DistinctCount(ss: seq<Services.Service>)
    requires forall i, j :: 0 <= i < j < |ss| ==> ss[i].uuid != ss[j].uuid
    ensures |UuidsOf(ss)| == |ss|
  {
    if ss != [] {
      var init := ss[..|ss| - 1];
      DistinctCount(init);
      UuidsOfMember(init, ss[|ss| - 1].uuid);
    }
  }

  lemma {:induction false} UuidsOfMember(ss: seq<Services.Service>, u: Uuid.UUID)
    ensures u in UuidsOf(ss) <==> exists i :: 0 <= i < |ss| && ss[i].uuid == u
  {
    if ss != [] {
      var init := ss[..|ss| - 1];
      UuidsOfMember(init, u);
      if u in UuidsOf(init) {
        var i :| 0 <= i < |init| && init[i].uuid == u;
        assert ss[i].uuid == u;
      }
      if exists i :: 0 <= i < |ss| && ss[i].uuid == u {
        var i :| 0 <= i < |ss| && ss[i].uuid == u;
        if i < |init| {
          assert init[i].uuid == u;
        }
      }
    }
  }

  /** One step of the range loop: a key not yet visited extends the listing. */
  lemma EnumerateStep(t: map<Uuid.UUID, Services.Service>, ss: seq<Services.Service>, rest: set<Uuid.UUID>, u: Uuid.UUID)
    requires u in rest && rest <= t.Keys
    requires UuidsOf(ss) == t.Keys - rest
    requires forall i, j :: 0 <= i < j < |ss| ==> ss[i].uuid != ss[j].uuid
    requires WellKeyed(t)
    requires forall i :: 0 <= i < |ss| ==> ss[i].uuid in t && t[ss[i].uuid] == ss[i]
    ensures forall i :: 0 <= i < |ss| + 1 ==> (ss + [t[u]])[i].uuid in t && t[(ss + [t[u]])[i].uuid] == (ss + [t[u]])[i]
    ensures UuidsOf(ss + [t[u]]) == t.Keys - (rest - {u})
    ensures forall i, j :: 0 <= i < j < |ss| + 1 ==> (ss + [t[u]])[i].uuid != (ss + [t[u]])[j].uuid
  {
    UuidsOfMember(ss, u);
    var next := ss + [t[u]];
    assert next[..|ss|] == ss;
    assert UuidsOf(next) == UuidsOf(ss) + {u};
  }

  /** The range loop over a service table, appending each service once. */
  method Enumerate(t: map<Uuid.UUID, Services.Service>) returns (ss: seq<Services.Service>)
    requires WellKeyed(t)
    ensures |ss| == |t|
    ensures forall i :: 0 <= i < |ss| ==> ss[i].uuid in t && t[ss[i].uuid] == ss[i]
    ensures UuidsOf(ss) == t.Keys
    ensures forall i, j :: 0 <= i < j < |ss| ==> ss[i].uuid != ss[j].uuid
  {
    ss := [];
    var rest := t.Keys;
    while rest != {}
      invariant rest <= t.Keys
      invariant forall i :: 0 <= i < |ss| ==> ss[i].uuid in t && t[ss[i].uuid] == ss[i]
      invariant UuidsOf(ss) == t.Keys - rest
      invariant forall i, j :: 0 <= i < j < |ss| ==> ss[i].uuid != ss[j].uuid
      decreases |rest|
    {
      ghost var w := Index.Element(rest);
      var u :| u in rest;
      EnumerateStep(t, ss, rest, u);
      ss := ss + [t[u]];
      rest := rest - {u};
    }
    assert t.Keys - rest == t.Keys;
    DistinctCount(ss);
    assert |t.Keys| == |t|;
  }

  /** The table has one entry per distinct UUID in the packet, each without characteristics. */
  lemma ServiceTableShape(sds: seq<ServiceDataElement>)
    ensures WellKeyed(ServiceTableOf(sds))
    ensures forall i :: 0 <= i < |sds| ==> sds[i].uuid in ServiceTableOf(sds)
    ensures forall u :: u in ServiceTableOf(sds) ==>
      ServiceTableOf(sds)[u].characteristics == [] && exists i :: 0 <= i < |sds| && sds[i].uuid == u
  {
    var ss := ServicesOf(sds);
    Index.LastWinsKeys(ss, ServiceKey);
    forall i | 0 <= i < |sds|
      ensures sds[i].uuid in ServiceTableOf(sds)
    {
      assert ss[i] in ss;
    }
    forall u | u in ServiceTableOf(sds)
      ensures exists i :: 0 <= i < |sds| && sds[i].uuid == u
    {
      var i :| 0 <= i < |ss| && ss[i] == ServiceTableOf(sds)[u];
    }
  }

  /** A later element with the same UUID replaces an earlier one. */
  lemma ServiceTableLastWins(sds: seq<ServiceDataElement>, i: nat)
    requires i < |sds|
    requires forall j :: i < j < |sds| ==> sds[j].uuid != sds[i].uuid
    ensures sds[i].uuid in ServiceTableOf(sds)
    ensures ServiceTableOf(sds)[sds[i].uuid] == ServiceOf(sds[i])
  {
    assert ServicesOf(sds)[i] == ServiceOf(sds[i]);
    Index.LastWinsAt(ServicesOf(sds), ServiceKey, i);
  }

  /**
   * The manufacturer `Manufacturer` settles on: the nil manufacturer for no
   * entries, otherwise the manufacturer of the last entry.
   */
  function ManufacturerOf(md: seq<ManufacturerDataElement>, companies: seq<Db.Company>): Manufacturers.Manufacturer
  {
    if |md| == 0 then Manufacturers.NilManufacturer()
    else Manufacturers.New(md[|md| - 1].companyId, md[|md| - 1].data, companies)
  }

  /** With entries, the company id and data are those of the last entry, whatever the count. */
  lemma ManufacturerOfEntries(md: seq<ManufacturerDataElement>, companies: seq<Db.Company>)
    ensures |md| == 0 ==> ManufacturerOf(md, companies) == Manufacturers.NilManufacturer()
    ensures |md| == 1 ==> ManufacturerOf(md, companies) == Manufacturers.New(md[0].companyId, md[0].data, companies)
    ensures |md| > 0 ==>
      ManufacturerOf(md, companies).company.value == md[|md| - 1].companyId &&
      ManufacturerOf(md, companies).data == md[|md| - 1].data
  {
  }

  /** The outcome of the adapter's connect call (address conversion included). */
  datatype ConnectOutcome = Connected(session: nat) | ConnectFailed(err: Error)

  class TinyDevice {
    var base: DeviceBase.BaseDevice
    const scanResult: ScanResult
    var manufacturer: Option<Manufacturers.Manufacturer>
    var rssi: int
    var adServices: map<Uuid.UUID, Services.Service>
    /** The adapter's connection handle (`tinyDev`); `None` when not connected. */
    var session: Option<nat>

    ghost predicate Valid()
      reads this
    {
      WellKeyed(adServices)
    }

    /** `newDeviceFromScanResult`. */
    constructor FromScanResult(sr: ScanResult, now: int)
      ensures Valid()
      ensures base == DeviceBase.NewBaseDevice(now) && scanResult == sr
      ensures manufacturer == None && rssi == sr.rssi && session == None
      ensures adServices == ServiceTableOf(sr.serviceData)
    {
      base := DeviceBase.NewBaseDevice(now);
      scanResult := sr;
      manufacturer := None;
      rssi := sr.rssi;
      adServices := map[];
      session := None;
      new;
      ghost var ss := ServicesOf(sr.serviceData);
      for i := 0 to |sr.serviceData|
        invariant adServices == Index.LastWins(ss[..i], ServiceKey)
        invariant base == DeviceBase.NewBaseDevice(now) && manufacturer == None
        invariant rssi == sr.rssi && session == None
      {
        assert ss[..i + 1][..i] == ss[..i];
        AddServiceDataElement(sr.serviceData[i]);
      }
      assert ss[..|sr.serviceData|] == ss;
      ServiceTableShape(sr.serviceData);
    }

    /** `addServiceDataElement`: store the element's service under its UUID. */
    method AddServiceDataElement(sd: ServiceDataElement)
      modifies this
      ensures adServices == old(adServices)[sd.uuid := ServiceOf(sd)]
      ensures base == old(base) && manufacturer == old(manufacturer)
      ensures rssi == old(rssi) && session == old(session)
    {
      AddService(ServiceOf(sd));
    }

    /** `addService`: store under the service's UUID, replacing any entry with that key. */
    method AddService(s: Services.Service)
      modifies this
      ensures adServices == old(adServices)[s.uuid := s]
      ensures old(Valid()) ==> Valid()
      ensures base == old(base) && manufacturer == old(manufacturer)
      ensures rssi == old(rssi) && session == old(session)
    {
      adServices := adServices[s.uuid := s];
    }

    /** `Services`: every stored service once, in the table's iteration order. */
    method Services() returns (ss: seq<Services.Service>)
      requires Valid()
      ensures |ss| == |adServices|
      ensures forall i :: 0 <= i < |ss| ==> ss[i].uuid in adServices && adServices[ss[i].uuid] == ss[i]
      ensures UuidsOf(ss) == adServices.Keys
      ensures forall i, j :: 0 <= i < j < |ss| ==> ss[i].uuid != ss[j].uuid
    {
      ss := Enumerate(adServices);
    }

    /** `lookupAdvertisedService`: the stored service with the UUID, else `(nil, false)`. */
    method LookupAdvertisedService(u: Uuid.UUID) returns (s: Option<Services.Service>, ok: bool)
      requires Valid()
      ensures ok <==> u in adServices
      ensures ok ==> s == Some(adServices[u])
      ensures !ok ==> s == None
    {
      var ss := Services();
      var r := DeviceBase.LookupServiceFrom(ss, u);
      s, ok := r.0, r.1;
      if u in adServices {
        UuidsOfMember(ss, u);
        var i :| 0 <= i < |ss| && ss[i].uuid == u;
        DeviceBase.FoundIsUnique(ss, u, i);
      }
    }

    /**
     * `LookupService`: the advertised table when not connected; when
     * connected, the answer of the adapter's service discovery over this
     * device's own session.
     */
    method LookupService(u: Uuid.UUID, discover: Discovery)
      returns (s: Option<Services.Service>, ok: bool)
      requires Valid()
      ensures session.None? ==> (ok <==> u in adServices) && (ok ==> s == Some(adServices[u])) && (!ok ==> s == None)
      ensures session.Some? ==> s == discover(session.value, u) && ok == discover(session.value, u).Some?
    {
      if session.None? {
        s, ok := LookupAdvertisedService(u);
      } else {
        s := discover(session.value, u);
        ok := s.Some?;
      }
    }

    /** `Manufacturer`: computed from the scan result on the first call, then returned as stored. */
    method Manufacturer(companies: seq<Db.Company>) returns (m: Manufacturers.Manufacturer)
      modifies this
      ensures old(manufacturer).Some? ==> m == old(manufacturer).value
      ensures old(manufacturer).None? ==> m == ManufacturerOf(scanResult.manufacturerData, companies)
      ensures manufacturer == Some(m)
      ensures base == old(base) && adServices == old(adServices)
      ensures rssi == old(rssi) && session == old(session)
    {
      if manufacturer.None? {
        var md := scanResult.manufacturerData;
        if |md| == 0 {
          manufacturer := Some(Manufacturers.NilManufacturer());
        } else if |md| == 1 {
          manufacturer := Some(Manufacturers.New(md[0].companyId, md[0].data, companies));
        } else {
          for i := 0 to |md|
            invariant i > 0 ==> manufacturer == Some(Manufacturers.New(md[i - 1].companyId, md[i - 1].data, companies))
            invariant base == old(base) && adServices == old(adServices)
            invariant rssi == old(rssi) && session == old(session)
          {
            manufacturer := Some(Manufacturers.New(md[i].companyId, md[i].data, companies));
          }
        }
      }
      m := manufacturer.value;
    }

    /** `IsConnected`: a session handle is present. */
    predicate IsConnected()
      reads this
    {
      session.Some?
    }

    /**
     * `Connect`: keeps the session the adapter opens; a failure (the address
     * conversion or the adapter's own) is returned and nothing changes.
     */
    method Connect(outcome: ConnectOutcome) returns (err: Option<Error>)
      modifies this
      ensures outcome.Connected? ==> err == None && session == Some(outcome.session)
      ensures outcome.ConnectFailed? ==> err == Some(outcome.err) && session == old(session)
      ensures base == old(base) && adServices == old(adServices)
      ensures rssi == old(rssi) && manufacturer == old(manufacturer)
    {
      match outcome
      case Connected(h) =>
        session := Some(h);
        err := None;
      case ConnectFailed(e) =>
        err := Some(e);
    }

    /**
     * `Disconnect`: success without any change when not connected; otherwise
     * the adapter's answer `adapterErr`, and the session is dropped only
     * when the adapter succeeded.
     */
    method Disconnect(adapterErr: Option<Error>) returns (err: Option<Error>)
      modifies this
      ensures old(session).None? ==> err == None && session == None
      ensures old(session).Some? ==> err == adapterErr
      ensures old(session).Some? ==> session == (if adapterErr.Some? then old(session) else None)
      ensures base == old(base) && adServices == old(adServices)
      ensures rssi == old(rssi) && manufacturer == old(manufacturer)
    {
      if session.None? {
        return None;
      }
      if adapterErr.Some? {
        return adapterErr;
      }
      session := None;
      err := None;
    }
  }
}
