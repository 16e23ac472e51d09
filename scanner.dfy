/**
 * The scanner of ble/scanner_tiny.go: a table from address text to device,
 * and the scan callback that folds each advertisement into it. The radio
 * adapter delivers the advertisements; here they are the callback's inputs.
 */
module Scanner {
  import opened Wrappers
  import opened Errors
  import Uuid
  import Index
  import Services
  import DeviceBase
  import Tiny = Devices

  /** A scanner option, as the type switch of `Scan` sees it; a handler is named by a number. */
  datatype ScannerOption = ScanHandler(handler: nat) | OtherOption

  /** The handlers among the options, in option order. */
  function ScanHandlersOf(opts: seq<ScannerOption>): (hs: seq<nat>)
    ensures |hs| <= |opts|
    ensures forall h :: h in hs <==> ScanHandler(h) in opts
  {
    if opts == [] then []
    else
      var init := opts[..|opts| - 1];
      var last := opts[|opts| - 1];
      assert opts == init + [last];
      ScanHandlersOf(init) + (if last.ScanHandler? then [last.handler] else [])
  }

  /** Collecting over two runs of options is collecting over each, in order. */
  lemma {:induction false} ScanHandlersAppend(a: seq<ScannerOption>, b: seq<ScannerOption>)
    ensures ScanHandlersOf(a + b) == ScanHandlersOf(a) + ScanHandlersOf(b)
    decreases |b|
  {
    if b == [] {
      assert a + b == a;
    } else {
      var init := b[..|b| - 1];
      assert (a + b)[..|a + b| - 1] == a + init;
      assert (a + b)[|a + b| - 1] == b[|b| - 1];
      ScanHandlersAppend(a, init);
    }
  }

  /** The option loop of `Scan`: only `ScanHandler` options are kept, in option order. */
  method CollectScanHandlers(opts: seq<ScannerOption>) returns (hs: seq<nat>)
    ensures hs == ScanHandlersOf(opts)
  {
    hs := [];
    for i := 0 to |opts|
      invariant hs == ScanHandlersOf(opts[..i])
    {
      assert opts[..i + 1][..i] == opts[..i];
      match opts[i]
      case ScanHandler(h) =>
        hs := hs + [h];
      case OtherOption =>
    }
    assert opts[..|opts|] == opts;
  }

  // The merge of an advertisement into a known device.

  /**
   * A scanned service with UUID `u` is missing from the device: not in the
   * advertised table `t` when not connected, not found by the adapter's
   * service discovery `discover` on the device's session when connected.
   */
  predicate Absent(t: map<Uuid.UUID, Services.Service>, u: Uuid.UUID, session: Option<nat>, discover: Tiny.Discovery)
  {
    if session.Some? then discover(session.value, u).None? else u !in t
  }

  /** The scanned services among `keys` that the callback adds to a device whose table was `t`. */
  function AddedAmong(t: map<Uuid.UUID, Services.Service>, scanned: map<Uuid.UUID, Services.Service>, keys: set<Uuid.UUID>,
                      session: Option<nat>, discover: Tiny.Discovery): set<Uuid.UUID>
  {
    set u | u in keys && u in scanned && Absent(t, u, session, discover)
  }

  /** The device's table after the callback has visited the scanned services in `keys`. */
  function MergedAmong(t: map<Uuid.UUID, Services.Service>, scanned: map<Uuid.UUID, Services.Service>, keys: set<Uuid.UUID>,
                       session: Option<nat>, discover: Tiny.Discovery): map<Uuid.UUID, Services.Service>
  {
    t + map u | u in AddedAmong(t, scanned, keys, session, discover) :: scanned[u]
  }

  /** The services one advertisement adds to a device. */
  function Added(t: map<Uuid.UUID, Services.Service>, scanned: map<Uuid.UUID, Services.Service>,
                 session: Option<nat>, discover: Tiny.Discovery): set<Uuid.UUID>
  {
    AddedAmong(t, scanned, scanned.Keys, session, discover)
  }

  /** The device's table after one advertisement. */
  function Merged(t: map<Uuid.UUID, Services.Service>, scanned: map<Uuid.UUID, Services.Service>,
                  session: Option<nat>, discover: Tiny.Discovery): map<Uuid.UUID, Services.Service>
  {
    MergedAmong(t, scanned, scanned.Keys, session, discover)
  }

  /** One more scanned service visited: it is stored exactly when it is absent. */
  lemma MergeStep(t: map<Uuid.UUID, Services.Service>, scanned: map<Uuid.UUID, Services.Service>, keys: set<Uuid.UUID>,
                  u: Uuid.UUID, session: Option<nat>, discover: Tiny.Discovery)
    requires u in scanned && u !in keys
    ensures u in MergedAmong(t, scanned, keys, session, discover) <==> u in t
    ensures Absent(t, u, session, discover) ==>
      MergedAmong(t, scanned, keys + {u}, session, discover) == MergedAmong(t, scanned, keys, session, discover)[u := scanned[u]] &&
      AddedAmong(t, scanned, keys + {u}, session, discover) == AddedAmong(t, scanned, keys, session, discover) + {u}
    ensures !Absent(t, u, session, discover) ==>
      MergedAmong(t, scanned, keys + {u}, session, discover) == MergedAmong(t, scanned, keys, session, discover) &&
      AddedAmong(t, scanned, keys + {u}, session, discover) == AddedAmong(t, scanned, keys, session, discover)
  {
    var a := AddedAmong(t, scanned, keys, session, discover);
    var a' := AddedAmong(t, scanned, keys + {u}, session, discover);
    if Absent(t, u, session, discover) {
      assert a' == a + {u};
    } else {
      assert a' == a;
    }
  }

  /** Nothing visited yet: the table is as it was. */
  lemma MergeNone(t: map<Uuid.UUID, Services.Service>, scanned: map<Uuid.UUID, Services.Service>,
                  session: Option<nat>, discover: Tiny.Discovery)
    ensures AddedAmong(t, scanned, {}, session, discover) == {}
    ensures MergedAmong(t, scanned, {}, session, discover) == t
  {
    assert (map u | u in AddedAmong(t, scanned, {}, session, discover) :: scanned[u]) == map[];
  }

  /**
   * Additivity: no service is removed, and the table gains exactly the
   * scanned UUIDs; an entry changes only where a service was added.
   */
  lemma MergeAdditive(t: map<Uuid.UUID, Services.Service>, scanned: map<Uuid.UUID, Services.Service>,
                      session: Option<nat>, discover: Tiny.Discovery)
    ensures Merged(t, scanned, session, discover).Keys == t.Keys + Added(t, scanned, session, discover)
    ensures Added(t, scanned, session, discover) <= scanned.Keys
    ensures forall u :: u in t && u !in Added(t, scanned, session, discover) ==> Merged(t, scanned, session, discover)[u] == t[u]
    ensures forall u :: u in Added(t, scanned, session, discover) ==> Merged(t, scanned, session, discover)[u] == scanned[u]
  {
  }

  /**
   * First write wins: when not connected, a service already on the device
   * is never replaced, and the table becomes the scanned table overridden
   * by the old one.
   */
  lemma FirstWriteWins(t: map<Uuid.UUID, Services.Service>, scanned: map<Uuid.UUID, Services.Service>,
                       discover: Tiny.Discovery)
    ensures forall u :: u in t ==> u in Merged(t, scanned, None, discover) && Merged(t, scanned, None, discover)[u] == t[u]
    ensures Added(t, scanned, None, discover) == scanned.Keys - t.Keys
    ensures Merged(t, scanned, None, discover) == scanned + t
  {
    var m := Merged(t, scanned, None, discover);
    assert m.Keys == (scanned + t).Keys;
  }

  /**
   * Idempotence: when not connected, the same advertisement a second time
   * adds nothing and leaves the table as the first one left it.
   */
  lemma MergeIdempotent(t: map<Uuid.UUID, Services.Service>, scanned: map<Uuid.UUID, Services.Service>,
                        discover: Tiny.Discovery)
    ensures Added(Merged(t, scanned, None, discover), scanned, None, discover) == {}
    ensures Merged(Merged(t, scanned, None, discover), scanned, None, discover) == Merged(t, scanned, None, discover)
  {
    var m := Merged(t, scanned, None, discover);
    FirstWriteWins(t, scanned, discover);
    FirstWriteWins(m, scanned, discover);
    assert scanned + m == m;
  }

  /** A merge of well-keyed tables is well keyed. */
  lemma MergeWellKeyed(t: map<Uuid.UUID, Services.Service>, scanned: map<Uuid.UUID, Services.Service>,
                       session: Option<nat>, discover: Tiny.Discovery)
    requires Tiny.WellKeyed(t) && Tiny.WellKeyed(scanned)
    ensures Tiny.WellKeyed(Merged(t, scanned, session, discover))
  {
  }

  /**
   * The service loop of the scan callback for a known device `d`: each
   * scanned service in `ss` (the enumeration of the scanned table) is looked
   * up on the device and added when absent, and `modifiedAt` becomes `now`
   * when one was.
   */
  method MergeServices(d: Tiny.TinyDevice, scanned: map<Uuid.UUID, Services.Service>, ss: seq<Services.Service>,
                       now: int, discover: Tiny.Discovery)
    requires d.Valid()
    requires forall i :: 0 <= i < |ss| ==> ss[i].uuid in scanned && scanned[ss[i].uuid] == ss[i]
    requires Tiny.UuidsOf(ss) == scanned.Keys
    requires forall i, j :: 0 <= i < j < |ss| ==> ss[i].uuid != ss[j].uuid
    modifies d
    ensures d.Valid()
    ensures d.adServices == Merged(old(d.adServices), scanned, old(d.session), discover)
    ensures d.base.modifiedAt == if Added(old(d.adServices), scanned, old(d.session), discover) != {} then now else old(d.base.modifiedAt)
    ensures d.base.lastSeenAt == old(d.base.lastSeenAt) && d.base.discoveredAt == old(d.base.discoveredAt)
    ensures d.rssi == old(d.rssi) && d.session == old(d.session) && d.manufacturer == old(d.manufacturer)
  {
    ghost var t0 := d.adServices;
    ghost var session := d.session;
    MergeNone(t0, scanned, session, discover);
    assert Tiny.UuidsOf(ss[..0]) == {};
    for i := 0 to |ss|
      invariant d.adServices == MergedAmong(t0, scanned, Tiny.UuidsOf(ss[..i]), session, discover)
      invariant d.base.modifiedAt == if AddedAmong(t0, scanned, Tiny.UuidsOf(ss[..i]), session, discover) != {} then now else old(d.base.modifiedAt)
      invariant d.base.lastSeenAt == old(d.base.lastSeenAt) && d.base.discoveredAt == old(d.base.discoveredAt)
      invariant d.rssi == old(d.rssi) && d.session == old(d.session) && d.manufacturer == old(d.manufacturer)
      invariant d.Valid()
    {
      var s := ss[i];
      Tiny.UuidsOfMember(ss[..i], s.uuid);
      assert ss[..i + 1][..i] == ss[..i];
      MergeStep(t0, scanned, Tiny.UuidsOf(ss[..i]), s.uuid, session, discover);
      var found, ok := d.LookupService(s.uuid, discover);
      if !ok {
        d.AddService(s);
        d.base := d.base.(modifiedAt := now);
      }
    }
    assert ss[..|ss|] == ss;
  }

  /**
   * The known-address branch of the scan callback: `d` is last seen `now`,
   * takes the RSSI of the device `scanDev` built from the advertisement,
   * and merges its services.
   */
  method Refresh(d: Tiny.TinyDevice, scanDev: Tiny.TinyDevice, now: int, discover: Tiny.Discovery)
    requires d.Valid() && scanDev.Valid() && d != scanDev
    modifies d
    ensures d.Valid()
    ensures d.rssi == scanDev.rssi && d.base.lastSeenAt == now && d.base.discoveredAt == old(d.base.discoveredAt)
    ensures d.adServices == Merged(old(d.adServices), scanDev.adServices, old(d.session), discover)
    ensures d.base.modifiedAt == if Added(old(d.adServices), scanDev.adServices, old(d.session), discover) != {} then now else old(d.base.modifiedAt)
    ensures d.session == old(d.session) && d.manufacturer == old(d.manufacturer)
  {
    d.base := d.base.(lastSeenAt := now);
    d.rssi := scanDev.rssi;
    var ss := scanDev.Services();
    MergeServices(d, scanDev.adServices, ss, now, discover);
  }

  /** `tinyScanner`: the devices seen so far, keyed by the text of their address. */
  class TinyScanner {
    var devices: map<string, Tiny.TinyDevice>

    /** Each device sits under its own address and keeps a well-keyed service table. */
    ghost predicate Valid()
      reads this, devices.Values
    {
      forall k :: k in devices ==> devices[k].scanResult.address == k && devices[k].Valid()
    }

    /** `NewScanner`. */
    constructor ()
      ensures Valid() && devices == map[]
    {
      devices := map[];
    }

    /** `Devices`: every device once, in the table's iteration order. */
    method Devices() returns (devs: seq<Tiny.TinyDevice>)
      requires Valid()
      ensures |devs| == |devices|
      ensures forall i :: 0 <= i < |devs| ==> devs[i] in devices.Values
      ensures forall d :: d in devices.Values ==> d in devs
      ensures forall i, j :: 0 <= i < j < |devs| ==> devs[i] != devs[j]
    {
      devs := [];
      var rest := devices.Keys;
      while rest != {}
        invariant rest <= devices.Keys
        invariant forall i :: 0 <= i < |devs| ==> devs[i] in devices.Values && devs[i].scanResult.address !in rest
        invariant forall k :: k in devices.Keys - rest ==> devices[k] in devs
        invariant forall i, j :: 0 <= i < j < |devs| ==> devs[i] != devs[j]
        invariant |devs| + |rest| == |devices.Keys|
        decreases |rest|
      {
        ghost var w := Index.Element(rest);
        var k :| k in rest;
        devs := devs + [devices[k]];
        rest := rest - {k};
      }
      assert |devices.Keys| == |devices|;
    }
  
    /**
     * The scan callback. When the context is done it asks the adapter to
     * stop and touches nothing. Otherwise a new address registers the
     * device built from the scan result; a known address gets the new
     * `lastSeenAt` and RSSI, every scanned service it lacks, and `now` as
     * `modifiedAt` exactly when one was added. Then each handler is called
     * once with the device, in handler order; `calls` lists those calls.
     */
    method OnScanResult(sr: Tiny.ScanResult, now: int, ctxDone: bool, handlers: seq<nat>,
                        discover: Tiny.Discovery)
      returns (stopScan: bool, calls: seq<(nat, Tiny.TinyDevice)>)
      requires Valid()
      modifies this, devices.Values
      ensures Valid()
      ensures stopScan == ctxDone
      ensures ctxDone ==> calls == [] && devices == old(devices) && forall k :: k in devices ==> unchanged(devices[k])
      ensures !ctxDone ==> devices.Keys == old(devices).Keys + {sr.address}
      ensures !ctxDone ==> |calls| == |handlers| && forall i :: 0 <= i < |handlers| ==> calls[i] == (handlers[i], devices[sr.address])
      ensures forall k :: k in old(devices) && k != sr.address ==> devices[k] == old(devices)[k] && unchanged(devices[k])
      ensures forall d :: d in devices.Values ==> d in old(devices.Values) || fresh(d)
      ensures !ctxDone && sr.address !in old(devices) ==>
        var d := devices[sr.address];
        fresh(d) && d.scanResult == sr && d.base == DeviceBase.NewBaseDevice(now) && d.rssi == sr.rssi &&
        d.adServices == Tiny.ServiceTableOf(sr.serviceData) && d.manufacturer == None && d.session == None
      ensures !ctxDone && sr.address in old(devices) ==>
        var d := devices[sr.address];
        var scanned := Tiny.ServiceTableOf(sr.serviceData);
        d == old(devices)[sr.address] && d.rssi == sr.rssi &&
        d.base.lastSeenAt == now && d.base.discoveredAt == old(d.base.discoveredAt) &&
        d.adServices == Merged(old(d.adServices), scanned, old(d.session), discover) &&
        d.base.modifiedAt == (if Added(old(d.adServices), scanned, old(d.session), discover) != {} then now else old(d.base.modifiedAt)) &&
        d.session == old(d.session) && d.manufacturer == old(d.manufacturer)
    {
      if ctxDone {
        return true, [];
      }
      stopScan := false;
      var addrKey := sr.address;
      var scanDev := new Tiny.TinyDevice.FromScanResult(sr, now);
      var d: Tiny.TinyDevice;
      if addrKey in devices {
        d := devices[addrKey];
        Refresh(d, scanDev, now, discover);
      } else {
        devices := devices[addrKey := scanDev];
        d := scanDev;
      }
      calls := [];
      for i := 0 to |handlers|
        invariant |calls| == i && forall j :: 0 <= j < i ==> calls[j] == (handlers[j], d)
      {
        calls := calls + [(handlers[i], d)];
      }
    }
  
    /**
     * Event `i` delivered to the callback, after the events before it were
     * merged into `d0` with handler calls `calls`: a done context stops the
     * scan with nothing changed; otherwise the event is merged too, and
     * `more` holds its handler calls.
     */
    method Deliver(events: seq<Event>, i: nat, handlers: seq<nat>, discover: Tiny.Discovery,
                   ghost d0: map<string, Tiny.TinyDevice>, ghost calls: seq<(nat, Tiny.TinyDevice)>)
      returns (stopped: bool, more: seq<(nat, Tiny.TinyDevice)>)
      requires i < |events| && i <= Stop(events)
      requires Valid()
      requires FedUpTo(d0, devices, events, i, handlers, calls)
      modifies this, devices.Values
      ensures Valid()
      ensures stopped == events[i].ctxDone
      ensures stopped ==> devices == old(devices) && i == Stop(events)
      ensures !stopped ==> i + 1 <= Stop(events) && FedUpTo(d0, devices, events, i + 1, handlers, calls + more)
      ensures forall d :: d in devices.Values ==> d in old(devices.Values) || fresh(d)
    {
      var e := events[i];
      stopped, more := OnScanResult(e.result, e.now, e.ctxDone, handlers, discover);
      if stopped {
        StopAt(events, i);
      } else {
        StopAfter(events, i);
        assert more == HandlerCalls(handlers, devices[e.result.address]);
        MergedCalls(d0, events, i, handlers, old(devices), devices, calls, more);
      }
    }

    /**
     * The adapter's delivery of advertisements to the scan callback: each
     * event goes through the callback until one finds the context done and
     * stops the scan. The events before that one are merged: their
     * addresses join the keys, registered devices stay under their keys, and
     * the handlers are called for each of them in order.
     */
    method Feed(handlers: seq<nat>, events: seq<Event>, discover: Tiny.Discovery)
      returns (calls: seq<(nat, Tiny.TinyDevice)>)
      requires Valid()
      modifies this, devices.Values
      ensures Valid()
      ensures FedUpTo(old(devices), devices, events, Stop(events), handlers, calls)
    {
      calls := [];
      var i := 0;
      while i < |events|
        invariant i <= Stop(events)
        invariant Valid()
        invariant FedUpTo(old(devices), devices, events, i, handlers, calls)
        invariant forall d :: d in devices.Values ==> d in old(devices.Values) || fresh(d)
      {
        var stopped, more := Deliver(events, i, handlers, discover, old(devices), calls);
        if stopped {
          break;
        }
        calls := calls + more;
        i := i + 1;
      }
      if i == |events| {
        StopAt(events, i);
      }
    }

    /**
     * `Scan`: the handlers are collected from the options; an error from
     * enabling the adapter is returned with nothing changed; otherwise each
     * advertisement the adapter delivers goes through the callback until
     * the callback stops the scan, and the adapter's scan error is returned.
     */
    method Scan(opts: seq<ScannerOption>, enableErr: Option<Error>, events: seq<Event>, scanErr: Option<Error>,
                discover: Tiny.Discovery)
      returns (err: Option<Error>, calls: seq<(nat, Tiny.TinyDevice)>)
      requires Valid()
      modifies this, devices.Values
      ensures Valid()
      ensures enableErr.Some? ==> err == enableErr && calls == [] && devices == old(devices)
      ensures enableErr.None? ==> err == scanErr
      ensures old(devices).Keys <= devices.Keys
      ensures forall k :: k in old(devices) ==> devices[k] == old(devices)[k]
      ensures enableErr.None? ==> devices.Keys == old(devices).Keys + AddressesOf(events, Stop(events))
      ensures enableErr.None? ==> calls == CallsOf(events, Stop(events), ScanHandlersOf(opts), devices)
    {
      var handlers := CollectScanHandlers(opts);
      if enableErr.Some? {
        return enableErr, [];
      }
      calls := Feed(handlers, events, discover);
      err := scanErr;
    }
  }

  /** One advertisement as the adapter delivers it: the scan result, the time, and whether the context is done. */
  datatype Event = Event(result: Tiny.ScanResult, now: int, ctxDone: bool)

  /**
   * How many events reach the merge: the callback stops the scan at the
   * first event whose context is done, so only the events before it count.
   */
  function Stop(events: seq<Event>): (n: nat)
    ensures n <= |events|
    ensures forall j :: 0 <= j < n ==> !events[j].ctxDone
    ensures n < |events| ==> events[n].ctxDone
  {
    if events == [] || events[0].ctxDone then 0 else 1 + Stop(events[1..])
  }

  /** An event before the stop that does not stop the scan leaves more to merge. */
  lemma StopAfter(events: seq<Event>, i: nat)
    requires i <= Stop(events) && i < |events| && !events[i].ctxDone
    ensures i + 1 <= Stop(events)
  {
  }

  /** The scan stops at the first done event, or runs out of events. */
  lemma StopAt(events: seq<Event>, i: nat)
    requires i <= Stop(events)
    requires i == |events| || events[i].ctxDone
    ensures i == Stop(events)
  {
  }

  /** The addresses the first `n` events come from. */
  function AddressesOf(es: seq<Event>, n: nat): set<string>
    requires n <= |es|
  {
    set j | 0 <= j < n :: es[j].result.address
  }

  lemma AddressesStep(es: seq<Event>, n: nat)
    requires n < |es|
    ensures AddressesOf(es, n + 1) == AddressesOf(es, n) + {es[n].result.address}
  {
  }

  /** Each handler once with device `d`, in handler order. */
  function HandlerCalls(hs: seq<nat>, d: Tiny.TinyDevice): (cs: seq<(nat, Tiny.TinyDevice)>)
    ensures |cs| == |hs|
    ensures forall i :: 0 <= i < |hs| ==> cs[i] == (hs[i], d)
  {
    seq(|hs|, i requires 0 <= i < |hs| => (hs[i], d))
  }

  /**
   * The handler calls of the first `n` events, all merged: for each event
   * in order, each handler once with the device registered under the
   * event's address (every such address is registered once the event is
   * merged).
   */
  function CallsOf(es: seq<Event>, n: nat, hs: seq<nat>, devs: map<string, Tiny.TinyDevice>): seq<(nat, Tiny.TinyDevice)>
    requires n <= |es|
  {
    if n == 0 then []
    else
      var a := es[n - 1].result.address;
      CallsOf(es, n - 1, hs, devs) + (if a in devs then HandlerCalls(hs, devs[a]) else [])
  }

  /** The calls depend only on the devices under the events' addresses. */
  lemma {:induction false} CallsOfFrame(es: seq<Event>, n: nat, hs: seq<nat>, a: map<string, Tiny.TinyDevice>, b: map<string, Tiny.TinyDevice>)
    requires n <= |es|
    requires AddressesOf(es, n) <= a.Keys && AddressesOf(es, n) <= b.Keys
    requires forall k :: k in AddressesOf(es, n) ==> a[k] == b[k]
    ensures CallsOf(es, n, hs, a) == CallsOf(es, n, hs, b)
  {
    if n > 0 {
      AddressesStep(es, n - 1);
      CallsOfFrame(es, n - 1, hs, a, b);
    }
  }

  /**
   * The registry after merging the first `i` events into `d0`: their
   * addresses joined the keys, the devices of `d0` stay under their keys,
   * and `calls` holds their handler calls.
   */
  ghost predicate FedUpTo(d0: map<string, Tiny.TinyDevice>, devs: map<string, Tiny.TinyDevice>, es: seq<Event>, i: nat,
                          hs: seq<nat>, calls: seq<(nat, Tiny.TinyDevice)>)
    requires i <= |es|
  {
    && devs.Keys == d0.Keys + AddressesOf(es, i)
    && (forall k :: k in d0 ==> devs[k] == d0[k])
    && calls == CallsOf(es, i, hs, devs)
  }

  /** One more merged event: its address joins the keys and its handler calls follow the earlier ones. */
  lemma MergedCalls(d0: map<string, Tiny.TinyDevice>, es: seq<Event>, i: nat, hs: seq<nat>, prev: map<string, Tiny.TinyDevice>,
                    devs: map<string, Tiny.TinyDevice>, calls: seq<(nat, Tiny.TinyDevice)>, more: seq<(nat, Tiny.TinyDevice)>)
    requires i < |es|
    requires FedUpTo(d0, prev, es, i, hs, calls)
    requires devs.Keys == prev.Keys + {es[i].result.address}
    requires forall k :: k in prev ==> devs[k] == prev[k]
    requires more == HandlerCalls(hs, devs[es[i].result.address])
    ensures FedUpTo(d0, devs, es, i + 1, hs, calls + more)
  {
    AddressesStep(es, i);
    CallsOfFrame(es, i, hs, prev, devs);
  }

  /**
   * The same advertisement fed twice to a new scanner: one device, with the
   * service table of the advertisement, first seen and last modified at the
   * first event, and last seen at the second.
   */
  method FeedTwice(sr: Tiny.ScanResult, first: int, second: int, discover: Tiny.Discovery)
    returns (devices: map<string, Tiny.TinyDevice>)
    ensures devices.Keys == {sr.address}
    ensures devices[sr.address].adServices == Tiny.ServiceTableOf(sr.serviceData)
    ensures devices[sr.address].base == DeviceBase.BaseDevice(first, first, second)
    ensures devices[sr.address].rssi == sr.rssi
  {
    var s := new TinyScanner();
    var _, _ := s.OnScanResult(sr, first, false, [], discover);
    var table := Tiny.ServiceTableOf(sr.serviceData);
    FirstWriteWins(table, table, discover);
    assert table + table == table;
    var _, _ := s.OnScanResult(sr, second, false, [], discover);
    devices := s.devices;
  }
}
