/**
 * The base characteristic of ble/characteristic.go: a descriptor (owning
 * service, UUID, name and id from the metadata database) whose operations
 * all fail with the not-connected error, because it is not bound to a
 * connected device.
 */
module Characteristics {
  import opened Wrappers
  import opened Errors
  import Uuid
  import ExtDb
  import Json

  /**
   * `characteristic`. The owning service is held by its UUID: a Go pointer
   * back to the service that lists the characteristic has no value form.
   */
  datatype Characteristic = Characteristic(service: Uuid.UUID, uuid: Uuid.UUID, name: string, id: string)

  /** `newCharacteristic`: name and id come from the metadata lookup, empty on a miss. */
  function New(service: Uuid.UUID, uuid: Uuid.UUID, db: ExtDb.Database): (c: Characteristic)
    ensures c.service == service && c.uuid == uuid
    ensures uuid in db.chars ==> c.name == db.chars[uuid].name && c.id == db.chars[uuid].id
    ensures uuid !in db.chars ==> c.name == "" && c.id == ""
  {
    var (rec, _) := ExtDb.LookupCharacteristic(db, uuid);
    Characteristic(service, uuid, rec.name, rec.id)
  }

  /** The anonymous struct `MarshalObject` returns. */
  datatype Object = Object(uuid: string, name: string, id: string)

  /** `MarshalObject`: the UUID as its 36-character text, name and id as stored. */
  function MarshalObject(c: Characteristic): (o: Object)
    ensures |o.uuid| == 36 && Uuid.ParseCanonical(o.uuid) == Some(c.uuid)
    ensures o.name == c.name && o.id == c.id
  {
    Uuid.ParseString(c.uuid);
    Object(Uuid.String(c.uuid), c.name, c.id)
  }

  /** `String`: the JSON text of `MarshalObject`, fields in declaration order. */
  function String(c: Characteristic): (s: string)
    ensures |s| >= 45 && s[..9] == "{\"uuid\":\"" && s[9..45] == Uuid.String(c.uuid)
  {
    var o := MarshalObject(c);
    UuidTextPlain(c.uuid);
    "{\"uuid\":" + Json.Quote(o.uuid) + ",\"name\":" + Json.Quote(o.name) + ",\"id\":" + Json.Quote(o.id) + "}"
  }

  /** The text of a UUID needs no JSON escaping. */
  lemma UuidTextPlain(u: Uuid.UUID)
    ensures Json.Quote(Uuid.String(u)) == "\"" + Uuid.String(u) + "\""
  {
    var s := Uuid.String(u);
    forall k | 0 <= k < |s|
      ensures Json.Plain(s[k])
    {
      if k != 8 && k != 13 && k != 18 && k != 23 {
        Uuid.StringDigits(u, k);
      }
    }
    Json.QuotePlain(s);
  }

  /** `Read`: nil bytes and the not-connected error naming the characteristic. */
  function Read(c: Characteristic): (r: (seq<bv8>, Error))
    ensures r.0 == [] && r.1 == NotConnected(String(c))
  {
    ([], NotConnected(String(c)))
  }

  /** `Write`: nothing written, whatever the data, and the not-connected error. */
  function Write(c: Characteristic, data: seq<bv8>): (r: (int, Error))
    ensures r == (0, NotConnected(String(c)))
  {
    (0, NotConnected(String(c)))
  }

  /**
   * `Notify`: the not-connected error; the callback is never registered, so
   * it is not even a parameter here.
   */
  function Notify(c: Characteristic): (e: Error)
    ensures e == NotConnected(String(c))
  {
    NotConnected(String(c))
  }

  /** The error text of every operation carries the characteristic's UUID text. */
  lemma GatingErrorNamesUuid(c: Characteristic, data: seq<bv8>)
    ensures Text(Read(c).1)[24..60] == Uuid.String(c.uuid)
    ensures Text(Write(c, data).1)[24..60] == Uuid.String(c.uuid)
    ensures Text(Notify(c))[24..60] == Uuid.String(c.uuid)
    ensures Text(Read(c).1)[..15] == "not connected: "
  {
    var s := String(c);
    var t := Text(NotConnected(s));
    assert t == "not connected: " + s;
    assert t[24..60] == s[9..45];
  }
}
