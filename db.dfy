/**
 * The assigned-numbers database of ble/db/database.go: companies keyed by
 * their integer id, services and characteristics keyed by their 16-bit
 * UUID. The YAML documents embedded in the package are replaced by the
 * record lists they decode to.
 */
module Db {
  import Index

  /** Go's `uint16`. */
  type Uint16 = x: int | 0 <= x < 0x1_0000

  datatype Company = Company(value: int, name: string)
  datatype Service = Service(uuid: Uint16, name: string, id: string)
  datatype Characteristic = Characteristic(uuid: Uint16, name: string, id: string)

  datatype Database = Database(
    companies: map<int, Company>,
    services: map<Uint16, Service>,
    chars: map<Uint16, Characteristic>)

  function CompanyKey(c: Company): int { c.value }
  function ServiceKey(s: Service): Uint16 { s.uuid }
  function CharacteristicKey(c: Characteristic): Uint16 { c.uuid }

  /** Every record is stored under its own key. */
  predicate WellKeyed(db: Database) {
    && (forall k :: k in db.companies ==> db.companies[k].value == k)
    && (forall k :: k in db.services ==> db.services[k].uuid == k)
    && (forall k :: k in db.chars ==> db.chars[k].uuid == k)
  }

  /**
   * The database `init` builds: one insert loop per list, the SDO list
   * inserted into the service map after the standard service list.
   */
  function Build(companies: seq<Company>, services: seq<Service>, sdos: seq<Service>,
                 chars: seq<Characteristic>): (db: Database)
    ensures WellKeyed(db)
  {
    Index.LastWinsKeys(companies, CompanyKey);
    Index.LastWinsKeys(services + sdos, ServiceKey);
    Index.LastWinsKeys(chars, CharacteristicKey);
    Database(Index.LastWins(companies, CompanyKey),
             Index.LastWins(services + sdos, ServiceKey),
             Index.LastWins(chars, CharacteristicKey))
  }

  /** `init`: the insert loops over the decoded record lists. */
  method Init(companies: seq<Company>, services: seq<Service>, sdos: seq<Service>,
              chars: seq<Characteristic>) returns (db: Database)
    ensures db.companies == Build(companies, services, sdos, chars).companies
    ensures db.services == Build(companies, services, sdos, chars).services
    ensures db.chars == Build(companies, services, sdos, chars).chars
  {
    assert [] + companies == companies && [] + services == services && [] + chars == chars;
    var companyMap := Index.InsertAll(map[], [], companies, CompanyKey);
    var serviceMap := Index.InsertAll(map[], [], services, ServiceKey);
    serviceMap := Index.InsertAll(serviceMap, services, sdos, ServiceKey);
    var charMap := Index.InsertAll(map[], [], chars, CharacteristicKey);
    db := Database(companyMap, serviceMap, charMap);
  }

  /** `LookupCompany`: the stored record, or a record with the queried id and no name. */
  function LookupCompany(db: Database, id: int): (r: (Company, bool))
    ensures r.1 <==> id in db.companies
    ensures r.1 ==> r.0 == db.companies[id]
    ensures !r.1 ==> r.0 == Company(id, "")
    ensures WellKeyed(db) ==> r.0.value == id
  {
    if id in db.companies then (db.companies[id], true) else (Company(id, ""), false)
  }

  /** `LookupService`: the stored record, or one with the queried UUID and empty name and id. */
  function LookupService(db: Database, uuid: Uint16): (r: (Service, bool))
    ensures r.1 <==> uuid in db.services
    ensures r.1 ==> r.0 == db.services[uuid]
    ensures !r.1 ==> r.0 == Service(uuid, "", "")
    ensures WellKeyed(db) ==> r.0.uuid == uuid
  {
    if uuid in db.services then (db.services[uuid], true) else (Service(uuid, "", ""), false)
  }

  /** `LookupCharacteristic`: as `LookupService`, over the characteristic map. */
  function LookupCharacteristic(db: Database, uuid: Uint16): (r: (Characteristic, bool))
    ensures r.1 <==> uuid in db.chars
    ensures r.1 ==> r.0 == db.chars[uuid]
    ensures !r.1 ==> r.0 == Characteristic(uuid, "", "")
    ensures WellKeyed(db) ==> r.0.uuid == uuid
  {
    if uuid in db.chars then (db.chars[uuid], true) else (Characteristic(uuid, "", ""), false)
  }

  /** A company is found exactly when some record carries its id, and then it is the last such record. */
  lemma CompanyFromList(companies: seq<Company>, services: seq<Service>, sdos: seq<Service>,
                        chars: seq<Characteristic>, i: nat)
    requires i < |companies|
    requires forall j :: i < j < |companies| ==> companies[j].value != companies[i].value
    ensures LookupCompany(Build(companies, services, sdos, chars), companies[i].value) == (companies[i], true)
  {
    Index.LastWinsAt(companies, CompanyKey, i);
  }

  /** An id no record carries gets the fallback record. */
  lemma CompanyMissing(companies: seq<Company>, services: seq<Service>, sdos: seq<Service>,
                       chars: seq<Characteristic>, id: int)
    requires forall j :: 0 <= j < |companies| ==> companies[j].value != id
    ensures LookupCompany(Build(companies, services, sdos, chars), id) == (Company(id, ""), false)
  {
    Index.LastWinsKeys(companies, CompanyKey);
  }

  /** An SDO record wins over any standard service record with the same UUID. */
  lemma SdoWins(companies: seq<Company>, services: seq<Service>, sdos: seq<Service>,
                chars: seq<Characteristic>, i: nat)
    requires i < |sdos|
    requires forall j :: i < j < |sdos| ==> sdos[j].uuid != sdos[i].uuid
    ensures LookupService(Build(companies, services, sdos, chars), sdos[i].uuid) == (sdos[i], true)
  {
    Index.LastWinsAppend(services, sdos, ServiceKey);
    Index.LastWinsAt(sdos, ServiceKey, i);
  }

  /** A standard service record is found when no later record, standard or SDO, has its UUID. */
  lemma ServiceFromList(companies: seq<Company>, services: seq<Service>, sdos: seq<Service>,
                        chars: seq<Characteristic>, i: nat)
    requires i < |services|
    requires forall j :: i < j < |services| ==> services[j].uuid != services[i].uuid
    requires forall j :: 0 <= j < |sdos| ==> sdos[j].uuid != services[i].uuid
    ensures LookupService(Build(companies, services, sdos, chars), services[i].uuid) == (services[i], true)
  {
    var all := services + sdos;
    forall j | i < j < |all|
      ensures all[j].uuid != all[i].uuid
    {
      if j >= |services| {
        assert all[j] == sdos[j - |services|];
      }
    }
    Index.LastWinsAt(all, ServiceKey, i);
  }

  /** A later characteristic record with the same UUID replaces an earlier one. */
  lemma CharacteristicFromList(companies: seq<Company>, services: seq<Service>, sdos: seq<Service>,
                               chars: seq<Characteristic>, i: nat)
    requires i < |chars|
    requires forall j :: i < j < |chars| ==> chars[j].uuid != chars[i].uuid
    ensures LookupCharacteristic(Build(companies, services, sdos, chars), chars[i].uuid) == (chars[i], true)
  {
    Index.LastWinsAt(chars, CharacteristicKey, i);
  }
}
