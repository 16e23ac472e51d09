/**
 * The manufacturer of ble/manufacture.go: the company an advertisement's
 * company id names, looked up in the company list of ble/database.go, and
 * the manufacturer-specific data bytes.
 */
module Manufacturers {
  import opened Wrappers
  import Db
  import CompanyDb
  import Hex

  /** `manufacturer`; `Company()` and `Data()` are its two fields. */
  datatype Manufacturer = Manufacturer(company: Db.Company, data: seq<bv8>)

  /** `newNilManufacturer`: company 0 named "Unknown", no data. */
  function NilManufacturer(): (m: Manufacturer)
    ensures m.company.value == 0 && m.company.name == "Unknown" && m.data == []
  {
    Manufacturer(Db.Company(0, "Unknown"), [])
  }

  /** `newManufacturer`: the looked-up company, found or not, and the data as given. */
  function New(id: int, data: seq<bv8>, companies: seq<Db.Company>): (m: Manufacturer)
    ensures m.company.value == id && m.data == data
    ensures (forall i :: 0 <= i < |companies| ==> companies[i].value != id) ==> m.company.name == ""
    ensures (exists i :: 0 <= i < |companies| && companies[i].value == id) ==> m.company in companies
  {
    var (c, _) := CompanyDb.LookupCompany(companies, id);
    Manufacturer(c, data)
  }

  /** The anonymous struct `MarshalObject` returns. */
  datatype Object = Object(id: int, name: string, data: string)

  /** `MarshalObject`: the company's id and name, and the data as lower-case hex. */
  function MarshalObject(m: Manufacturer): (o: Object)
    ensures o.id == m.company.value && o.name == m.company.name
    ensures |o.data| == 2 * |m.data|
    ensures forall k :: 0 <= k < |o.data| ==> o.data[k] in Hex.LowerDigits
    ensures Hex.Decode(o.data) == Some(m.data)
  {
    var text := Hex.EncodeLower(m.data);
    Hex.DecodeLower(m.data);
    forall k | 0 <= k < |text|
      ensures text[k] in Hex.LowerDigits
    {
      Hex.LowerDigitsOnly(m.data, k);
    }
    Object(m.company.value, m.company.name, text)
  }
}
