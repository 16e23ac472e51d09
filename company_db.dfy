/**
 * The company list of ble/database.go, searched front to back. Its records
 * are the same (id, name) pairs as the assigned-numbers database's company
 * records, so the model shares `Db.Company`.
 */
module CompanyDb {
  import Db

  /** `LookupCompany`: the first record with the id, or a record with the id and no name. */
  function LookupCompany(companies: seq<Db.Company>, id: int): (r: (Db.Company, bool))
    ensures r.1 <==> exists i :: 0 <= i < |companies| && companies[i].value == id
    ensures r.0.value == id
    ensures !r.1 ==> r.0 == Db.Company(id, "")
    ensures r.1 ==> exists i :: 0 <= i < |companies| && companies[i] == r.0 && Earliest(companies, id, i)
  {
    if companies == [] then (Db.Company(id, ""), false)
    else if companies[0].value == id then
      assert Earliest(companies, id, 0);
      (companies[0], true)
    else
      var r := LookupCompany(companies[1..], id);
      if r.1 then
        var i :| 0 <= i < |companies[1..]| && companies[1..][i] == r.0 && Earliest(companies[1..], id, i);
        assert Earliest(companies, id, i + 1);
        r
      else
        assert forall i :: 1 <= i < |companies| ==> companies[i] == companies[1..][i - 1];
        r
  }

  /** Record `i` has the id and no record before it does. */
  predicate Earliest(companies: seq<Db.Company>, id: int, i: nat)
    requires i < |companies|
  {
    companies[i].value == id && forall j :: 0 <= j < i ==> companies[j].value != id
  }

  /**
   * When no two records share an id, the first-match search and the
   * assigned-numbers map built from the same list give the same answer.
   */
  lemma AgreesWithMap(companies: seq<Db.Company>, id: int)
    requires forall i, j :: 0 <= i < j < |companies| ==> companies[i].value != companies[j].value
    ensures LookupCompany(companies, id) == Db.LookupCompany(Db.Build(companies, [], [], []), id)
  {
    var r := LookupCompany(companies, id);
    if r.1 {
      var i :| 0 <= i < |companies| && companies[i] == r.0 && Earliest(companies, id, i);
      Db.CompanyFromList(companies, [], [], [], i);
    } else {
      Db.CompanyMissing(companies, [], [], [], id);
    }
  }
}
