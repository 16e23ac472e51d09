/**
 * The Matter characteristic database of ble/db/ext/database.go, keyed by
 * the full 128-bit UUID parsed from each record's text.
 */
module ExtDb {
  import opened Wrappers
  import Uuid
  import Index

  /** A decoded record; `init` fills `uuid` from the text `uuidText`. */
  datatype Characteristic = Characteristic(uuid: Uuid.UUID, uuidText: string, name: string, id: string)

  datatype Database = Database(chars: map<Uuid.UUID, Characteristic>)

  function Key(c: Characteristic): Uuid.UUID { c.uuid }

  /** Record `c` with its `uuid` field set from its text. */
  function WithParsedUuid(c: Characteristic, parse: Uuid.Parser): Characteristic {
    c.(uuid := Uuid.FromString(c.uuidText, parse).0)
  }

  /** The records with their UUIDs filled in, or `None` when some text does not parse. */
  function ParseAll(rs: seq<Characteristic>, parse: Uuid.Parser): (r: Option<seq<Characteristic>>)
    ensures r.None? <==> exists i :: 0 <= i < |rs| && parse(rs[i].uuidText).None?
    ensures r.Some? ==> |r.value| == |rs|
    ensures r.Some? ==> forall i :: 0 <= i < |rs| ==> r.value[i] == WithParsedUuid(rs[i], parse)
  {
    if rs == [] then Some([])
    else
      var last := rs[|rs| - 1];
      assert forall i :: 0 <= i < |rs| - 1 ==> rs[..|rs| - 1][i] == rs[i];
      match ParseAll(rs[..|rs| - 1], parse)
      case None => None
      case Some(done) =>
        if parse(last.uuidText).None? then None
        else Some(done + [WithParsedUuid(last, parse)])
  }

  /** The database `init` builds; `None` stands for the panic on a malformed UUID text. */
  function Build(rs: seq<Characteristic>, parse: Uuid.Parser): (db: Option<Database>)
    ensures db.None? <==> exists i :: 0 <= i < |rs| && parse(rs[i].uuidText).None?
    ensures db.Some? ==> forall u :: u in db.value.chars ==> db.value.chars[u].uuid == u
  {
    match ParseAll(rs, parse)
    case None => None
    case Some(ps) =>
      Index.LastWinsKeys(ps, Key);
      Some(Database(Index.LastWins(ps, Key)))
  }

  /** One more record whose text parses: it joins the parsed list and is stored under its UUID. */
  lemma InitStep(rs: seq<Characteristic>, parse: Uuid.Parser, i: nat, done: seq<Characteristic>)
    requires i < |rs| && parse(rs[i].uuidText).Some?
    requires ParseAll(rs[..i], parse) == Some(done)
    ensures ParseAll(rs[..i + 1], parse) == Some(done + [WithParsedUuid(rs[i], parse)])
    ensures Index.LastWins(done + [WithParsedUuid(rs[i], parse)], Key)
      == Index.LastWins(done, Key)[WithParsedUuid(rs[i], parse).uuid := WithParsedUuid(rs[i], parse)]
  {
    var c := WithParsedUuid(rs[i], parse);
    assert rs[..i + 1][..i] == rs[..i];
    assert (done + [c])[..|done|] == done;
  }

  /** `init`: parse each record's UUID, store the record under it, and panic on a parse error. */
  method Init(rs: seq<Characteristic>, parse: Uuid.Parser) returns (db: Option<Database>)
    ensures db == Build(rs, parse)
  {
    var m := map[];
    ghost var done := [];
    for i := 0 to |rs|
      invariant ParseAll(rs[..i], parse) == Some(done)
      invariant m == Index.LastWins(done, Key)
    {
      var (u, err) := Uuid.FromString(rs[i].uuidText, parse);
      if err.Some? {
        assert parse(rs[i].uuidText).None?;
        return None;
      }
      var c := rs[i].(uuid := u);
      InitStep(rs, parse, i, done);
      m := m[u := c];
      done := done + [c];
    }
    assert rs[..|rs|] == rs;
    db := Some(Database(m));
  }

  /** `LookupCharacteristic`: the stored record, or one with the UUID and empty strings. */
  function LookupCharacteristic(db: Database, u: Uuid.UUID): (r: (Characteristic, bool))
    ensures r.1 <==> u in db.chars
    ensures r.1 ==> r.0 == db.chars[u]
    ensures !r.1 ==> r.0 == Characteristic(u, "", "", "")
  {
    if u in db.chars then (db.chars[u], true) else (Characteristic(u, "", "", ""), false)
  }

  /**
   * When every text parses, record `i` is found under its parsed UUID unless
   * a later record parses to the same UUID (the later one overwrites it).
   */
  lemma LaterOverwrites(rs: seq<Characteristic>, parse: Uuid.Parser, i: nat)
    requires Build(rs, parse).Some?
    requires i < |rs|
    requires forall j :: i < j < |rs| ==> parse(rs[j].uuidText) != parse(rs[i].uuidText)
    ensures LookupCharacteristic(Build(rs, parse).value, WithParsedUuid(rs[i], parse).uuid)
      == (WithParsedUuid(rs[i], parse), true)
  {
    var ps := ParseAll(rs, parse).value;
    forall j | i < j < |ps|
      ensures Key(ps[j]) != Key(ps[i])
    {
      Uuid.FromUuidBytes(Uuid.FromUuid(parse(rs[j].uuidText).value));
      Uuid.BytesInjective(ps[i].uuid, ps[j].uuid);
    }
    Index.LastWinsAt(ps, Key, i);
  }
}
