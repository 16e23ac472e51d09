/**
 * The map a Go insert loop builds (`m[key(r)] = r` for each record in
 * order): every record is stored under its key, and a later record replaces
 * an earlier one with the same key.
 */
module Index {
  function LastWins<K, R>(rs: seq<R>, key: R -> K): map<K, R>
  {
    if rs == [] then map[]
    else LastWins(rs[..|rs| - 1], key)[key(rs[|rs| - 1]) := rs[|rs| - 1]]
  }

  /** Every record's key is present, and each key holds a record of the list with that key. */
  lemma {:induction false} LastWinsKeys<K, R>(rs: seq<R>, key: R -> K)
    ensures forall r :: r in rs ==> key(r) in LastWins(rs, key)
    ensures forall k :: k in LastWins(rs, key) ==> key(LastWins(rs, key)[k]) == k && LastWins(rs, key)[k] in rs
  {
    if rs != [] {
      var init := rs[..|rs| - 1];
      LastWinsKeys(init, key);
      assert rs == init + [rs[|rs| - 1]];
    }
  }

  /** The record stored under a key is the last record in the list with that key. */
  lemma {:induction false} LastWinsAt<K, R>(rs: seq<R>, key: R -> K, i: nat)
    requires i < |rs|
    requires forall j :: i < j < |rs| ==> key(rs[j]) != key(rs[i])
    ensures key(rs[i]) in LastWins(rs, key)
    ensures LastWins(rs, key)[key(rs[i])] == rs[i]
  {
    if i < |rs| - 1 {
      LastWinsAt(rs[..|rs| - 1], key, i);
    }
  }

  /** Inserting one list and then another is the first map overridden by the second. */
  lemma {:induction false} LastWinsAppend<K, R>(a: seq<R>, b: seq<R>, key: R -> K)
    ensures LastWins(a + b, key) == LastWins(a, key) + LastWins(b, key)
  {
    if b != [] {
      var b' := b[..|b| - 1];
      assert (a + b)[..|a + b| - 1] == a + b';
      LastWinsAppend(a, b', key);
    } else {
      assert a + b == a;
    }
  }

  /**
   * The insert loop itself, continuing a map already built from the
   * records `done`.
   */
  method InsertAll<K, R>(m0: map<K, R>, ghost done: seq<R>, rs: seq<R>, key: R -> K) returns (m: map<K, R>)
    requires m0 == LastWins(done, key)
    ensures m == LastWins(done + rs, key)
  {
    m := m0;
    assert done + rs[..0] == done;
    for i := 0 to |rs|
      invariant m == LastWins(done + rs[..i], key)
    {
      ghost var next := done + rs[..i + 1];
      assert next[..|next| - 1] == done + rs[..i];
      assert next[|next| - 1] == rs[i];
      m := m[key(rs[i]) := rs[i]];
    }
    assert rs[..|rs|] == rs;
  }

  /** Some element of a non-empty set, as a ghost witness for a later choice. */
  lemma Element<T>(s: set<T>) returns (x: T)
    requires |s| > 0
    ensures x in s
  {
    var e :| e in s;
    x := e;
  }
}
