/**
 * A keyed table of the store with the one write the pipeline uses,
 * `insert(...).on_conflict_ignore()`: a row whose key is already present is
 * dropped and the table is left as it was.
 */
module Tables {

  /** One `insert ... on conflict ignore` of `v` under key `k`. */
  function InsertOrIgnore<V>(m: map<string, V>, k: string, v: V): (r: map<string, V>)
    ensures r.Keys == m.Keys + {k}
    ensures k in m ==> r == m
    ensures k !in m ==> r[k] == v
    ensures forall j :: j in m ==> r[j] == m[j]
  {
    if k in m then m else m[k := v]
  }

  /** Repeating an insert, with any row under the same key, changes nothing. */
  lemma InsertOrIgnoreIdempotent<V>(m: map<string, V>, k: string, v: V, w: V)
    ensures InsertOrIgnore(InsertOrIgnore(m, k, v), k, w) == InsertOrIgnore(m, k, v)
  {
  }

  /** The keys of a list of rows. */
  function Keys<V>(rows: seq<(string, V)>): set<string> {
    set i | 0 <= i < |rows| :: rows[i].0
  }

  /** The keys of two row lists one after the other. */
  lemma KeysAppend<V>(a: seq<(string, V)>, b: seq<(string, V)>)
    ensures Keys(a + b) == Keys(a) + Keys(b)
  {
    forall k | k in Keys(a + b) ensures k in Keys(a) + Keys(b) {
      var i :| 0 <= i < |a + b| && (a + b)[i].0 == k;
      if i >= |a| {
        assert b[i - |a|].0 == k;
      }
    }
    forall k | k in Keys(a) ensures k in Keys(a + b) {
      var i :| 0 <= i < |a| && a[i].0 == k;
      assert (a + b)[i].0 == k;
    }
    forall k | k in Keys(b) ensures k in Keys(a + b) {
      var i :| 0 <= i < |b| && b[i].0 == k;
      assert (a + b)[i + |a|].0 == k;
    }
  }

  /** The inserts of `rows`, one after another, in order. */
  function InsertAll<V>(m: map<string, V>, rows: seq<(string, V)>): (r: map<string, V>)
    ensures m.Keys <= r.Keys
    ensures forall j :: j in m ==> r[j] == m[j]
  {
    if rows == [] then m
    else InsertOrIgnore(InsertAll(m, rows[..|rows| - 1]), rows[|rows| - 1].0, rows[|rows| - 1].1)
  }

  /** The keys after the inserts are the old keys and the keys of the rows. */
  lemma {:induction false} InsertAllKeys<V>(m: map<string, V>, rows: seq<(string, V)>)
    ensures InsertAll(m, rows).Keys == m.Keys + Keys(rows)
  {
    if rows != [] {
      var init := rows[..|rows| - 1];
      InsertAllKeys(m, init);
      assert Keys(rows) == Keys(init) + {rows[|rows| - 1].0};
    }
  }

  /** A key the inserts add is stored with a row that carries it. */
  lemma {:induction false} InsertAllNew<V>(m: map<string, V>, rows: seq<(string, V)>)
    ensures forall k :: k in InsertAll(m, rows) && k !in m ==>
      exists i :: 0 <= i < |rows| && rows[i] == (k, InsertAll(m, rows)[k])
  {
    if rows != [] {
      var init := rows[..|rows| - 1];
      InsertAllNew(m, init);
      forall k | k in InsertAll(m, rows) && k !in m
        ensures exists i :: 0 <= i < |rows| && rows[i] == (k, InsertAll(m, rows)[k])
      {
        if k in InsertAll(m, init) {
          var i :| 0 <= i < |init| && init[i] == (k, InsertAll(m, init)[k]);
          assert rows[i] == init[i];
        } else {
          assert rows[|rows| - 1] == (k, InsertAll(m, rows)[k]);
        }
      }
    }
  }

  /** One more row is one more insert. */
  lemma InsertAllSnoc<V>(m: map<string, V>, rows: seq<(string, V)>, row: (string, V))
    ensures InsertAll(m, rows + [row]) == InsertOrIgnore(InsertAll(m, rows), row.0, row.1)
  {
    assert (rows + [row])[..|rows|] == rows;
  }

  /** The stored row of a new key is the first row that carries it. */
  lemma {:induction false} InsertAllFirstWins<V>(m: map<string, V>, rows: seq<(string, V)>, i: nat)
    requires i < |rows| && rows[i].0 !in m
    requires forall j :: 0 <= j < i ==> rows[j].0 != rows[i].0
    ensures rows[i].0 in InsertAll(m, rows) && InsertAll(m, rows)[rows[i].0] == rows[i].1
  {
    var init := rows[..|rows| - 1];
    if i < |rows| - 1 {
      InsertAllFirstWins(m, init, i);
    } else {
      InsertAllKeys(m, init);
      assert forall j :: 0 <= j < |init| ==> init[j].0 != rows[i].0;
      assert rows[i].0 !in Keys(init);
    }
  }

  /** Rows whose keys are all present already leave the table as it is. */
  lemma {:induction false} InsertAllPresent<V>(m: map<string, V>, rows: seq<(string, V)>)
    requires Keys(rows) <= m.Keys
    ensures InsertAll(m, rows) == m
  {
    if rows != [] {
      var init := rows[..|rows| - 1];
      assert Keys(init) <= Keys(rows);
      InsertAllPresent(m, init);
      InsertAllKeys(m, init);
    }
  }

  /** Running the same inserts a second time changes nothing. */
  lemma InsertAllIdempotent<V>(m: map<string, V>, rows: seq<(string, V)>)
    ensures InsertAll(InsertAll(m, rows), rows) == InsertAll(m, rows)
  {
    InsertAllKeys(m, rows);
    InsertAllPresent(InsertAll(m, rows), rows);
  }

  // ---- row lists ---------------------------------------------------------------------

  /** Appending row lists is associative. */
  lemma AppendAssoc<T>(a: seq<T>, b: seq<T>, c: seq<T>)
    ensures a + b + c == a + (b + c)
  {
  }

  /** Appending to no rows gives the rows. */
  lemma AppendEmpty<T>(a: seq<T>)
    ensures [] + a == a
  {
  }
}
