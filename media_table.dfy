/** The server's media table (`src/media.rs`): one row per file name holding
    the update sequence number (usn) of its last change and its SHA-1 checksum,
    which is null once the file has been deleted. This module states what the
    table queries answer. */
module MediaTable {
  import opened Base

  datatype MediaRow = MediaRow(usn: int, csum: Option<string>)

  /** `media (fname PRIMARY KEY, usn, csum)`, keyed by file name. */
  type Table = map<string, MediaRow>

  /** `MediaRecord`: a row about to be written by `records_add`; `sha1` is
      the hexadecimal checksum. */
  datatype MediaRecord = MediaRecord(fname: string, usn: int, sha1: string)

  /** A row as `changes` reports it: name, usn, checksum or "" when null. */
  type Change = (string, int, string)

  function ChangeOf(fname: string, row: MediaRow): (c: Change)
    ensures c.0 == fname && c.1 == row.usn
    ensures row.csum.Some? ==> c.2 == row.csum.value
    ensures row.csum.None? ==> c.2 == ""
  {
    (fname, row.usn, if row.csum.Some? then row.csum.value else "")
  }

  // ------------------------------------------------------------ last_usn

  /** `u` is what `last_usn` answers: the greatest usn of the table, or 0
      when the table is empty. */
  ghost predicate IsLastUsn(db: Table, u: int)
  {
    && (db == map[] ==> u == 0)
    && (db != map[] ==> (exists k :: k in db && db[k].usn == u) && forall k :: k in db ==> db[k].usn <= u)
  }

  /** The greatest usn of the table, or 0 when it is empty. */
  ghost function MaxUsn(db: Table): (u: int)
    ensures IsLastUsn(db, u)
    decreases db.Keys
  {
    if db == map[] then 0
    else
      var k :| k in db;
      var rest := db - {k};
      if rest == map[] then
        assert forall j :: j in db ==> j == k by {
          forall j | j in db ensures j == k {
            assert j !in rest;
          }
        }
        db[k].usn
      else
        var m := MaxUsn(rest);
        var u := if m >= db[k].usn then m else db[k].usn;
        assert forall j :: j in db ==> db[j].usn <= u by {
          forall j | j in db ensures db[j].usn <= u {
            if j != k { assert j in rest; }
          }
        }
        u
  }

  /** There is only one last usn. */
  lemma LastUsnUnique(db: Table, u: int)
    requires IsLastUsn(db, u)
    ensures u == MaxUsn(db)
  {
    var m := MaxUsn(db);
    if db != map[] {
      var k :| k in db && db[k].usn == u;
      var j :| j in db && db[j].usn == m;
      assert db[j].usn <= u && db[k].usn <= m;
    }
  }

  // ------------------------------------------------------------ changes

  predicate InBatch(k: string, v: seq<Change>)
  {
    exists i :: 0 <= i < |v| && v[i].0 == k
  }

  /** The rows `select fname,usn,csum from media order by usn desc limit ?`
      may return: `limit` rows (all of them when the table is smaller or the
      limit negative, which SQLite reads as no limit), each reported once, in
      descending usn order, and none left out that has a greater usn than one
      returned. Rows of equal usn may come in either order. */
  ghost predicate IsChangeBatch(db: Table, limit: int, v: seq<Change>)
  {
    && |v| == (if limit < 0 || limit >= |db| then |db| else limit)
    && (forall i :: 0 <= i < |v| ==> v[i].0 in db && v[i] == ChangeOf(v[i].0, db[v[i].0]))
    && (forall i, j :: 0 <= i < j < |v| ==> v[i].0 != v[j].0 && v[i].1 >= v[j].1)
    && (forall k, i :: k in db && !InBatch(k, v) && 0 <= i < |v| ==> db[k].usn <= v[i].1)
  }

  /** Each row of a batch is the table's row of that name. */
  lemma BatchRow(db: Table, limit: int, v: seq<Change>, j: int)
    requires IsChangeBatch(db, limit, v) && 0 <= j < |v|
    ensures v[j].0 in db && v[j] == ChangeOf(v[j].0, db[v[j].0])
  {
  }

  /** The list in the opposite order (`Vec::reverse`). */
  function Reversed(v: seq<Change>): (r: seq<Change>)
    ensures |r| == |v|
    ensures forall i :: 0 <= i < |v| ==> r[i] == v[|v| - 1 - i]
  {
    seq(|v|, i requires 0 <= i < |v| => v[|v| - 1 - i])
  }

  /** A batch under construction: the rows taken so far, newest first, and
      the names not yet taken, none newer than a row taken. */
  ghost predicate PartialBatch(db: Table, remaining: set<string>, v: seq<Change>)
  {
    && remaining <= db.Keys && |v| + |remaining| == |db|
    && (forall i :: 0 <= i < |v| ==> v[i].0 in db && v[i].0 !in remaining && v[i] == ChangeOf(v[i].0, db[v[i].0]))
    && (forall i, j :: 0 <= i < j < |v| ==> v[i].0 != v[j].0 && v[i].1 >= v[j].1)
    && (forall k, i :: k in remaining && 0 <= i < |v| ==> db[k].usn <= v[i].1)
    && (forall k :: k in db && k !in remaining ==> InBatch(k, v))
  }

  lemma PartialBatchStart(db: Table)
    ensures PartialBatch(db, db.Keys, [])
  {
    assert |db.Keys| == |db|;
  }

  /** Taking the newest remaining row keeps a batch under construction. */
  lemma PartialBatchStep(db: Table, remaining: set<string>, v: seq<Change>, k: string)
    requires PartialBatch(db, remaining, v)
    requires k in remaining && forall j :: j in remaining ==> db[j].usn <= db[k].usn
    ensures PartialBatch(db, remaining - {k}, v + [ChangeOf(k, db[k])])
  {
    var w := v + [ChangeOf(k, db[k])];
    var rest := remaining - {k};
    assert |rest| == |remaining| - 1;
    forall i | 0 <= i < |w|
      ensures w[i].0 in db && w[i].0 !in rest && w[i] == ChangeOf(w[i].0, db[w[i].0])
    {
      if i < |v| {
        assert w[i] == v[i];
      }
    }
    forall i, j | 0 <= i < j < |w| ensures w[i].0 != w[j].0 && w[i].1 >= w[j].1 {
      assert w[i] == v[i];
      if j < |v| {
        assert w[j] == v[j];
      } else {
        assert w[j] == ChangeOf(k, db[k]);
      }
    }
    forall j, i | j in rest && 0 <= i < |w| ensures db[j].usn <= w[i].1 {
      if i < |v| {
        assert w[i] == v[i];
      }
    }
    forall j | j in db && j !in rest ensures InBatch(j, w) {
      if j == k {
        assert w[|w| - 1].0 == j;
      } else {
        var i :| 0 <= i < |v| && v[i].0 == j;
        assert w[i].0 == j;
      }
    }
  }

  /** A finished batch of the right length is an answer of the query. */
  lemma PartialBatchDone(db: Table, limit: int, remaining: set<string>, v: seq<Change>)
    requires PartialBatch(db, remaining, v)
    requires |v| == (if limit < 0 || limit >= |db| then |db| else limit)
    ensures IsChangeBatch(db, limit, v)
  {
  }

  /** A list in descending usn order, read back to front, is ascending. */
  lemma ReversedAscending(v: seq<Change>)
    requires forall i, j :: 0 <= i < j < |v| ==> v[i].1 >= v[j].1
    ensures forall i, j :: 0 <= i < j < |v| ==> Reversed(v)[i].1 <= Reversed(v)[j].1
  {
    var r := Reversed(v);
    forall i, j | 0 <= i < j < |v| ensures r[i].1 <= r[j].1 {
      assert r[i] == v[|v| - 1 - i] && r[j] == v[|v| - 1 - j];
    }
  }

  /** No two rows share a usn. */
  ghost predicate DistinctUsns(db: Table)
  {
    forall a, b :: a in db && b in db && a != b ==> db[a].usn != db[b].usn
  }

  /** Distinct names taken from a set, as many as the set has, are all of it. */
  lemma {:induction false} DistinctNamesCover(keys: set<string>, v: seq<Change>)
    requires forall i :: 0 <= i < |v| ==> v[i].0 in keys
    requires forall i, j :: 0 <= i < j < |v| ==> v[i].0 != v[j].0
    requires |v| >= |keys|
    ensures forall k :: k in keys ==> InBatch(k, v)
    decreases |v|
  {
    if v != [] {
      var last := v[|v| - 1].0;
      var rest := keys - {last};
      assert keys == rest + {last};
      var w := v[..|v| - 1];
      forall i | 0 <= i < |w| ensures w[i].0 in rest {
        assert w[i].0 == v[i].0 != last;
      }
      DistinctNamesCover(rest, w);
      forall k | k in keys ensures InBatch(k, v) {
        if k != last {
          assert InBatch(k, w);
          var i :| 0 <= i < |w| && w[i].0 == k;
          assert v[i].0 == k;
        } else {
          assert v[|v| - 1].0 == k;
        }
      }
    }
  }

  /** Distinct names taken from a set are at most as many as the set has. */
  lemma {:induction false} DistinctNamesBound(keys: set<string>, v: seq<Change>)
    requires forall i :: 0 <= i < |v| ==> v[i].0 in keys
    requires forall i, j :: 0 <= i < j < |v| ==> v[i].0 != v[j].0
    ensures |v| <= |keys|
    decreases |v|
  {
    if v != [] {
      var last := v[|v| - 1].0;
      var rest := keys - {last};
      assert keys == rest + {last};
      var w := v[..|v| - 1];
      forall i | 0 <= i < |w| ensures w[i].0 in rest {
        assert w[i].0 == v[i].0 != last;
      }
      DistinctNamesBound(rest, w);
    }
  }

  /** In a batch of distinct usns, the i-th usn is at most the top usn minus i. */
  lemma {:induction false} DescendingBelowTop(db: Table, limit: int, v: seq<Change>, i: nat)
    requires DistinctUsns(db) && IsChangeBatch(db, limit, v) && i < |v|
    ensures v[i].1 <= MaxUsn(db) - i
  {
    if i > 0 {
      DescendingBelowTop(db, limit, v, i - 1);
      assert v[i - 1].0 != v[i].0;
      assert v[i - 1].1 > v[i].1;
    }
  }

  /** When usns never repeat, `changes(client, server)` with the server's last
      usn misses nothing: every row changed after `client` is in the batch. */
  lemma {:induction false} ChangesCoverNewer(db: Table, client: int, v: seq<Change>)
    requires DistinctUsns(db) && client < MaxUsn(db)
    requires IsChangeBatch(db, MaxUsn(db) - client, v)
    ensures forall k :: k in db && db[k].usn > client ==> InBatch(k, v)
  {
    var s := MaxUsn(db);
    forall k | k in db && db[k].usn > client ensures InBatch(k, v) {
      if !InBatch(k, v) {
        if s - client >= |db| {
          assert |v| == |db| == |db.Keys|;
          DistinctNamesCover(db.Keys, v);
          assert false;
        }
        DescendingBelowTop(db, s - client, v, |v| - 1);
        assert false;
      }
    }
  }

  /** The same, read oldest first: every row changed after `client` is in
      the reversed batch. */
  lemma ReversedBatchCovers(db: Table, client: int, v: seq<Change>)
    requires DistinctUsns(db) && client < MaxUsn(db)
    requires IsChangeBatch(db, MaxUsn(db) - client, v)
    ensures forall k :: k in db && db[k].usn > client ==>
              exists i :: 0 <= i < |Reversed(v)| && Reversed(v)[i] == ChangeOf(k, db[k])
  {
    ChangesCoverNewer(db, client, v);
    var r := Reversed(v);
    forall k | k in db && db[k].usn > client
      ensures exists i :: 0 <= i < |r| && r[i] == ChangeOf(k, db[k])
    {
      assert InBatch(k, v);
      var j :| 0 <= j < |v| && v[j].0 == k;
      BatchRow(db, MaxUsn(db) - client, v, j);
      assert r[|v| - 1 - j] == v[j];
    }
  }

  /** When usns repeat, the limit loses rows: two files changed at usn 1 and a
      client at usn 0 get a batch of one, and the other change is never sent. */
  lemma ChangesMissRepeatedUsn()
    ensures var db := map["a.png" := MediaRow(1, Some("x")), "b.png" := MediaRow(1, Some("y"))];
            var v := [ChangeOf("a.png", db["a.png"])];
            MaxUsn(db) == 1 && IsChangeBatch(db, MaxUsn(db) - 0, v)
            && db["b.png"].usn > 0 && !InBatch("b.png", v)
  {
    var db := map["a.png" := MediaRow(1, Some("x")), "b.png" := MediaRow(1, Some("y"))];
    assert db.Keys == {"a.png", "b.png"};
    assert |db| == 2;
    LastUsnUnique(db, 1);
  }

  // ------------------------------------------------------------ media_count

  /** `media_count`: the rows whose checksum is not null (files the server holds). */
  function MediaCount(db: Table): (n: nat)
    ensures n <= |db|
    ensures n == |db| <==> forall k :: k in db ==> db[k].csum.Some?
  {
    var live := set k | k in db && db[k].csum.Some?;
    SubsetSize(live, db.Keys);
    if forall k :: k in db ==> db[k].csum.Some? then
      assert live == db.Keys;
      |live|
    else
      var k :| k in db && db[k].csum.None?;
      SubsetSize(live, db.Keys - {k});
      assert db.Keys == (db.Keys - {k}) + {k};
      |live|
  }

  lemma {:induction false} SubsetSize(a: set<string>, b: set<string>)
    requires a <= b
    ensures |a| <= |b|
    decreases |a|
  {
    if a != {} {
      var x :| x in a;
      assert a == (a - {x}) + {x} && b == (b - {x}) + {x};
      SubsetSize(a - {x}, b - {x});
    }
  }

  // ------------------------------------------------------------ records_add

  function RowOf(rec: MediaRecord): MediaRow
  {
    MediaRow(rec.usn, Some(rec.sha1))
  }

  /** `records_add`: `INSERT OR REPLACE` of each record in turn. */
  function RecordsAddAll(db: Table, adds: seq<MediaRecord>): (r: Table)
    decreases |adds|
  {
    if adds == [] then db
    else
      var last := adds[|adds| - 1];
      RecordsAddAll(db, adds[..|adds| - 1])[last.fname := RowOf(last)]
  }

  /** A name written by `records_add` holds the row of its last record. */
  lemma {:induction false} RecordsAddLastWins(db: Table, adds: seq<MediaRecord>, j: nat)
    requires j < |adds|
    requires forall i :: j < i < |adds| ==> adds[i].fname != adds[j].fname
    ensures adds[j].fname in RecordsAddAll(db, adds)
    ensures RecordsAddAll(db, adds)[adds[j].fname] == RowOf(adds[j])
    decreases |adds|
  {
    var n := |adds| - 1;
    if j < n {
      forall i | j < i < n ensures adds[..n][i].fname != adds[..n][j].fname {
        assert adds[..n][i] == adds[i];
      }
      RecordsAddLastWins(db, adds[..n], j);
      assert adds[..n][j] == adds[j];
    }
  }

  /** A name no record carries keeps its row, or stays absent. */
  lemma {:induction false} RecordsAddUntouched(db: Table, adds: seq<MediaRecord>, k: string)
    requires forall i :: 0 <= i < |adds| ==> adds[i].fname != k
    ensures k in RecordsAddAll(db, adds) <==> k in db
    ensures k in db ==> RecordsAddAll(db, adds)[k] == db[k]
    decreases |adds|
  {
    if adds != [] {
      var n := |adds| - 1;
      forall i | 0 <= i < n ensures adds[..n][i].fname != k {
        assert adds[..n][i] == adds[i];
      }
      RecordsAddUntouched(db, adds[..n], k);
    }
  }

  // ------------------------------------------------------------ delete

  /** One step of `delete`: a row with that name gets a null checksum and the
      usn one above the current last usn; without a row nothing changes. */
  ghost function DeleteOne(db: Table, name: string): (r: Table)
  {
    if name in db then db[name := MediaRow(MaxUsn(db) + 1, None)] else db
  }

  /** `delete` on the table: each name in turn, the last usn read afresh. */
  ghost function DeleteAll(db: Table, names: seq<string>): (r: Table)
    decreases |names|
  {
    if names == [] then db else DeleteOne(DeleteAll(db, names[..|names| - 1]), names[|names| - 1])
  }

  /** The map without the listed names (files unlinked, rows removed). */
  function Without<V>(m: map<string, V>, names: seq<string>): (r: map<string, V>)
    ensures forall k :: k in r <==> k in m && k !in names
    ensures forall k :: k in r ==> r[k] == m[k]
  {
    map k | k in m && k !in names :: m[k]
  }

  lemma DeleteAllSnoc(db: Table, names: seq<string>, name: string)
    ensures DeleteAll(db, names + [name]) == DeleteOne(DeleteAll(db, names), name)
  {
    assert (names + [name])[..|names|] == names;
  }

  lemma WithoutSnoc<V>(m: map<string, V>, names: seq<string>, name: string)
    ensures Without(m, names + [name]) == Without(m, names) - {name}
  {
  }

  /** One deletion never lowers the last usn. */
  lemma DeleteOneRaises(db: Table, name: string)
    ensures MaxUsn(DeleteOne(db, name)) >= MaxUsn(db)
    ensures name in db ==> MaxUsn(DeleteOne(db, name)) == MaxUsn(db) + 1
  {
    if name in db {
      var r := DeleteOne(db, name);
      var top := MaxUsn(db) + 1;
      forall k | k in r ensures r[k].usn <= top {
        if k != name { assert r[k] == db[k]; }
      }
      assert r[name].usn == top;
      assert IsLastUsn(r, top);
      LastUsnUnique(r, top);
    }
  }

  /** `delete` keeps the set of rows; rows of unlisted names are untouched;
      every listed name that has a row ends with a null checksum and a usn
      above the last usn before the call. */
  lemma {:induction false} DeleteAllEffect(db: Table, names: seq<string>)
    ensures DeleteAll(db, names).Keys == db.Keys
    ensures forall k :: k in db && k !in names ==> DeleteAll(db, names)[k] == db[k]
    ensures forall k :: k in db && k in names ==>
              DeleteAll(db, names)[k].csum.None? && DeleteAll(db, names)[k].usn > MaxUsn(db)
    ensures MaxUsn(DeleteAll(db, names)) >= MaxUsn(db)
    decreases |names|
  {
    if names != [] {
      var n := |names| - 1;
      var prev := DeleteAll(db, names[..n]);
      DeleteAllEffect(db, names[..n]);
      DeleteOneRaises(prev, names[n]);
      forall k | k in db && k in names
        ensures DeleteAll(db, names)[k].csum.None? && DeleteAll(db, names)[k].usn > MaxUsn(db)
      {
        if k != names[n] {
          assert k in names[..n] by {
            var i :| 0 <= i < |names| && names[i] == k;
            assert names[..n][i] == k;
          }
        } else {
          assert MaxUsn(prev) >= MaxUsn(db);
        }
      }
    }
  }

  /** Deleting distinct names that all have rows hands out consecutive usns:
      the i-th name gets the last usn before the call plus i + 1. */
  lemma {:induction false} DeleteUsnsConsecutive(db: Table, names: seq<string>)
    requires forall i :: 0 <= i < |names| ==> names[i] in db
    requires forall i, j :: 0 <= i < j < |names| ==> names[i] != names[j]
    ensures MaxUsn(DeleteAll(db, names)) == MaxUsn(db) + |names|
    ensures forall i :: 0 <= i < |names| ==>
              names[i] in DeleteAll(db, names) && DeleteAll(db, names)[names[i]].usn == MaxUsn(db) + i + 1
    decreases |names|
  {
    if names != [] {
      var n := |names| - 1;
      var front := names[..n];
      var prev := DeleteAll(db, front);
      var r := DeleteOne(prev, names[n]);
      assert r == DeleteAll(db, names);
      assert MaxUsn(prev) == MaxUsn(db) + n && forall i :: 0 <= i < n ==> names[i] in prev && prev[names[i]].usn == MaxUsn(db) + i + 1 by {
        assert forall i :: 0 <= i < n ==> front[i] == names[i];
        DeleteUsnsConsecutive(db, front);
      }
      assert names[n] in prev by {
        DeleteAllEffect(db, front);
      }
      DeleteOneRaises(prev, names[n]);
      forall i | 0 <= i < n ensures names[i] in r && r[names[i]].usn == MaxUsn(db) + i + 1 {
        assert names[i] != names[n];
      }
    }
  }
}
