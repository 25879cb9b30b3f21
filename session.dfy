/** Sessions (`src/session.rs`): the session record, its paths, and the session
    manager that caches sessions by host key in memory and mirrors them into the
    durable `session` table. */
module Sessions {
  import opened Base
  import Users

  /** `skey`, `name` and `path` are `Option`s in the source, but every
      constructor sets them, so the model keeps the values. */
  datatype Session = Session(
    skey: string,
    name: string,
    path: string,
    version: Option<string>,
    clientVersion: Option<string>,
    clientUsn: int,
    clientNewer: bool,
    serverUsn: int)

  const COLLECTION_FILE := "collection.anki2"
  const MEDIA_DIR := "collection.media"
  const MEDIA_DB := "collection.media.server.db"

  /** `get_col_path`: the collection file inside the user's directory. */
  function GetColPath(s: Session): (p: string)
    ensures s.path != "" && s.path[|s.path| - 1] != '/' ==> p == s.path + "/" + COLLECTION_FILE
    ensures s.path == "" ==> p == COLLECTION_FILE
  {
    PathJoin(s.path, COLLECTION_FILE)
  }

  /** `get_md_mf`: (media database, media folder) inside the user's directory. */
  function GetMdMf(s: Session): (paths: (string, string))
    ensures s.path != "" && s.path[|s.path| - 1] != '/' ==>
      paths == (s.path + "/" + MEDIA_DB, s.path + "/" + MEDIA_DIR)
    ensures paths.0 != paths.1 && paths.0 != GetColPath(s) && paths.1 != GetColPath(s)
  {
    var medb := PathJoin(s.path, MEDIA_DB);
    var medir := PathJoin(s.path, MEDIA_DIR);
    assert medb[|medb| - |MEDIA_DB|..] == MEDIA_DB;
    assert medir[|medir| - |MEDIA_DIR|..] == MEDIA_DIR;
    assert GetColPath(s)[|GetColPath(s)| - |COLLECTION_FILE|..] == COLLECTION_FILE;
    assert medb[|medb| - 1] == 'b' && medir[|medir| - 1] == 'a' && GetColPath(s)[|GetColPath(s)| - 1] == '2';
    (medb, medir)
  }

  /** `Session::from`: a session rebuilt from stored keys, with no versions and zero counters. */
  function From(skey: string, username: string, userPath: string): (s: Session)
    ensures s.skey == skey && s.name == username && s.path == userPath
    ensures s.version.None? && s.clientVersion.None?
    ensures s.clientUsn == 0 && s.serverUsn == 0 && !s.clientNewer
  {
    Session(skey, username, userPath, None, None, 0, false, 0)
  }

  /** `Session::new`: the session key is the last 8 characters of the
      hexadecimal SHA-256 of the text of a random float (`randomText`).
      Creating the user directory is not part of this model. */
  function New(sha256: Users.Sha256, randomText: string, username: string, userPath: string): (s: Session)
    ensures |s.skey| == 8 && AllHex(s.skey)
    ensures s.skey == Hex(sha256(randomText))[56..]
    ensures s == From(s.skey, username, userPath)
  {
    var digest := Hex(sha256(randomText));
    From(digest[|digest| - 8..], username, userPath)
  }

  /** `map_skey_session`: the session itself when its key is `skey`, an I/O error otherwise. */
  function MapSkeySession(s: Session, skey: string): (r: Result<Session, string>)
    ensures r.Ok? <==> s.skey == skey
    ensures r.Ok? ==> r.value == s
    ensures !r.Panic?
  {
    if skey == s.skey then Ok(s) else Err("skey not in session manager")
  }

  /** A row of `session (hkey VARCHAR PRIMARY KEY, skey, username, path)`, keyed by `hkey`. */
  datatype SessionRow = SessionRow(skey: string, username: string, path: string)

  function RowOf(s: Session): SessionRow
  {
    SessionRow(s.skey, s.name, s.path)
  }

  /** A fresh session survives the round trip through the session table. */
  lemma {:induction false} RowRoundTrip(sha256: Users.Sha256, randomText: string, username: string, userPath: string)
    ensures var s := New(sha256, randomText, username, userPath);
            From(RowOf(s).skey, RowOf(s).username, RowOf(s).path) == s
  {
  }

  /** The cached sessions whose key is `skey`. */
  ghost predicate CachedWithKey(sessions: map<string, Session>, skey: string, s: Session)
  {
    exists h :: h in sessions && sessions[h] == s && s.skey == skey
  }

  /** The cache `sessions` and the durable `session` table. */
  class SessionManager {
    var sessions: map<string, Session>
    var table: map<string, SessionRow>

    /** `SessionManager::new` over an existing table: an empty cache. */
    constructor (stored: map<string, SessionRow>)
      ensures sessions == map[] && table == stored
    {
      sessions := map[];
      table := stored;
    }

    /** `save`: cache the session under `hkey` and insert or replace its row. */
    method Save(hkey: string, s: Session)
      modifies this
      ensures sessions == old(sessions)[hkey := s]
      ensures table == old(table)[hkey := RowOf(s)]
    {
      sessions := sessions[hkey := s];
      table := table[hkey := RowOf(s)];
    }

    /** `load`: the cached session for `hkey`; on a miss, the session rebuilt
        from the table row, which is then cached; `None` when there is no row. */
    method Load(hkey: string) returns (r: Option<Session>)
      modifies this
      ensures table == old(table)
      ensures hkey in old(sessions) ==> r == Some(old(sessions)[hkey]) && sessions == old(sessions)
      ensures hkey !in old(sessions) && hkey in table ==>
        var row := table[hkey];
        r == Some(From(row.skey, row.username, row.path)) && sessions == old(sessions)[hkey := r.value]
      ensures hkey !in old(sessions) && hkey !in table ==> r == None && sessions == old(sessions)
    {
      if hkey in sessions {
        r := Some(sessions[hkey]);
      } else if hkey in table {
        var row := table[hkey];
        var s := From(row.skey, row.username, row.path);
        sessions := sessions[hkey := s];
        r := Some(s);
      } else {
        r := None;
      }
    }

    /** `load_from_skey`: some cached session with key `skey` (hash-map order
        decides which); on a miss, a row whose `skey` matches rebuilds a session
        carrying `skey`, cached under the row's host key; `None` when no row matches. */
    method LoadFromSkey(skey: string) returns (r: Option<Session>)
      modifies this
      ensures table == old(table)
      ensures r.Some? ==> r.value.skey == skey
      ensures (exists h :: h in old(sessions) && old(sessions)[h].skey == skey) ==>
        r.Some? && CachedWithKey(old(sessions), skey, r.value) && sessions == old(sessions)
      ensures (forall h :: h in old(sessions) ==> old(sessions)[h].skey != skey) ==>
        if exists h :: h in table && table[h].skey == skey then
          exists h :: h in table && table[h].skey == skey
            && r == Some(From(skey, table[h].username, table[h].path))
            && sessions == old(sessions)[h := r.value]
        else r == None && sessions == old(sessions)
    {
      if h :| h in sessions && sessions[h].skey == skey {
        var found := MapSkeySession(sessions[h], skey);
        r := Some(found.value);
      } else if h :| h in table && table[h].skey == skey {
        var row := table[h];
        var s := From(skey, row.username, row.path);
        sessions := sessions[h := s];
        r := Some(s);
      } else {
        r := None;
      }
    }
  }

  /** A `save` followed by both lookups, as a handler does: `load` of the
      host key gives the saved session back (a cache hit), `load_from_skey` of
      its key finds a session with that key, and the table holds the saved row. */
  method SaveThenLoad(m: SessionManager, hkey: string, s: Session)
      returns (r: Option<Session>, q: Option<Session>)
    modifies m
    ensures r == Some(s)
    ensures q.Some? && q.value.skey == s.skey
    ensures m.table == old(m.table)[hkey := RowOf(s)]
    ensures m.sessions == old(m.sessions)[hkey := s]
  {
    m.Save(hkey, s);
    r := m.Load(hkey);
    q := m.LoadFromSkey(s.skey);
  }

  /** After a restart (empty cache) the saved row rebuilds a fresh session
      exactly, by host key and by session key. */
  lemma {:induction false} SavedSurvivesRestart(table: map<string, SessionRow>, hkey: string,
                                                sha256: Users.Sha256, randomText: string,
                                                username: string, userPath: string)
    ensures var s := New(sha256, randomText, username, userPath);
            var t := table[hkey := RowOf(s)];
            hkey in t && From(t[hkey].skey, t[hkey].username, t[hkey].path) == s
            && t[hkey].skey == s.skey
  {
    RowRoundTrip(sha256, randomText, username, userPath);
  }
}
