/**
  The session manager's store is the session file: what the manager's world calls
  its disk, and what it may fall back to, is what FileSessionStore reads and may read
  along the same steps.
*/
module Persistence {
  import opened Common
  import opened Session
  import opened SessionRuns
  import opened SessionStore

  type SessionFile = FileSessionStore<StoredSession>

  /** What json.dump writes of a session, json.loads and from_dict read. */
  ghost predicate Faithful(render: StoredSession -> seq<string>, parse: string -> Option<StoredSession>) {
    forall s :: parse(Rendered(s, render)) == Some(s)
  }

  /** Every text the file may hold is a session the world's store has held. */
  ghost predicate AllHeld(known: set<Option<string>>, parse: string -> Option<StoredSession>, w: World) {
    forall text :: text in known ==> Parsed(text, parse) in w.stored
  }

  /** The file holds the session on the world's disk. */
  ghost predicate Backs(file: SessionFile, w: World)
    reads file, file.fs
  {
    && file.Valid() && Faithful(file.render, file.parse)
    && Parsed(Read(file.fs.disk, file.path), file.parse) == w.disk
    && AllHeld(file.known, file.parse, w)
  }

  /** What `_load_once` reads. */
  method LoadSession(file: SessionFile, ghost w: World) returns (r: Option<StoredSession>)
    requires Backs(file, w)
    ensures r == w.disk
  {
    r := file.Load();
  }

  /** What `_persist` saves. */
  method SaveSession(file: SessionFile, ghost w: World, s: StoredSession, temporary: Path, fails: nat -> bool)
    returns (ok: bool)
    requires Backs(file, w) && temporary !in file.fs.disk.dir && temporary != file.path
    modifies file, file.fs
    ensures ok <==> file.NoneFails(s, fails)
    ensures forall e: Env :: e.saveOk == ok ==> Backs(file, Persist(w, s, e))
  {
    ok := file.Save(s, temporary, fails);
  }

  /** What `logout` clears. */
  method ClearSession(file: SessionFile, ghost c: Config, ghost w: World)
    requires Backs(file, w)
    modifies file, file.fs
    ensures forall e: Env :: e.clearOk ==> Backs(file, Logout(c, w, e).0)
  {
    file.Clear();
  }

  /** After a process crash in any state of a save, a new file object backs the world
      as it was or with the new session stored. */
  method ReopenAfterCrash(d: Disk, path: Path, render: StoredSession -> seq<string>,
                          parse: string -> Option<StoredSession>, ghost known: set<Option<string>>,
                          ghost before: Option<string>, ghost s: StoredSession, ghost w: World)
    returns (file: SessionFile)
    requires Faithful(render, parse) && Parsed(before, parse) == w.disk
    requires CrashSafe(d, path, before, Some(Rendered(s, render)), known)
    requires forall text :: text in known ==> Parsed(text, parse) in w.stored + {Some(s)}
    ensures fresh(file)
    ensures var u := w.(stored := w.stored + {Some(s)}); Backs(file, u) || Backs(file, u.(disk := Some(s)))
  {
    var fs := new FileSystem(d);
    file := new FileSessionStore(path, fs, render, parse, known);
  }

  /** After a power loss a new file object backs the world fallen back to a session its
      store has held. */
  method ReopenAfterPowerLoss(ghost file: SessionFile, left: Disk, path: Path, render: StoredSession -> seq<string>,
                              parse: string -> Option<StoredSession>, ghost w: World)
    returns (next: SessionFile, ghost back: Option<StoredSession>)
    requires Backs(file, w) && file.path == path && file.render == render && file.parse == parse
    requires PowerLost(file.fs.disk, left)
    ensures fresh(next) && back in w.stored && Backs(next, Restart(FallBack(w, back)))
  {
    PowerLossIsSafe(file.fs.disk, left, path, file.known);
    var fs := new FileSystem(left);
    next := new FileSessionStore(path, fs, render, parse, file.known);
    back := Parsed(Read(left, path), parse);
  }
}
