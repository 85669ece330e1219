/**
  Crash safety of FileSessionStore (atproto/session_store.py). The file system keeps
  directory entries and file contents apart: fsync makes contents survive a power
  loss, but nothing syncs the directory, so after one the entry may be any it has
  had. A process crash loses nothing that was written.
*/
module SessionStore {
  import opened Common

  type Path = string
  type Inode = nat

  /** `dirs` are the directory states a power loss may fall back to. */
  datatype Disk = Disk(dir: map<Path, Inode>, data: map<Inode, string>, synced: set<Inode>, dirs: set<map<Path, Inode>>)

  /** Each directory entry leads to a file. */
  predicate Linked(d: Disk) {
    && d.dir in d.dirs
    && forall dir, p :: dir in d.dirs && p in dir ==> dir[p] in d.data
  }

  function Read(d: Disk, p: Path): Option<string>
    requires Linked(d)
  {
    if p in d.dir then Some(d.data[d.dir[p]]) else None
  }

  /** `content` may be found at `p` after a power loss: unsynced files hold anything. */
  ghost predicate MayReadAfterPowerLoss(d: Disk, p: Path, content: Option<string>)
    requires Linked(d)
  {
    exists dir :: dir in d.dirs &&
      if p !in dir then content == None
      else content.Some? && (dir[p] in d.synced ==> content.value == d.data[dir[p]])
  }

  /** Whatever a power loss may leave at `p` is one of `known`. */
  ghost predicate Whole(d: Disk, p: Path, known: set<Option<string>>)
    requires Linked(d)
  {
    forall content :: MayReadAfterPowerLoss(d, p, content) ==> content in known
  }

  /** A crash now finds the old or the new text at `p` if it only ends the process,
      and one of `known` if it takes the power. */
  ghost predicate CrashSafe(d: Disk, p: Path, before: Option<string>, after: Option<string>,
                            known: set<Option<string>>)
  {
    Linked(d) && (Read(d, p) == before || Read(d, p) == after) && Whole(d, p, known)
  }

  // ----- the system calls ---------------------------------------------------

  class FileSystem {
    var disk: Disk
    // Every state the disk has been in.
    ghost var seen: seq<Disk>

    constructor (disk: Disk)
      ensures this.disk == disk && seen == [disk]
    {
      this.disk, seen := disk, [disk];
    }

    method Create(p: Path) returns (i: Inode)
      requires Linked(disk) && p !in disk.dir
      modifies this
      ensures i !in old(disk).data && Linked(disk)
      ensures disk == CreatedAt(old(disk), p, i)
      ensures seen == old(seen) + [disk]
    {
      i := FreshInode(disk.data);
      disk := CreatedAt(disk, p, i);
      seen := seen + [disk];
    }

    method Append(i: Inode, text: string)
      requires i in disk.data
      modifies this
      ensures disk == old(disk).(data := old(disk).data[i := old(disk).data[i] + text],
                                 synced := old(disk).synced - {i})
      ensures seen == old(seen) + [disk]
    {
      disk := disk.(data := disk.data[i := disk.data[i] + text], synced := disk.synced - {i});
      seen := seen + [disk];
    }

    method Fsync(i: Inode)
      modifies this
      ensures disk == old(disk).(synced := old(disk).synced + {i}) && seen == old(seen) + [disk]
    {
      disk := disk.(synced := disk.synced + {i});
      seen := seen + [disk];
    }

    /** os.replace: one directory update. */
    method Replace(from: Path, to: Path)
      requires from in disk.dir
      modifies this
      ensures disk == Linking(old(disk), old(disk).dir[to := old(disk).dir[from]] - {from})
      ensures seen == old(seen) + [disk]
    {
      disk := Linking(disk, disk.dir[to := disk.dir[from]] - {from});
      seen := seen + [disk];
    }

    method Unlink(p: Path)
      modifies this
      ensures disk == Linking(old(disk), old(disk).dir - {p}) && seen == old(seen) + [disk]
    {
      disk := Linking(disk, disk.dir - {p});
      seen := seen + [disk];
    }
  }

  function Linking(d: Disk, dir: map<Path, Inode>): Disk {
    d.(dir := dir, dirs := d.dirs + {dir})
  }

  function CreatedAt(d: Disk, p: Path, i: Inode): Disk {
    Linking(d.(data := d.data[i := ""], synced := d.synced - {i}), d.dir[p := i])
  }

  method FreshInode(data: map<Inode, string>) returns (i: Inode)
    ensures i !in data
  {
    i := 0;
    var rest := data.Keys;
    while i in rest
      invariant forall j :: j in data && j !in rest ==> j < i
      invariant rest <= data.Keys && forall j :: j in rest ==> j >= i
      decreases |rest|
    {
      rest := rest - {i};
      i := i + 1;
    }
  }

  // ----- the store ----------------------------------------------------------

  /** What is there now may be there after a power loss. */
  lemma ReadIsKnown(d: Disk, p: Path, known: set<Option<string>>)
    requires Linked(d) && Whole(d, p, known)
    ensures Read(d, p) in known
  {
  }

  /** A disk as a power loss may leave it: one of the directory states, the synced
      files intact, anything in the others, and nothing pending. */
  predicate PowerLost(d: Disk, after: Disk) {
    && after.dir in d.dirs && after.dirs == {after.dir}
    && (forall p :: p in after.dir ==> after.dir[p] in after.data && after.dir[p] in after.synced)
    && (forall i :: i in d.synced && i in d.data && i in after.data ==> after.data[i] == d.data[i])
  }

  lemma PowerLossIsSafe(d: Disk, after: Disk, p: Path, known: set<Option<string>>)
    requires Linked(d) && Whole(d, p, known) && PowerLost(d, after)
    ensures Linked(after) && Whole(after, p, known) && Read(after, p) in known
  {
  }

  /** While a save works on `temporary`, nothing else changes. */
  ghost predicate Working(d: Disk, start: Disk, temporary: Path, i: Inode) {
    && Linked(d) && Linked(start)
    && i !in start.data && i in d.data && temporary !in start.dir
    && d.dir == start.dir[temporary := i]
    && d.dirs == start.dirs + {d.dir}
    && (forall j :: j in start.data ==> j in d.data && d.data[j] == start.data[j])
    && (forall j :: j in start.data ==> (j in d.synced <==> j in start.synced))
  }

  ghost predicate AllSafe(seen: seq<Disk>, from: nat, p: Path, before: Option<string>, after: Option<string>,
                          known: set<Option<string>>) {
    forall k :: from <= k < |seen| ==> CrashSafe(seen[k], p, before, after, known)
  }

  /** In every state from the given one on, `p` still reads as before. */
  ghost predicate Untouched(seen: seq<Disk>, from: nat, p: Path, before: Option<string>, known: set<Option<string>>) {
    from <= |seen| && forall k :: from <= k < |seen| ==>
      Linked(seen[k]) && Read(seen[k], p) == before && Whole(seen[k], p, known)
  }

  /** Knowing of one more text changes nothing. */
  lemma WiderIsSafe(seen: seq<Disk>, from: nat, p: Path, before: Option<string>, known: set<Option<string>>,
                    text: Option<string>)
    requires Untouched(seen, from, p, before, known)
    ensures Untouched(seen, from, p, before, known + {text})
  {
  }

  lemma WorkingIsSafe(d: Disk, start: Disk, p: Path, temporary: Path, i: Inode, known: set<Option<string>>)
    requires Working(d, start, temporary, i) && p != temporary && Whole(start, p, known)
    ensures Read(d, p) == Read(start, p) && Whole(d, p, known)
  {
  }

  /** Replacing a synced temporary adds one possible outcome: the new text. */
  lemma ReplaceIsSafe(d: Disk, start: Disk, p: Path, temporary: Path, i: Inode, known: set<Option<string>>)
    requires Working(d, start, temporary, i) && p != temporary && i in d.synced && Whole(start, p, known)
    ensures var e := Linking(d, d.dir[p := i] - {temporary});
      Linked(e) && Read(e, p) == Some(d.data[i]) && Whole(e, p, known + {Some(d.data[i])})
  {
  }

  /** Removing the temporary again leaves `p` alone. */
  lemma CleanupIsSafe(d: Disk, start: Disk, p: Path, temporary: Path, i: Inode, known: set<Option<string>>)
    requires Working(d, start, temporary, i) && p != temporary && Whole(start, p, known)
    ensures var e := Linking(d, d.dir - {temporary});
      Linked(e) && Read(e, p) == Read(start, p) && Whole(e, p, known)
  {
  }

  lemma UnlinkIsSafe(d: Disk, p: Path, known: set<Option<string>>)
    requires Linked(d) && Whole(d, p, known)
    ensures var e := Linking(d, d.dir - {p});
      Linked(e) && Read(e, p) == None && Whole(e, p, known + {None})
  {
  }

  function Joined(chunks: seq<string>): string {
    if chunks == [] then "" else Joined(chunks[..|chunks| - 1]) + chunks[|chunks| - 1]
  }

  /** What a save writes for a session, and what a load makes of a file. */
  function Rendered<Stored>(session: Stored, render: Stored -> seq<string>): string {
    Joined(render(session)) + "\n"
  }

  function Parsed<Stored>(content: Option<string>, parse: string -> Option<Stored>): Option<Stored> {
    if content.None? then None else parse(content.value)
  }

  class FileSessionStore<Stored> {
    const path: Path
    const fs: FileSystem
    // json.dump in pieces, and json.loads with from_dict.
    const render: Stored -> seq<string>
    const parse: string -> Option<Stored>
    // Every text a load may ever come upon: those saved, and the absence of any.
    ghost var known: set<Option<string>>

    ghost predicate Valid()
      reads this, fs
    {
      Linked(fs.disk) && Whole(fs.disk, path, known) && Read(fs.disk, path) in known
    }

    /** On any disk of which it is known what a power loss may leave at the path. */
    constructor (path: Path, fs: FileSystem, render: Stored -> seq<string>, parse: string -> Option<Stored>,
                 ghost known: set<Option<string>>)
      requires Linked(fs.disk) && Whole(fs.disk, path, known)
      ensures Valid() && this.path == path && this.fs == fs && this.render == render && this.parse == parse
      ensures this.known == known
    {
      this.path, this.fs, this.render, this.parse := path, fs, render, parse;
      this.known := known;
      new;
      ReadIsKnown(fs.disk, path, known);
    }

    method Load() returns (r: Option<Stored>)
      requires Valid()
      ensures r == Parsed(Read(fs.disk, path), parse)
    {
      if path !in fs.disk.dir {
        return None;
      }
      r := parse(fs.disk.data[fs.disk.dir[path]]);
    }

    function Text(session: Stored): string {
      Rendered(session, render)
    }

    /** mkstemp, every write of a piece, the fsync and the replace succeed. */
    predicate NoneFails(session: Stored, fails: nat -> bool) {
      !fails(0) && !fails(1) && !fails(2) && NoWriteFails(|render(session)| + 1, fails)
    }

    predicate NoWriteFails(n: nat, fails: nat -> bool) {
      forall k :: 3 <= k < n + 3 ==> !fails(k)
    }

    /** `temporary` is the unused name mkstemp picks; `fails` says which system call,
        if any, raises. Every state on the way is safe to crash in. */
    method Save(session: Stored, temporary: Path, fails: nat -> bool) returns (ok: bool)
      requires Valid() && temporary !in fs.disk.dir && temporary != path
      modifies this, fs
      ensures ok <==> NoneFails(session, fails)
      ensures Valid() && known == if ok then old(known) + {Some(Text(session))} else old(known)
      ensures Read(fs.disk, path) == if ok then Some(Text(session)) else old(Read(fs.disk, path))
      ensures |fs.seen| >= |old(fs.seen)|
      ensures AllSafe(fs.seen, |old(fs.seen)|, path, old(Read(fs.disk, path)), Some(Text(session)), known)
    {
      ghost var start := fs.disk;
      if fails(0) {
        return false;
      }
      var i, written := WriteTemporary(session, temporary, fails, known);
      if written && !fails(2) {
        ReplaceIsSafe(fs.disk, start, path, temporary, i, known);
        WiderIsSafe(fs.seen, |old(fs.seen)|, path, old(Read(fs.disk, path)), known, Some(Text(session)));
        known := known + {Some(Text(session))};
        fs.Replace(temporary, path);
        return true;
      }
      CleanupIsSafe(fs.disk, start, path, temporary, i, known);
      fs.Unlink(temporary);
      return false;
    }

    lemma TextEndsInNewline(session: Stored)
      ensures Joined(render(session) + ["\n"]) == Text(session)
    {
      assert (render(session) + ["\n"])[..|render(session)|] == render(session);
    }

    /** The `with` block: create, dump, flush, fsync. */
    method WriteTemporary(session: Stored, temporary: Path, fails: nat -> bool, ghost known: set<Option<string>>)
      returns (i: Inode, ok: bool)
      requires Linked(fs.disk) && Whole(fs.disk, path, known) && temporary !in fs.disk.dir && temporary != path
      modifies fs
      ensures Working(fs.disk, old(fs.disk), temporary, i)
      ensures ok ==> i in fs.disk.synced && fs.disk.data[i] == Text(session)
      ensures ok <==> !fails(1) && NoWriteFails(|render(session)| + 1, fails)
      ensures Untouched(fs.seen, |old(fs.seen)|, path, old(Read(fs.disk, path)), known)
    {
      ghost var start := fs.disk;
      i := fs.Create(temporary);
      WorkingIsSafe(fs.disk, start, path, temporary, i, known);
      ok := WriteChunks(i, render(session) + ["\n"], fails, start, temporary, known);
      if ok && !fails(1) {
        fs.Fsync(i);
        WorkingIsSafe(fs.disk, start, path, temporary, i, known);
        TextEndsInNewline(session);
      } else {
        ok := false;
      }
    }

    method WriteChunk(i: Inode, chunk: string,
                      ghost start: Disk, ghost temporary: Path, ghost known: set<Option<string>>)
      requires Working(fs.disk, start, temporary, i) && temporary != path && Whole(start, path, known)
      modifies fs
      ensures Working(fs.disk, start, temporary, i) && fs.disk.data[i] == old(fs.disk.data[i]) + chunk
      ensures fs.seen == old(fs.seen) + [fs.disk]
      ensures Linked(fs.disk) && Read(fs.disk, path) == Read(start, path) && Whole(fs.disk, path, known)
    {
      fs.Append(i, chunk);
      WorkingIsSafe(fs.disk, start, path, temporary, i, known);
    }

    method WriteChunks(i: Inode, chunks: seq<string>, fails: nat -> bool,
                       ghost start: Disk, ghost temporary: Path, ghost known: set<Option<string>>) returns (ok: bool)
      requires Working(fs.disk, start, temporary, i) && temporary != path && Whole(start, path, known)
      requires fs.disk.data[i] == ""
      modifies fs
      ensures Working(fs.disk, start, temporary, i)
      ensures ok ==> fs.disk.data[i] == Joined(chunks)
      ensures ok <==> NoWriteFails(|chunks|, fails)
      ensures |fs.seen| >= |old(fs.seen)| && fs.seen[..|old(fs.seen)|] == old(fs.seen)
      ensures Untouched(fs.seen, |old(fs.seen)|, path, Read(start, path), known)
    {
      var n := 0;
      while n < |chunks|
        invariant 0 <= n <= |chunks|
        invariant Working(fs.disk, start, temporary, i) && fs.disk.data[i] == Joined(chunks[..n])
        invariant NoWriteFails(n, fails)
        invariant |fs.seen| >= |old(fs.seen)| && fs.seen[..|old(fs.seen)|] == old(fs.seen)
        invariant Untouched(fs.seen, |old(fs.seen)|, path, Read(start, path), known)
      {
        if fails(n + 3) {
          return false;
        }
        WriteChunk(i, chunks[n], start, temporary, known);
        assert chunks[..n + 1][..n] == chunks[..n];
        n := n + 1;
      }
      assert chunks[..n] == chunks;
      return true;
    }

    method Clear()
      requires Valid()
      modifies this, fs
      ensures Valid() && known == old(known) + {None} && Read(fs.disk, path) == None
    {
      UnlinkIsSafe(fs.disk, path, known);
      known := known + {None};
      fs.Unlink(path);
    }
  }

  // ----- restarts -----------------------------------------------------------

  /** After a process crash in any state a save passes through, a new store is valid
      and loads the old session or the new one. */
  method RestartAfterCrash<Stored>(d: Disk, path: Path, render: Stored -> seq<string>, parse: string -> Option<Stored>,
                                   ghost before: Option<string>, ghost after: Option<string>,
                                   ghost known: set<Option<string>>)
    returns (store: FileSessionStore<Stored>, loaded: Option<Stored>)
    requires CrashSafe(d, path, before, after, known)
    ensures store.Valid() && fresh(store) && store.path == path && store.known == known
    ensures loaded == Parsed(before, parse) || loaded == Parsed(after, parse)
  {
    var fs := new FileSystem(d);
    store := new FileSessionStore(path, fs, render, parse, known);
    loaded := store.Load();
  }

  /** After a power loss in any of them it loads a session saved before, or this one. */
  method RestartAfterPowerLoss<Stored>(ghost d: Disk, left: Disk, path: Path, render: Stored -> seq<string>,
                                       parse: string -> Option<Stored>, ghost before: Option<string>,
                                       ghost after: Option<string>, ghost known: set<Option<string>>)
    returns (store: FileSessionStore<Stored>, loaded: Option<Stored>)
    requires CrashSafe(d, path, before, after, known) && PowerLost(d, left)
    ensures store.Valid() && fresh(store) && store.path == path && store.known == known
    ensures exists content :: content in known && loaded == Parsed(content, parse)
  {
    PowerLossIsSafe(d, left, path, known);
    var fs := new FileSystem(left);
    store := new FileSessionStore(path, fs, render, parse, known);
    loaded := store.Load();
  }

  /** With a faithful JSON round trip these are the sessions themselves: every state a
      save passes through reads as what was there or the new session, and every disk a
      power loss may leave of it as something the store has held. */
  lemma CrashesFindSessions<Stored(!new)>(d: Disk, path: Path, render: Stored -> seq<string>,
                                          parse: string -> Option<Stored>, current: Option<Stored>,
                                          session: Stored, held: set<Option<Stored>>, left: Disk)
    requires forall s :: parse(Rendered(s, render)) == Some(s)
    requires CrashSafe(d, path, TextOf(current, render), TextOf(Some(session), render), Texts(held, render))
    requires PowerLost(d, left)
    ensures Parsed(Read(d, path), parse) == current || Parsed(Read(d, path), parse) == Some(session)
    ensures Linked(left) && Parsed(Read(left, path), parse) in held
  {
    PowerLossIsSafe(d, left, path, Texts(held, render));
    var s :| s in held && Read(left, path) == TextOf(s, render);
    assert Parsed(TextOf(s, render), parse) == s;
  }

  function TextOf<Stored>(session: Option<Stored>, render: Stored -> seq<string>): Option<string> {
    if session.None? then None else Some(Rendered(session.value, render))
  }

  ghost function Texts<Stored(!new)>(held: set<Option<Stored>>, render: Stored -> seq<string>): set<Option<string>> {
    set s | s in held :: TextOf(s, render)
  }

  /** Why fsync comes before the rename: without it a power loss may leave any text. */
  lemma UnsyncedReplaceCanTruncate(d: Disk, p: Path, temporary: Path, i: Inode, garbage: string)
    requires Linked(d) && temporary in d.dir && d.dir[temporary] == i && i !in d.synced && p != temporary
    ensures var e := Linking(d, d.dir[p := i] - {temporary});
      Linked(e) && MayReadAfterPowerLoss(e, p, Some(garbage))
  {
  }
}
