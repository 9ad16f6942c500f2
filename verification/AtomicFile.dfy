/** Replacing a file so that a crash leaves the old or the new content (atomic.go): a directory whose
    updates, and files whose data, reach the disk only when synced. */
module AtomicFile {
  import opened Text

  datatype Node = File(ino: nat) | Dir

  /** A file's data, and whether all of it is on disk. */
  datatype Inode = Inode(data: string, synced: bool)

  /** A directory update; a rename is one update. */
  datatype Update = Link(name: string, node: Node) | Unlink(name: string) | Rename(from: string, to: string, node: Node)

  type Entries = map<string, Node>

  /** One directory: its files, what is on disk, and the updates made since, which may or may not be. */
  datatype FS = FS(inodes: map<nat, Inode>, next: nat, durable: Entries, pending: seq<Update>)

  function Updated(d: Entries, u: Update): Entries {
    match u
    case Link(name, node) => d[name := node]
    case Unlink(name) => d - {name}
    case Rename(from, to, node) => (d - {from})[to := node]
  }

  function UpdatedAll(d: Entries, us: seq<Update>): Entries
    decreases |us|
  {
    if us == [] then d else Updated(UpdatedAll(d, us[..|us| - 1]), us[|us| - 1])
  }

  /** The directory as running programs see it. */
  function Current(fs: FS): Entries {
    UpdatedAll(fs.durable, fs.pending)
  }

  function Find(d: Entries, name: string): Option<Node> {
    if name in d then Some(d[name]) else None
  }

  /** What reading the name gives. */
  function View(fs: FS, name: string): Option<string> {
    match Find(Current(fs), name)
    case Some(File(i)) => if i in fs.inodes then Some(fs.inodes[i].data) else None
    case _ => None
  }

  /** The updates of a list that survive. */
  function Surviving(us: seq<Update>, survives: nat -> bool): seq<Update>
    decreases |us|
  {
    if us == [] then []
    else Surviving(us[..|us| - 1], survives) + (if survives(|us| - 1) then [us[|us| - 1]] else [])
  }

  /** A crash: any subset of the unsynced directory updates survives, and unsynced data is anything. */
  function Crash(fs: FS, survives: nat -> bool, junk: nat -> string): FS {
    FS(map i | i in fs.inodes :: Inode(if fs.inodes[i].synced then fs.inodes[i].data else junk(i), true),
       fs.next, UpdatedAll(fs.durable, Surviving(fs.pending, survives)), [])
  }

  // ---------- system calls ----------

  function Note(fs: FS, u: Update): FS {
    fs.(pending := fs.pending + [u])
  }

  function Create(fs: FS, name: string): FS {
    Note(fs.(inodes := fs.inodes[fs.next := Inode("", false)], next := fs.next + 1), Link(name, File(fs.next)))
  }

  function Write(fs: FS, ino: nat, data: string): FS {
    fs.(inodes := fs.inodes[ino := Inode(data, false)])
  }

  function SyncFile(fs: FS, ino: nat): FS
    requires ino in fs.inodes
  {
    fs.(inodes := fs.inodes[ino := fs.inodes[ino].(synced := true)])
  }

  function SyncDir(fs: FS): FS {
    fs.(durable := Current(fs), pending := [])
  }

  // ---------- WriteFileWith ----------

  /** What happens during one write: the random part of the temporary name, how much a failing write
      leaves, and which calls work. */
  datatype Luck = Luck(
    rand: string, createOk: bool, partial: string, writeOk: bool, chmodOk: bool, syncOk: bool,
    closeOk: bool, renameOk: bool, syncDirOk: bool, removeOk: bool)

  function TmpName(path: string, rand: string): string {
    path + "." + rand + ".tmp"
  }

  /** Whether the temporary file is closed with all the data in it and on disk, and renamed. */
  predicate Renames(fs: FS, path: string, luck: Luck) {
    Creates(fs, path, luck) && luck.writeOk && luck.chmodOk && luck.syncOk && luck.closeOk && luck.renameOk
  }

  predicate Creates(fs: FS, path: string, luck: Luck) {
    luck.createOk && TmpName(path, luck.rand) !in Current(fs)
  }

  function Discard(fs: FS, tmp: string, luck: Luck): FS {
    if luck.removeOk then Note(fs, Unlink(tmp)) else fs
  }

  /** The states a write goes through, in order; a crash can hit any of them. */
  function States(fs: FS, path: string, data: string, luck: Luck): (r: seq<FS>)
    ensures r != [] && r[0] == fs && (Renames(fs, path, luck) ==> |r| >= 5)
  {
    var tmp := TmpName(path, luck.rand);
    if !Creates(fs, path, luck) then [fs]
    else
      var created := Create(fs, tmp);
      if !luck.writeOk then
        var torn := Write(created, fs.next, luck.partial);
        [fs, created, torn, Discard(torn, tmp, luck)]
      else
        var written := Write(created, fs.next, data);
        if !luck.chmodOk || !luck.syncOk then [fs, created, written, Discard(written, tmp, luck)]
        else
          var synced := SyncFile(written, fs.next);
          if !luck.closeOk || !luck.renameOk then [fs, created, written, synced, Discard(synced, tmp, luck)]
          else
            var renamed := Note(synced, Rename(tmp, path, File(fs.next)));
            [fs, created, written, synced, renamed] + (if luck.syncDirOk then [SyncDir(renamed)] else [])
  }

  predicate Succeeds(fs: FS, path: string, luck: Luck) {
    Renames(fs, path, luck) && luck.syncDirOk
  }

  // ---------- what can be on disk ----------

  /** Inode numbers are not reused. */
  ghost predicate Sane(fs: FS) {
    forall i :: i in fs.inodes ==> i < fs.next
  }

  /** What an update leaves a name as, if it touches it. */
  function Effect(u: Update, name: string): Option<Option<Node>> {
    match u
    case Link(n, node) => if n == name then Some(Some(node)) else None
    case Unlink(n) => if n == name then Some(None) else None
    case Rename(from, to, node) => if to == name then Some(Some(node)) else if from == name then Some(None) else None
  }

  type Contents = set<Option<string>>

  /** The directory entry, if it is there, is a file whose data is all on disk; and its content is allowed. */
  ghost predicate Good(fs: FS, node: Option<Node>, allowed: Contents) {
    match node
    case None => None in allowed
    case Some(Dir) => false
    case Some(File(i)) => i in fs.inodes && fs.inodes[i].synced && Some(fs.inodes[i].data) in allowed
  }

  /** Whatever survives a crash, the name has an allowed content. */
  ghost predicate Safe(fs: FS, name: string, allowed: Contents) {
    && Good(fs, Find(fs.durable, name), allowed)
    && (forall i :: 0 <= i < |fs.pending| && Effect(fs.pending[i], name).Some? ==> Good(fs, Effect(fs.pending[i], name).value, allowed))
  }

  lemma UpdatedEffect(d: Entries, u: Update, name: string)
    ensures Find(Updated(d, u), name) == if Effect(u, name).Some? then Effect(u, name).value else Find(d, name)
  {
  }

  /** After any updates a name is what it was, or what one of them made it. */
  lemma {:induction false} AfterUpdates(fs: FS, us: seq<Update>, name: string, allowed: Contents)
    requires Good(fs, Find(fs.durable, name), allowed)
    requires forall i :: 0 <= i < |us| && Effect(us[i], name).Some? ==> Good(fs, Effect(us[i], name).value, allowed)
    ensures Good(fs, Find(UpdatedAll(fs.durable, us), name), allowed)
    decreases |us|
  {
    if us != [] {
      var n := |us| - 1;
      AfterUpdates(fs, us[..n], name, allowed);
      UpdatedEffect(UpdatedAll(fs.durable, us[..n]), us[n], name);
    }
  }

  lemma {:induction false} SurvivingFrom(us: seq<Update>, survives: nat -> bool)
    ensures forall i :: 0 <= i < |Surviving(us, survives)| ==> Surviving(us, survives)[i] in us
    decreases |us|
  {
    if us != [] {
      SurvivingFrom(us[..|us| - 1], survives);
    }
  }

  lemma SafeView(fs: FS, name: string, allowed: Contents)
    requires Safe(fs, name, allowed)
    ensures View(fs, name) in allowed && Good(fs, Find(Current(fs), name), allowed)
  {
    AfterUpdates(fs, fs.pending, name, allowed);
  }

  /** A crash leaves an allowed content, all of it on disk: from then on only that one is possible. */
  lemma SafeCrash(fs: FS, name: string, allowed: Contents, survives: nat -> bool, junk: nat -> string)
    requires Safe(fs, name, allowed)
    ensures var fs' := Crash(fs, survives, junk);
            View(fs', name) in allowed && Safe(fs', name, {View(fs', name)})
  {
    var us := Surviving(fs.pending, survives);
    SurvivingFrom(fs.pending, survives);
    forall i | 0 <= i < |us| && Effect(us[i], name).Some?
      ensures Good(fs, Effect(us[i], name).value, allowed)
    {
      var j :| 0 <= j < |fs.pending| && fs.pending[j] == us[i];
    }
    AfterUpdates(fs, us, name, allowed);
  }

  /** The inode is not what the name is, or may turn out to be. */
  ghost predicate Avoids(fs: FS, name: string, ino: nat) {
    && Find(fs.durable, name) != Some(File(ino))
    && (forall i :: 0 <= i < |fs.pending| ==> Effect(fs.pending[i], name) != Some(Some(File(ino))))
  }

  lemma CreateSafe(fs: FS, tmp: string, name: string, allowed: Contents)
    requires Sane(fs) && Safe(fs, name, allowed) && name != tmp
    ensures var fs' := Create(fs, tmp); Sane(fs') && Safe(fs', name, allowed) && Avoids(fs', name, fs.next) && fs.next in fs'.inodes
  {
    var fs' := Create(fs, tmp);
    assert Good(fs, Find(fs.durable, name), allowed);
    forall i | 0 <= i < |fs'.pending| && Effect(fs'.pending[i], name).Some?
      ensures Good(fs', Effect(fs'.pending[i], name).value, allowed) && Effect(fs'.pending[i], name) != Some(Some(File(fs.next)))
    {
      assert fs'.pending[i] == fs.pending[i];
      assert Good(fs, Effect(fs.pending[i], name).value, allowed);
    }
  }

  lemma DataSafe(fs: FS, ino: nat, n: Inode, name: string, allowed: Contents)
    requires Sane(fs) && Safe(fs, name, allowed) && Avoids(fs, name, ino) && ino in fs.inodes
    ensures var fs' := fs.(inodes := fs.inodes[ino := n]); Sane(fs') && Safe(fs', name, allowed) && Avoids(fs', name, ino)
  {
    var fs' := fs.(inodes := fs.inodes[ino := n]);
    assert Good(fs, Find(fs.durable, name), allowed);
    forall i | 0 <= i < |fs.pending| && Effect(fs.pending[i], name).Some?
      ensures Good(fs', Effect(fs.pending[i], name).value, allowed)
    {
      assert Good(fs, Effect(fs.pending[i], name).value, allowed);
    }
  }

  lemma WriteSafe(fs: FS, ino: nat, data: string, name: string, allowed: Contents)
    requires Sane(fs) && Safe(fs, name, allowed) && Avoids(fs, name, ino) && ino in fs.inodes
    ensures var fs' := Write(fs, ino, data);
            Sane(fs') && Safe(fs', name, allowed) && Avoids(fs', name, ino) && ino in fs'.inodes && fs'.inodes[ino].data == data
  {
    hide Safe, Sane, Avoids;
    DataSafe(fs, ino, Inode(data, false), name, allowed);
  }

  lemma SyncFileSafe(fs: FS, ino: nat, name: string, allowed: Contents)
    requires Sane(fs) && Safe(fs, name, allowed) && Avoids(fs, name, ino) && ino in fs.inodes
    ensures var fs' := SyncFile(fs, ino);
            Sane(fs') && Safe(fs', name, allowed) && ino in fs'.inodes && fs'.inodes[ino] == Inode(fs.inodes[ino].data, true)
  {
    hide Safe, Sane, Avoids;
    DataSafe(fs, ino, Inode(fs.inodes[ino].data, true), name, allowed);
  }

  lemma DiscardSafe(fs: FS, tmp: string, luck: Luck, name: string, allowed: Contents)
    requires Sane(fs) && Safe(fs, name, allowed) && name != tmp
    ensures var fs' := Discard(fs, tmp, luck); Sane(fs') && Safe(fs', name, allowed)
  {
    hide Safe, Sane;
    NoteSafe(fs, Unlink(tmp), name, allowed, allowed);
  }

  lemma RenameSafe(fs: FS, tmp: string, path: string, ino: nat, data: string, name: string, allowed: Contents)
    requires Sane(fs) && Safe(fs, name, allowed) && name != tmp && ino in fs.inodes && fs.inodes[ino] == Inode(data, true)
    ensures var fs' := Note(fs, Rename(tmp, path, File(ino)));
            Sane(fs') && Safe(fs', name, During(allowed, name, path, data))
  {
    hide Safe, Sane;
    NoteSafe(fs, Rename(tmp, path, File(ino)), name, allowed, During(allowed, name, path, data));
  }

  lemma NoteSafe(fs: FS, u: Update, name: string, allowed: Contents, more: Contents)
    requires Sane(fs) && Safe(fs, name, allowed) && allowed <= more
    requires Effect(u, name).Some? ==> Good(fs, Effect(u, name).value, more)
    ensures Sane(Note(fs, u)) && Safe(Note(fs, u), name, more)
  {
    var fs' := Note(fs, u);
    assert Good(fs, Find(fs.durable, name), allowed);
    forall i | 0 <= i < |fs'.pending| && Effect(fs'.pending[i], name).Some?
      ensures Good(fs', Effect(fs'.pending[i], name).value, more)
    {
      if i < |fs.pending| {
        assert Good(fs, Effect(fs.pending[i], name).value, allowed);
      }
    }
  }

  lemma SyncDirSafe(fs: FS, name: string, allowed: Contents)
    requires Sane(fs) && Safe(fs, name, allowed)
    ensures Sane(SyncDir(fs)) && Safe(SyncDir(fs), name, allowed) && View(SyncDir(fs), name) == View(fs, name)
  {
    AfterUpdates(fs, fs.pending, name, allowed);
  }

  lemma RenamedView(fs: FS, tmp: string, path: string, ino: nat, allowed: Contents)
    requires Sane(fs) && Safe(fs, path, allowed) && ino in fs.inodes && fs.inodes[ino].synced
    ensures var fs' := Note(fs, Rename(tmp, path, File(ino)));
            && View(fs', path) == Some(fs.inodes[ino].data)
            && Safe(SyncDir(fs'), path, {Some(fs.inodes[ino].data)})
  {
    var u := Rename(tmp, path, File(ino));
    var fs' := Note(fs, u);
    assert fs'.pending[..|fs'.pending| - 1] == fs.pending;
    UpdatedEffect(Current(fs), u, path);
  }

  /** The contents allowed for a name while a write of data to path is under way. */
  ghost function During(allowed: Contents, name: string, path: string, data: string): Contents {
    if name == path then allowed + {Some(data)} else allowed
  }

  /** A crash at any point of a write finds every name with an allowed content: the target old or completely
      new, every other file but the temporary one untouched. */
  lemma EveryStateIsSafe(fs: FS, path: string, data: string, luck: Luck, name: string, allowed: Contents, k: nat)
    requires Sane(fs) && Safe(fs, name, allowed) && name != TmpName(path, luck.rand)
    requires k < |States(fs, path, data, luck)|
    ensures var s := States(fs, path, data, luck)[k];
            Sane(s) && Safe(s, name, if Renames(fs, path, luck) && k >= 4 then During(allowed, name, path, data) else allowed)
  {
    hide Safe, Sane, Avoids, Create, Write, SyncFile, SyncDir, Note, TmpName, Creates, Discard, During;
    var tmp := TmpName(path, luck.rand);
    if Creates(fs, path, luck) {
      var created := Create(fs, tmp);
      CreateSafe(fs, tmp, name, allowed);
      var torn := Write(created, fs.next, luck.partial);
      WriteSafe(created, fs.next, luck.partial, name, allowed);
      DiscardSafe(torn, tmp, luck, name, allowed);
      var written := Write(created, fs.next, data);
      WriteSafe(created, fs.next, data, name, allowed);
      DiscardSafe(written, tmp, luck, name, allowed);
      var synced := SyncFile(written, fs.next);
      SyncFileSafe(written, fs.next, name, allowed);
      DiscardSafe(synced, tmp, luck, name, allowed);
      var renamed := Note(synced, Rename(tmp, path, File(fs.next)));
      RenameSafe(synced, tmp, path, fs.next, data, name, allowed);
      SyncDirSafe(renamed, name, During(allowed, name, path, data));
    }
  }

  lemma NoteFind(fs: FS, u: Update, name: string)
    ensures Find(Current(Note(fs, u)), name) == if Effect(u, name).Some? then Effect(u, name).value else Find(Current(fs), name)
  {
    var fs' := Note(fs, u);
    assert fs'.pending[..|fs'.pending| - 1] == fs.pending;
    UpdatedEffect(Current(fs), u, name);
  }

  /** What a finished write leaves. Without an error the new content is there and is the only one any later
      crash can leave. With an error before the rename nothing has changed for the target. With one after it,
      the new content is there, and a crash leaves the old or the new one. */
  lemma WriteOutcome(fs: FS, path: string, data: string, luck: Luck, allowed: Contents)
    requires Sane(fs) && Safe(fs, path, allowed)
    ensures var states := States(fs, path, data, luck);
            var last := states[|states| - 1];
            && Sane(last)
            && View(last, path) == (if Renames(fs, path, luck) then Some(data) else View(fs, path))
            && Safe(last, path, if Succeeds(fs, path, luck) then {Some(data)}
                                else if Renames(fs, path, luck) then allowed + {Some(data)} else allowed)
  {
    assert |TmpName(path, luck.rand)| > |path|;
    hide Sane, Safe, View, TmpName, States;
    var states := States(fs, path, data, luck);
    EveryStateIsSafe(fs, path, data, luck, path, allowed, |states| - 1);
    if Renames(fs, path, luck) {
      RenamingOutcome(fs, path, data, luck, allowed);
    } else {
      OtherOutcome(fs, path, data, luck, allowed);
    }
  }

  lemma OtherOutcome(fs: FS, path: string, data: string, luck: Luck, allowed: Contents)
    requires Sane(fs) && Safe(fs, path, allowed) && !Renames(fs, path, luck)
    ensures var states := States(fs, path, data, luck); View(states[|states| - 1], path) == View(fs, path)
  {
    var tmp := TmpName(path, luck.rand);
    assert |tmp| > |path|;
    hide TmpName;
    var states := States(fs, path, data, luck);
    SafeView(fs, path, allowed);
    if Creates(fs, path, luck) {
      var created := Create(fs, tmp);
      NoteFind(fs, Link(tmp, File(fs.next)), path);
      assert Find(Current(created), path) == Find(Current(fs), path);
      KeepsView(fs, created, path, states[|states| - 1], tmp, allowed);
    }
  }

  lemma RenamingOutcome(fs: FS, path: string, data: string, luck: Luck, allowed: Contents)
    requires Sane(fs) && Safe(fs, path, allowed) && Renames(fs, path, luck)
    ensures var states := States(fs, path, data, luck);
            var last := states[|states| - 1];
            && View(last, path) == Some(data)
            && Safe(last, path, if luck.syncDirOk then {Some(data)} else allowed + {Some(data)})
  {
    var tmp := TmpName(path, luck.rand);
    assert |tmp| > |path|;
    var created := Create(fs, tmp);
    CreateSafe(fs, tmp, path, allowed);
    var written := Write(created, fs.next, data);
    WriteSafe(created, fs.next, data, path, allowed);
    var synced := SyncFile(written, fs.next);
    SyncFileSafe(written, fs.next, path, allowed);
    var renamed := Note(synced, Rename(tmp, path, File(fs.next)));
    var states := States(fs, path, data, luck);
    assert states[|states| - 1] == if luck.syncDirOk then SyncDir(renamed) else renamed;
    hide States, Safe, Creates, TmpName;
    RenamedView(synced, tmp, path, fs.next, allowed);
    NoteSafe(synced, Rename(tmp, path, File(fs.next)), path, allowed, allowed + {Some(data)});
  }

  /** A state that differs from the one after the create in its new inode, and perhaps by the removal of its name. */
  lemma KeepsView(fs: FS, created: FS, path: string, last: FS, tmp: string, allowed: Contents)
    requires Sane(fs) && Good(fs, Find(Current(fs), path), allowed) && created == Create(fs, tmp) && path != tmp
    requires Find(Current(created), path) == Find(Current(fs), path)
    requires forall i :: i in fs.inodes ==> i in last.inodes && last.inodes[i] == fs.inodes[i]
    requires last.durable == created.durable && (last.pending == created.pending || last.pending == created.pending + [Unlink(tmp)])
    ensures View(last, path) == View(fs, path)
  {
    NoteFind(created, Unlink(tmp), path);
    assert Current(last) == Current(created) || Current(last) == Current(Note(created, Unlink(tmp)));
  }

  /** Crash atomicity: a crash at any point of a write leaves exactly the old or exactly the new content. */
  lemma CrashLeavesOldOrNew(fs: FS, path: string, data: string, luck: Luck, before: Option<string>, k: nat, survives: nat -> bool, junk: nat -> string)
    requires Sane(fs) && Safe(fs, path, {before}) && k < |States(fs, path, data, luck)|
    ensures View(fs, path) == before
    ensures View(Crash(States(fs, path, data, luck)[k], survives, junk), path) in {before, Some(data)}
  {
    assert |TmpName(path, luck.rand)| > |path|;
    SafeView(fs, path, {before});
    EveryStateIsSafe(fs, path, data, luck, path, {before}, k);
    var s := States(fs, path, data, luck)[k];
    hide States, Safe, Crash, TmpName;
    if Renames(fs, path, luck) && k >= 4 {
      SafeCrash(s, path, {before} + {Some(data)}, survives, junk);
    } else {
      SafeCrash(s, path, {before}, survives, junk);
    }
  }

  // ---------- the sweep ----------

  predicate IsTmp(name: string) {
    |name| >= 4 && name[|name| - 4..] == ".tmp"
  }

  lemma TmpNamesAreTmp(path: string, rand: string)
    ensures IsTmp(TmpName(path, rand)) && TmpName(path, rand) != path
  {
    assert TmpName(path, rand) == (path + "." + rand) + ".tmp";
  }

  /** The loop of SweepOrphanTmp over the names listed at its start. */
  function Sweep(fs: FS, listing: Entries, names: seq<string>, removeOk: string -> bool): FS
    decreases |names|
  {
    if names == [] then fs
    else
      var n := names[0];
      var swept := n in listing && listing[n].File? && IsTmp(n) && removeOk(n);
      Sweep(if swept then Note(fs, Unlink(n)) else fs, listing, names[1..], removeOk)
  }

  lemma {:induction false} SweepFind(fs: FS, listing: Entries, names: seq<string>, removeOk: string -> bool, name: string)
    ensures Find(Current(Sweep(fs, listing, names, removeOk)), name) ==
            if name in names && name in listing && listing[name].File? && IsTmp(name) && removeOk(name) then None
            else Find(Current(fs), name)
    decreases |names|
  {
    if names != [] {
      var n := names[0];
      var swept := n in listing && listing[n].File? && IsTmp(n) && removeOk(n);
      NoteFind(fs, Unlink(n), name);
      SweepFind(if swept then Note(fs, Unlink(n)) else fs, listing, names[1..], removeOk, name);
      assert names == [n] + names[1..];
    }
  }

  /** A sweep whose removals work removes every leftover temporary file and nothing else. */
  lemma SweepExact(fs: FS, names: seq<string>)
    requires forall n :: n in Current(fs) <==> n in names
    ensures Current(Sweep(fs, Current(fs), names, _ => true)) ==
            map n | n in Current(fs) && !(Current(fs)[n].File? && IsTmp(n)) :: Current(fs)[n]
  {
    var after := Current(Sweep(fs, Current(fs), names, _ => true));
    forall n
      ensures Find(after, n) == if n in Current(fs) && Current(fs)[n].File? && IsTmp(n) then None else Find(Current(fs), n)
    {
      SweepFind(fs, Current(fs), names, _ => true, n);
    }
    forall n
      ensures n in after <==> n in Current(fs) && !(Current(fs)[n].File? && IsTmp(n))
      ensures n in after ==> after[n] == Current(fs)[n]
    {
      assert Find(after, n).Some? <==> n in after;
    }
  }

  lemma {:induction false} SweepSafe(fs: FS, listing: Entries, names: seq<string>, removeOk: string -> bool, name: string, allowed: Contents)
    requires Sane(fs) && Safe(fs, name, allowed) && !IsTmp(name)
    ensures var fs' := Sweep(fs, listing, names, removeOk); Sane(fs') && Safe(fs', name, allowed)
    decreases |names|
  {
    hide Safe;
    if names != [] {
      var n := names[0];
      var swept := n in listing && listing[n].File? && IsTmp(n) && removeOk(n);
      if swept {
        NoteSafe(fs, Unlink(n), name, allowed, allowed);
        SweepSafe(Note(fs, Unlink(n)), listing, names[1..], removeOk, name, allowed);
      } else {
        SweepSafe(fs, listing, names[1..], removeOk, name, allowed);
      }
    }
  }

  // ---------- every run ----------

  /** What happens to the directory: a write that ends, one that a crash cuts short after state k, a crash
      between writes, a sweep. */
  datatype Event =
    | Wrote(path: string, data: string, luck: Luck)
    | Died(path: string, data: string, luck: Luck, k: nat, survives: nat -> bool, junk: nat -> string)
    | Crashed(survives: nat -> bool, junk: nat -> string)
    | Swept(names: seq<string>, removeOk: string -> bool)

  function Last(states: seq<FS>, k: nat): FS
    requires states != []
  {
    if k < |states| then states[k] else states[|states| - 1]
  }

  function Next(fs: FS, e: Event): FS {
    match e
    case Wrote(path, data, luck) => var states := States(fs, path, data, luck); states[|states| - 1]
    case Died(path, data, luck, k, survives, junk) => Crash(Last(States(fs, path, data, luck), k), survives, junk)
    case Crashed(survives, junk) => Crash(fs, survives, junk)
    case Swept(names, removeOk) => Sweep(fs, Current(fs), names, removeOk)
  }

  /** The contents a reader may find after an event, given those it may have found before. */
  ghost function Allowed(fs: FS, e: Event, name: string, allowed: Contents): Contents {
    match e
    case Wrote(path, data, luck) =>
      if path != name || !Renames(fs, path, luck) then allowed
      else if luck.syncDirOk then {Some(data)}
      else allowed + {Some(data)}
    case Died(path, data, luck, k, _, _) =>
      if path == name && Renames(fs, path, luck) && k >= 4 then allowed + {Some(data)} else allowed
    case _ => allowed
  }

  function Run(fs: FS, events: seq<Event>): FS
    decreases |events|
  {
    if events == [] then fs else Run(Next(fs, events[0]), events[1..])
  }

  ghost function AllowedAfter(fs: FS, events: seq<Event>, name: string, allowed: Contents): Contents
    decreases |events|
  {
    if events == [] then allowed
    else AllowedAfter(Next(fs, events[0]), events[1..], name, Allowed(fs, events[0], name, allowed))
  }

  lemma SafeMore(fs: FS, name: string, allowed: Contents, more: Contents)
    requires Safe(fs, name, allowed) && allowed <= more
    ensures Safe(fs, name, more)
  {
    assert Good(fs, Find(fs.durable, name), allowed);
    forall i | 0 <= i < |fs.pending| && Effect(fs.pending[i], name).Some?
      ensures Good(fs, Effect(fs.pending[i], name).value, more)
    {
      assert Good(fs, Effect(fs.pending[i], name).value, allowed);
    }
  }

  lemma CrashKeeps(fs: FS, name: string, allowed: Contents, survives: nat -> bool, junk: nat -> string)
    requires Sane(fs) && Safe(fs, name, allowed)
    ensures var fs' := Crash(fs, survives, junk); Sane(fs') && Safe(fs', name, allowed)
  {
    SafeCrash(fs, name, allowed, survives, junk);
    var fs' := Crash(fs, survives, junk);
    SafeMore(fs', name, {View(fs', name)}, allowed);
  }

  lemma NextSafe(fs: FS, e: Event, name: string, allowed: Contents)
    requires Sane(fs) && Safe(fs, name, allowed) && !IsTmp(name)
    ensures Sane(Next(fs, e)) && Safe(Next(fs, e), name, Allowed(fs, e, name, allowed))
  {
    hide Safe, Sane, Crash, States, Renames;
    match e
    case Wrote(path, data, luck) =>
      TmpNamesAreTmp(path, luck.rand);
      if path == name {
        WriteOutcome(fs, path, data, luck, allowed);
      } else {
        EveryStateIsSafe(fs, path, data, luck, name, allowed, |States(fs, path, data, luck)| - 1);
      }
    case Died(path, data, luck, k, survives, junk) =>
      TmpNamesAreTmp(path, luck.rand);
      var states := States(fs, path, data, luck);
      var i := if k < |states| then k else |states| - 1;
      EveryStateIsSafe(fs, path, data, luck, name, allowed, i);
      CrashKeeps(states[i], name, if Renames(fs, path, luck) && i >= 4 then During(allowed, name, path, data) else allowed, survives, junk);
    case Crashed(survives, junk) =>
      CrashKeeps(fs, name, allowed, survives, junk);
    case Swept(names, removeOk) =>
      SweepSafe(fs, Current(fs), names, removeOk, name, allowed);
  }

  /** Over every run of writes, crashes at any point and sweeps, a file has one of the contents its writes allow:
      that of the last write that reported no error, or of a later one that was cut short or failed after
      its rename; never a torn one. */
  lemma {:induction false} RunIsSafe(fs: FS, events: seq<Event>, name: string, allowed: Contents)
    requires Sane(fs) && Safe(fs, name, allowed) && !IsTmp(name)
    ensures var fs' := Run(fs, events);
            && Sane(fs') && Safe(fs', name, AllowedAfter(fs, events, name, allowed))
            && View(fs', name) in AllowedAfter(fs, events, name, allowed)
    decreases |events|
  {
    hide Safe, Sane, Next, Allowed;
    if events == [] {
      SafeView(fs, name, allowed);
    } else {
      NextSafe(fs, events[0], name, allowed);
      RunIsSafe(Next(fs, events[0]), events[1..], name, Allowed(fs, events[0], name, allowed));
    }
  }

  /** After a write that reported no error its content survives every later crash and sweep and every write
      to another file. */
  lemma {:induction false} WrittenIsDurable(fs: FS, events: seq<Event>, path: string, data: string, luck: Luck, allowed: Contents)
    requires Sane(fs) && Safe(fs, path, allowed) && !IsTmp(path) && Succeeds(fs, path, luck)
    requires forall i :: 0 <= i < |events| ==> events[i].Crashed? || events[i].Swept? || events[i].path != path
    ensures View(Run(Next(fs, Wrote(path, data, luck)), events), path) == Some(data)
  {
    NextSafe(fs, Wrote(path, data, luck), path, allowed);
    var fs1 := Next(fs, Wrote(path, data, luck));
    RunIsSafe(fs1, events, path, {Some(data)});
    OtherEventsAllowNothing(fs1, events, path, {Some(data)});
  }

  lemma {:induction false} OtherEventsAllowNothing(fs: FS, events: seq<Event>, path: string, allowed: Contents)
    requires forall i :: 0 <= i < |events| ==> events[i].Crashed? || events[i].Swept? || events[i].path != path
    ensures AllowedAfter(fs, events, path, allowed) == allowed
    decreases |events|
  {
    if events != [] {
      OtherEventsAllowNothing(Next(fs, events[0]), events[1..], path, allowed);
    }
  }
}
