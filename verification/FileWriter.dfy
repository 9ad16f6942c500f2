/** WriteFileWith and SweepOrphanTmp as they run, one system call after the other. */
module FileWriter {
  import opened Text
  import opened AtomicFile

  class Directory {
    var fs: FS

    constructor (f: FS)
      ensures fs == f
    {
      fs := f;
    }

    /** WriteFileWith; `states` is every state the directory went through. */
    method WriteFileWith(path: string, data: string, luck: Luck) returns (ok: bool, states: seq<FS>)
      modifies this
      ensures ok == Succeeds(old(fs), path, luck)
      ensures states == States(old(fs), path, data, luck) && fs == states[|states| - 1]
    {
      states := [fs];
      var tmp := TmpName(path, luck.rand);
      if !luck.createOk || tmp in Current(fs) {
        return false, states;
      }
      var ino := fs.next;
      fs := Create(fs, tmp);
      states := states + [fs];
      if !luck.writeOk {
        fs := Write(fs, ino, luck.partial);
        states := states + [fs];
        Remove(tmp, luck);
        return false, states + [fs];
      }
      fs := Write(fs, ino, data);
      states := states + [fs];
      if !luck.chmodOk {
        Remove(tmp, luck);
        return false, states + [fs];
      }
      if !luck.syncOk {
        Remove(tmp, luck);
        return false, states + [fs];
      }
      fs := SyncFile(fs, ino);
      states := states + [fs];
      if !luck.closeOk {
        Remove(tmp, luck);
        return false, states + [fs];
      }
      if !luck.renameOk {
        Remove(tmp, luck);
        return false, states + [fs];
      }
      fs := Note(fs, Rename(tmp, path, File(ino)));
      states := states + [fs];
      if !luck.syncDirOk {
        return false, states;
      }
      fs := SyncDir(fs);
      return true, states + [fs];
    }

    method Remove(tmp: string, luck: Luck)
      modifies this
      ensures fs == Discard(old(fs), tmp, luck)
    {
      if luck.removeOk {
        fs := Note(fs, Unlink(tmp));
      }
    }

    /** SweepOrphanTmp over the names a listing gave. */
    method SweepOrphanTmp(names: seq<string>, removeOk: string -> bool)
      modifies this
      ensures fs == Sweep(old(fs), Current(old(fs)), names, removeOk)
    {
      var listing := Current(fs);
      assert names[0..] == names;
      for i := 0 to |names|
        invariant Sweep(old(fs), listing, names, removeOk) == Sweep(fs, listing, names[i..], removeOk)
      {
        var name := names[i];
        assert names[i..][0] == name && names[i..][1..] == names[i + 1..];
        if name !in listing || listing[name].Dir? {
          continue;
        }
        if IsTmp(name) {
          if removeOk(name) {
            fs := Note(fs, Unlink(name));
          }
        }
      }
    }
  }
}
