/** AtomicWriteFile: a file replaced by way of a temporary file, one system call at a time. */
module AtomicFile {
  import opened ByteOrder

  /** Unsynced contents need not survive a crash. */
  datatype File = File(data: Text, synced: bool)

  type Disk = map<Text, File>

  /** Which system calls of one write fail; a failing Write may have written a part. */
  datatype Faults = Faults(
    create: bool,
    write: bool,
    written: nat,
    chmod: bool,
    sync: bool,
    close: bool,
    rename: bool,
    remove: bool)

  predicate Succeeds(f: Faults) {
    !f.create && !f.write && !f.chmod && !f.sync && !f.close && !f.rename
  }

  function Prefix(data: Text, n: nat): Text {
    if n <= |data| then data[..n] else data
  }

  /** The deferred cleanup: close (which changes nothing on disk) and remove. */
  function CleanupSteps(d: Disk, tmp: Text, f: Faults): seq<Disk> {
    [d, if f.remove then d else d - {tmp}]
  }

  predicate Fills(f: Faults) {
    !f.write && !f.chmod && !f.sync && !f.close
  }

  /** The states after Write, Chmod, Sync and Close of the temporary file, up to the first that fails. */
  function FillSteps(d: Disk, tmp: Text, data: Text, f: Faults): (steps: seq<Disk>)
    ensures steps != []
  {
    var full, synced := d[tmp := File(data, false)], d[tmp := File(data, true)];
    if f.write then [d[tmp := File(Prefix(data, f.written), false)]]
    else if f.chmod then [full, full]
    else if f.sync then [full, full, full]
    else [full, full, synced, synced]
  }

  function Last<T>(s: seq<T>): T
    requires s != []
  {
    s[|s| - 1]
  }

  /** s is d, but for the contents of the temporary file. */
  predicate OnlyTemp(d: Disk, tmp: Text, s: Disk) {
    s == d || (tmp in s && s == d[tmp := s[tmp]])
  }

  lemma FillTouchesOnlyTemp(d: Disk, tmp: Text, data: Text, f: Faults)
    ensures forall i | 0 <= i < |FillSteps(d, tmp, data, f)| :: OnlyTemp(d, tmp, FillSteps(d, tmp, data, f)[i])
    ensures Fills(f) ==> Last(FillSteps(d, tmp, data, f)) == d[tmp := File(data, true)]
    ensures tmp in Last(FillSteps(d, tmp, data, f))
  {
  }

  /** The disk after each system call. */
  function CallSteps(d: Disk, name: Text, tmp: Text, data: Text, f: Faults): seq<Disk> {
    if f.create then
      []
    else
      var filled := [d[tmp := File([], false)]] + FillSteps(d, tmp, data, f);
      FillTouchesOnlyTemp(d, tmp, data, f);
      var full := Last(filled);
      if !Fills(f) then filled + CleanupSteps(full, tmp, f)
      else if f.rename then filled + ([full] + CleanupSteps(full, tmp, f))
      else filled + [(full - {tmp})[name := full[tmp]]]
  }

  /** The disk before the call and after each of its system calls. */
  function WriteSteps(d: Disk, name: Text, tmp: Text, data: Text, f: Faults): (steps: seq<Disk>)
    ensures steps != [] && steps[0] == d
  {
    [d] + CallSteps(d, name, tmp, data, f)
  }

  function AfterWrite(d: Disk, name: Text, tmp: Text, data: Text, f: Faults): Disk {
    Last(WriteSteps(d, name, tmp, data, f))
  }

  /** d' agrees with d about a name, presence and contents. */
  predicate SameAt(d: Disk, d': Disk, name: Text) {
    if name in d then name in d' && d'[name] == d[name] else name !in d'
  }

  /** The name the operating system chose for the temporary file. */
  predicate FreshName(d: Disk, name: Text, tmp: Text) {
    tmp !in d && tmp != name
  }

  lemma RemovedTemp(d: Disk, tmp: Text, s: Disk)
    requires tmp !in d && OnlyTemp(d, tmp, s)
    ensures s - {tmp} == d
  {
  }

  lemma StepShapes(d: Disk, name: Text, tmp: Text, data: Text, f: Faults)
    requires FreshName(d, name, tmp)
    ensures forall s <- WriteSteps(d, name, tmp, data, f) :: OnlyTemp(d, tmp, s) || s == d[name := File(data, true)]
    ensures Succeeds(f) ==> AfterWrite(d, name, tmp, data, f) == d[name := File(data, true)]
    ensures !Succeeds(f) ==> OnlyTemp(d, tmp, AfterWrite(d, name, tmp, data, f))
    ensures !Succeeds(f) && !f.remove ==> AfterWrite(d, name, tmp, data, f) == d
  {
    var fill := FillSteps(d, tmp, data, f);
    FillTouchesOnlyTemp(d, tmp, data, f);
    hide FillSteps;
    RemovedTemp(d, tmp, Last(fill));
    assert forall s <- fill :: OnlyTemp(d, tmp, s);
    assert OnlyTemp(d, tmp, d[tmp := File([], false)]);
  }

  /** None of the system calls that a write makes fails: how much a failing Write would have written, and whether
      the cleanup would fail, is then beside the point. */
  ghost predicate NothingFails(f: Faults) {
    f.(written := 0, remove := false) == Faults(false, false, 0, false, false, false, false, false)
  }

  lemma SucceedsIff(f: Faults)
    ensures Succeeds(f) <==> NothingFails(f)
  {
  }

  lemma ShapeMeans(d: Disk, name: Text, tmp: Text, data: Text, s: Disk)
    requires FreshName(d, name, tmp)
    requires OnlyTemp(d, tmp, s) || s == d[name := File(data, true)]
    ensures SameAt(d, s, name) || (name in s && s[name] == File(data, true))
    ensures forall other | other != name && other != tmp :: SameAt(d, s, other)
  {
  }

  /** Between any two system calls the target is either as it was, or complete and synced; no other name
      but the temporary one is ever touched. The write takes effect exactly if no system call fails, and
      then, or if the cleanup works, the temporary file is gone. */
  lemma AtomicAtEveryStep(d: Disk, name: Text, tmp: Text, data: Text, f: Faults)
    requires FreshName(d, name, tmp)
    ensures forall s <- WriteSteps(d, name, tmp, data, f) ::
              && (SameAt(d, s, name) || (name in s && s[name] == File(data, true)))
              && forall other | other != name && other != tmp :: SameAt(d, s, other)
    ensures Succeeds(f) <==> NothingFails(f)
    ensures NothingFails(f) ==> AfterWrite(d, name, tmp, data, f) == d[name := File(data, true)]
    ensures !NothingFails(f) ==> SameAt(d, AfterWrite(d, name, tmp, data, f), name)
    ensures !Succeeds(f) && !f.remove ==> AfterWrite(d, name, tmp, data, f) == d
  {
    hide WriteSteps, CallSteps, FillSteps, Succeeds, NothingFails;
    SucceedsIff(f);
    StepShapes(d, name, tmp, data, f);
    forall s <- WriteSteps(d, name, tmp, data, f)
      ensures SameAt(d, s, name) || (name in s && s[name] == File(data, true))
      ensures forall other | other != name && other != tmp :: SameAt(d, s, other)
    {
      ShapeMeans(d, name, tmp, data, s);
    }
    if !Succeeds(f) {
      assert OnlyTemp(d, tmp, AfterWrite(d, name, tmp, data, f));
    }
  }

  /** After a crash synced files are intact; the others are still there, with arbitrary contents. */
  ghost predicate CrashOf(d: Disk, d': Disk) {
    && d'.Keys == d.Keys
    && forall name <- d :: if d[name].synced then d'[name] == d[name] else d'[name].synced
  }

  // ---- the system calls -----------------------------------------------------------------------

  class FileSystem {
    var files: Disk
    /** Every state of the disk so far: a crash may strike at any of them. */
    ghost var history: seq<Disk>

    constructor (files: Disk)
      ensures this.files == files && history == [files]
    {
      this.files, history := files, [files];
    }

    method Record(ghost d: Disk)
      requires d == files
      modifies this`history
      ensures history == old(history) + [d]
    {
      history := history + [d];
    }

    method CreateTemp(tmp: Text)
      modifies this
      ensures files == old(files)[tmp := File([], false)] && history == old(history) + [files]
    {
      files := files[tmp := File([], false)];
      Record(files);
    }

    method Write(tmp: Text, data: Text)
      requires tmp in files
      modifies this
      ensures files == old(files)[tmp := File(data, false)] && history == old(history) + [files]
    {
      files := files[tmp := File(data, false)];
      Record(files);
    }

    method Sync(tmp: Text)
      requires tmp in files
      modifies this
      ensures files == old(files)[tmp := File(old(files)[tmp].data, true)] && history == old(history) + [files]
    {
      files := files[tmp := File(files[tmp].data, true)];
      Record(files);
    }

    method Rename(tmp: Text, name: Text)
      requires tmp in files
      modifies this
      ensures files == (old(files) - {tmp})[name := old(files)[tmp]] && history == old(history) + [files]
    {
      files := (files - {tmp})[name := files[tmp]];
      Record(files);
    }

    /** The deferred function: close, then remove. */
    method CleanUp(tmp: Text, f: Faults)
      modifies this
      ensures history == old(history) + CleanupSteps(old(files), tmp, f)
      ensures files == if f.remove then old(files) else old(files) - {tmp}
    {
      Record(files);
      if !f.remove {
        files := files - {tmp};
      }
      Record(files);
    }

    /** Write, Chmod, Sync and Close of the temporary file. */
    method Fill(ghost d: Disk, tmp: Text, data: Text, f: Faults) returns (ok: bool)
      requires files == d[tmp := File([], false)]
      modifies this
      ensures ok == Fills(f)
      ensures files == Last(FillSteps(d, tmp, data, f))
      ensures history == old(history) + FillSteps(d, tmp, data, f)
    {
      if f.write {
        Write(tmp, Prefix(data, f.written));
        return false;
      }
      Write(tmp, data);
      assert files == d[tmp := File(data, false)];
      Record(files);
      if f.chmod {
        return false;
      }
      if f.sync {
        Record(files);
        return false;
      }
      Sync(tmp);
      assert files == d[tmp := File(data, true)];
      Record(files);
      ok := !f.close;
    }

    method AtomicWriteFile(name: Text, data: Text, tmp: Text, f: Faults) returns (ok: bool)
      requires FreshName(files, name, tmp)
      modifies this
      ensures ok == Succeeds(f)
      ensures files == AfterWrite(old(files), name, tmp, data, f)
      ensures history == old(history) + CallSteps(old(files), name, tmp, data, f)
    {
      if f.create {
        return false;
      }
      ghost var d, h := files, history;
      ghost var fill := FillSteps(d, tmp, data, f);
      FillTouchesOnlyTemp(d, tmp, data, f);
      CreateTemp(tmp);
      ok := Fill(d, tmp, data, f);
      hide FillSteps;
      ghost var filled := [d[tmp := File([], false)]] + fill;
      assert history == h + filled && files == Last(filled);
      if ok {
        if f.rename {
          Record(files);
          CleanUp(tmp, f);
          assert history == h + (filled + ([Last(filled)] + CleanupSteps(Last(filled), tmp, f)));
          return false;
        }
        Rename(tmp, name);
        assert history == h + (filled + [files]);
        return true;
      }
      CleanUp(tmp, f);
      assert history == h + (filled + CleanupSteps(Last(filled), tmp, f));
    }
  }
}
