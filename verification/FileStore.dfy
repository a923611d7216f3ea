/** The state store: a cache of byte strings written through to one file. */
module FileStore {
  import opened Prelude
  import opened ByteOrder
  import opened AtomicFile

  type Cache = map<Text, Text>

  /** JSON as an abstract codec. */
  datatype Codec = Codec(enc: Cache -> Text, dec: Text -> Option<Cache>)

  /** "{}" */
  const EMPTY_OBJECT: Text := [123, 125]

  ghost predicate Lawful(c: Codec) {
    && (forall m: Cache :: c.dec(c.enc(m)) == Some(m))
    && c.dec(EMPTY_OBJECT) == Some(map[])
  }

  /** A missing key reads as empty bytes when contents are compared. */
  function Cached(cache: Cache, id: Text): Text {
    if id in cache then cache[id] else []
  }

  /** The file is complete, synced and holds exactly the cache. */
  ghost predicate InStep(c: Codec, path: Text, disk: Disk, cache: Cache) {
    path in disk && disk[path].synced && c.dec(disk[path].data) == Some(cache)
  }

  /** One call of WriteState with what the operating system makes of it. */
  datatype WriteOp = WriteOp(id: Text, bytes: Text, tmp: Text, faults: Faults)

  datatype Store = Store(cache: Cache, disk: Disk)

  predicate Skips(cache: Cache, op: WriteOp) {
    Cached(cache, op.id) == op.bytes
  }

  /** WriteState: contents that are already cached are not written again. */
  function AfterOp(c: Codec, path: Text, s: Store, op: WriteOp): Store {
    if Skips(s.cache, op) then
      s
    else
      var cache := s.cache[op.id := op.bytes];
      Store(cache, AfterWrite(s.disk, path, op.tmp, c.enc(cache), op.faults))
  }

  /** Whether WriteState returns without an error. */
  predicate OpSucceeds(s: Store, op: WriteOp) {
    Skips(s.cache, op) || Succeeds(op.faults)
  }

  predicate CanRun(path: Text, s: Store, op: WriteOp) {
    Skips(s.cache, op) || FreshName(s.disk, path, op.tmp)
  }

  /** After a call that reports success the file holds the cache exactly when something was written or
      it held the cache before: repeating a write that failed is skipped, and reports success all the same.
      After a failed call the file no longer holds the cache if it did. */
  lemma InStepAfterIff(c: Codec, path: Text, s: Store, op: WriteOp)
    requires Lawful(c) && CanRun(path, s, op)
    ensures OpSucceeds(s, op) ==>
              (var s' := AfterOp(c, path, s, op);
               InStep(c, path, s'.disk, s'.cache) <==> InStep(c, path, s.disk, s.cache) || !Skips(s.cache, op))
    ensures !OpSucceeds(s, op) && InStep(c, path, s.disk, s.cache) ==>
              (var s' := AfterOp(c, path, s, op);
               InStep(c, path, s'.disk, s.cache) && !InStep(c, path, s'.disk, s'.cache))
  {
    if !Skips(s.cache, op) {
      var cache := s.cache[op.id := op.bytes];
      AtomicAtEveryStep(s.disk, path, op.tmp, c.enc(cache), op.faults);
      assert cache != s.cache by {
        assert Cached(cache, op.id) != Cached(s.cache, op.id);
      }
      hide WriteSteps;
    }
  }

  /** After a failed write the same write again succeeds, whatever the file system would do, and leaves the
      file behind. */
  lemma RepeatedWriteIsSkipped(c: Codec, path: Text, s: Store, op: WriteOp)
    requires Lawful(c) && CanRun(path, s, op) && InStep(c, path, s.disk, s.cache) && !OpSucceeds(s, op)
    ensures var s' := AfterOp(c, path, s, op);
            forall again: WriteOp | again.id == op.id && again.bytes == op.bytes ::
              && OpSucceeds(s', again) && AfterOp(c, path, s', again) == s'
              && !InStep(c, path, s'.disk, s'.cache)
  {
    InStepAfterIff(c, path, s, op);
  }

  // ---- what is read back ---------------------------------------------------------------------------

  function Read(cache: Cache, id: Text): Option<Text> {
    if id in cache then Some(cache[id]) else None
  }

  /** One call told without its own branches: it succeeds exactly if a read would give the same bytes (a missing
      key counting as empty) or no system call fails. Afterwards those bytes are what is cached, whether it
      succeeds or not, and other keys are as before. The file is replaced by the encoding of the new cache
      exactly if the bytes are new and no system call fails. */
  lemma WriteOutcome(c: Codec, path: Text, s: Store, op: WriteOp)
    requires CanRun(path, s, op)
    ensures var same := Read(s.cache, op.id) == Some(op.bytes) || (Read(s.cache, op.id) == None && op.bytes == []);
            var s' := AfterOp(c, path, s, op);
            && (OpSucceeds(s, op) <==> same || NothingFails(op.faults))
            && (Read(s'.cache, op.id) == if same then Read(s.cache, op.id) else Some(op.bytes))
            && (forall id | id != op.id :: Read(s'.cache, id) == Read(s.cache, id))
            && (if !same && NothingFails(op.faults) then s'.disk == s.disk[path := File(c.enc(s'.cache), true)]
                else SameAt(s.disk, s'.disk, path))
  {
    if !Skips(s.cache, op) {
      AtomicAtEveryStep(s.disk, path, op.tmp, c.enc(s.cache[op.id := op.bytes]), op.faults);
    }
    SucceedsIff(op.faults);
    hide WriteSteps;
  }

  // ---- runs of writes ------------------------------------------------------------------------------

  /** The store after the first n calls. */
  function StoreAt(c: Codec, path: Text, s: Store, ops: seq<WriteOp>, n: nat): Store
    requires n <= |ops|
  {
    if n == 0 then s else AfterOp(c, path, StoreAt(c, path, s, ops, n - 1), ops[n - 1])
  }

  ghost predicate CanRunAll(c: Codec, path: Text, s: Store, ops: seq<WriteOp>) {
    forall i | 0 <= i < |ops| :: CanRun(path, StoreAt(c, path, s, ops, i), ops[i])
  }

  ghost predicate AllSucceed(c: Codec, path: Text, s: Store, ops: seq<WriteOp>) {
    forall i | 0 <= i < |ops| :: OpSucceeds(StoreAt(c, path, s, ops, i), ops[i])
  }

  lemma StoreAtStart(c: Codec, path: Text, s: Store, ops: seq<WriteOp>)
    ensures StoreAt(c, path, s, ops, 0) == s
  {
  }

  /** What the assumptions on a run say about its call n. */
  lemma CallOfRun(c: Codec, path: Text, s: Store, ops: seq<WriteOp>, n: nat)
    requires n < |ops| && CanRunAll(c, path, s, ops)
    ensures CanRun(path, StoreAt(c, path, s, ops, n), ops[n])
    ensures AllSucceed(c, path, s, ops) ==> OpSucceeds(StoreAt(c, path, s, ops, n), ops[n])
    ensures StoreAt(c, path, s, ops, n + 1) == AfterOp(c, path, StoreAt(c, path, s, ops, n), ops[n])
  {
    hide AfterOp, CanRun, OpSucceeds;
  }

  /** Without a failed write the file holds the cache after every call. */
  lemma {:induction false} CacheAgreesWithDisk(c: Codec, path: Text, s: Store, ops: seq<WriteOp>, n: nat)
    requires Lawful(c) && InStep(c, path, s.disk, s.cache)
    requires CanRunAll(c, path, s, ops) && AllSucceed(c, path, s, ops) && n <= |ops|
    ensures var s' := StoreAt(c, path, s, ops, n); InStep(c, path, s'.disk, s'.cache)
  {
    hide *;
    if n == 0 {
      StoreAtStart(c, path, s, ops);
    } else {
      CallOfRun(c, path, s, ops, n - 1);
      CacheAgreesWithDisk(c, path, s, ops, n - 1);
      InStepAfterIff(c, path, StoreAt(c, path, s, ops, n - 1), ops[n - 1]);
    }
  }

  /** What a read of this key gives after these calls: the bytes of the last call for it; but a key that is missing
      is not created by a write of nothing. */
  function Remembered(before: Option<Text>, ops: seq<WriteOp>, id: Text): Option<Text> {
    if ops == [] then
      before
    else
      var op, r := ops[|ops| - 1], Remembered(before, ops[..|ops| - 1], id);
      if op.id != id || (op.bytes == [] && r == None) then r else Some(op.bytes)
  }

  /** Over any run, with failed writes or not, a read gives what was last written. */
  lemma {:induction false} ReadsLastWritten(c: Codec, path: Text, s: Store, ops: seq<WriteOp>, n: nat, id: Text)
    requires CanRunAll(c, path, s, ops) && n <= |ops|
    ensures Read(StoreAt(c, path, s, ops, n).cache, id) == Remembered(Read(s.cache, id), ops[..n], id)
  {
    hide CanRunAll, AfterOp, CanRun, Read, OpSucceeds, SameAt, NothingFails, FreshName;
    if n > 0 {
      ReadsLastWritten(c, path, s, ops, n - 1, id);
      CallOfRun(c, path, s, ops, n - 1);
      WriteOutcome(c, path, StoreAt(c, path, s, ops, n - 1), ops[n - 1]);
      assert ops[..n][..n - 1] == ops[..n - 1];
    }
  }

  /** Whatever cache the file holds, after one more call it holds that one or the new one. */
  lemma HoldsStep(c: Codec, path: Text, s: Store, op: WriteOp, held: Cache)
    requires Lawful(c) && CanRun(path, s, op) && InStep(c, path, s.disk, held)
    ensures var s' := AfterOp(c, path, s, op);
            InStep(c, path, s'.disk, held) || InStep(c, path, s'.disk, s'.cache)
  {
    if !Skips(s.cache, op) {
      AtomicAtEveryStep(s.disk, path, op.tmp, c.enc(s.cache[op.id := op.bytes]), op.faults);
      hide WriteSteps;
    }
  }

  /** With failed writes the file holds the cache as it was at some moment of the run. */
  lemma {:induction false} FileHoldsEarlierCache(c: Codec, path: Text, s: Store, ops: seq<WriteOp>, n: nat)
    returns (moment: nat)
    requires Lawful(c) && InStep(c, path, s.disk, s.cache) && CanRunAll(c, path, s, ops) && n <= |ops|
    ensures moment <= n
    ensures InStep(c, path, StoreAt(c, path, s, ops, n).disk, StoreAt(c, path, s, ops, moment).cache)
  {
    hide *;
    moment := 0;
    if n == 0 {
      StoreAtStart(c, path, s, ops);
    } else {
      CallOfRun(c, path, s, ops, n - 1);
      moment := FileHoldsEarlierCache(c, path, s, ops, n - 1);
      HoldsStep(c, path, StoreAt(c, path, s, ops, n - 1), ops[n - 1], StoreAt(c, path, s, ops, moment).cache);
      if !InStep(c, path, StoreAt(c, path, s, ops, n).disk, StoreAt(c, path, s, ops, moment).cache) {
        moment := n;
      }
    }
  }

  // ---- opening the store ----------------------------------------------------------------------------

  /** What the operating system makes of NewFileStore. */
  datatype OpenCalls = OpenCalls(mkdirOk: bool, readOk: bool, tmp: Text, faults: Faults)

  /** The system calls of NewFileStore: none but the write of an empty object if there is no file. */
  function OpenSteps(path: Text, d: Disk, o: OpenCalls): seq<Disk> {
    if o.mkdirOk && path !in d then CallSteps(d, path, o.tmp, EMPTY_OBJECT, o.faults) else []
  }

  function OpenResult(c: Codec, path: Text, d: Disk, o: OpenCalls): Option<Cache> {
    if !o.mkdirOk then None
    else if path !in d then (if Succeeds(o.faults) then Some(map[]) else None)
    else if !o.readOk then None
    else c.dec(d[path].data)
  }

  /** A store that has just been opened is in step, provided that the file it read was synced. */
  lemma OpenedInStep(c: Codec, path: Text, d: Disk, o: OpenCalls)
    requires Lawful(c) && FreshName(d, path, o.tmp) && (path in d ==> d[path].synced)
    requires OpenResult(c, path, d, o).Some?
    ensures InStep(c, path, Last([d] + OpenSteps(path, d, o)), OpenResult(c, path, d, o).value)
  {
    if path !in d {
      AtomicAtEveryStep(d, path, o.tmp, EMPTY_OBJECT, o.faults);
      hide CallSteps;
    }
  }

  /** A restart without a failed write before it answers every read as the old store would. */
  lemma RestartReadsTheSame(c: Codec, path: Text, s: Store, ops: seq<WriteOp>, o: OpenCalls)
    requires Lawful(c) && InStep(c, path, s.disk, s.cache)
    requires CanRunAll(c, path, s, ops) && AllSucceed(c, path, s, ops)
    requires o.mkdirOk && o.readOk
    ensures var s' := StoreAt(c, path, s, ops, |ops|); OpenResult(c, path, s'.disk, o) == Some(s'.cache)
  {
    CacheAgreesWithDisk(c, path, s, ops, |ops|);
  }

  class FileStore {
    const fs: FileSystem
    const path: Text
    const codec: Codec
    var cache: Cache

    ghost function View(): Store
      reads this, fs
    {
      Store(cache, fs.files)
    }

    constructor (fs: FileSystem, path: Text, codec: Codec, cache: Cache)
      ensures this.fs == fs && this.path == path && this.codec == codec && this.cache == cache
    {
      this.fs, this.path, this.codec, this.cache := fs, path, codec, cache;
    }

    method WriteState(op: WriteOp) returns (ok: bool)
      requires CanRun(path, View(), op)
      modifies this`cache, fs
      ensures ok == OpSucceeds(old(View()), op)
      ensures View() == AfterOp(codec, path, old(View()), op)
      ensures fs.history == old(fs.history) + if Skips(old(cache), op) then []
                else CallSteps(old(fs.files), path, op.tmp, codec.enc(old(cache)[op.id := op.bytes]), op.faults)
    {
      var present := if op.id in cache then cache[op.id] else [];
      if present == op.bytes {
        return true;
      }
      cache := cache[op.id := op.bytes];
      var text := codec.enc(cache);
      ok := fs.AtomicWriteFile(path, text, op.tmp, op.faults);
    }

    method ReadState(id: Text) returns (bytes: Option<Text>)
      ensures bytes == if id in cache then Some(cache[id]) else None
    {
      if id !in cache {
        return None;
      }
      bytes := Some(cache[id]);
    }
  }

  method NewFileStore(fs: FileSystem, path: Text, codec: Codec, o: OpenCalls) returns (s: FileStore?)
    requires FreshName(fs.files, path, o.tmp)
    modifies fs
    ensures s == null <==> OpenResult(codec, path, old(fs.files), o).None?
    ensures s != null ==> fresh(s) && s.fs == fs && s.path == path && s.codec == codec
    ensures s != null ==> Some(s.cache) == OpenResult(codec, path, old(fs.files), o)
    ensures fs.files == Last([old(fs.files)] + OpenSteps(path, old(fs.files), o))
    ensures fs.history == old(fs.history) + OpenSteps(path, old(fs.files), o)
  {
    if !o.mkdirOk {
      return null;
    }
    if path !in fs.files {
      var ok := fs.AtomicWriteFile(path, EMPTY_OBJECT, o.tmp, o.faults);
      if !ok {
        return null;
      }
      s := new FileStore(fs, path, codec, map[]);
      return s;
    }
    if !o.readOk {
      return null;
    }
    var decoded := codec.dec(fs.files[path].data);
    if decoded.None? {
      return null;
    }
    s := new FileStore(fs, path, codec, decoded.value);
  }
}
