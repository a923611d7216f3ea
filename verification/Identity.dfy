/** The client's private key across starts, failures and crashes. */
module Identity {
  import opened Prelude
  import opened ByteOrder
  import opened KeyHex
  import opened AtomicFile
  import opened FileStore

  /** "client-private-key" */
  const CLIENT_PRIVATE_KEY: Text :=
    [99, 108, 105, 101, 110, 116, 45, 112, 114, 105, 118, 97, 116, 101, 45, 107, 101, 121]

  /** A WireGuard key has 32 bytes. */
  const KEY_SIZE: nat := 32

  type Key = k: Text | |k| == KEY_SIZE witness seq(KEY_SIZE, _ => 0)

  /** The outcome of a start's foreign calls: opening the store, generating a key, writing it. */
  datatype Start = Start(open: OpenCalls, generated: Option<Key>, tmp: Text, faults: Faults)

  function Unmarshal(text: Text): ParseResult {
    ParseHex(KEY_SIZE, text, CLIENT_PRIVATE_KEY_PREFIX)
  }

  function Marshal(k: Key): Text {
    ToHex(k, CLIENT_PRIVATE_KEY_PREFIX)
  }

  // ---- WritePrivateKey on values -----------------------------------------------------------------

  predicate Generates(cache: Cache, ev: Start) {
    CLIENT_PRIVATE_KEY !in cache && ev.generated.Some?
  }

  /** The key that WritePrivateKey ends with, None if it returns an error. */
  function KeyResult(cache: Cache, ev: Start): Option<Key> {
    if CLIENT_PRIVATE_KEY in cache then
      var parsed := Unmarshal(cache[CLIENT_PRIVATE_KEY]);
      if parsed.Parsed? then Some(parsed.key) else None
    else if ev.generated.Some? && Succeeds(ev.faults) then
      ev.generated
    else
      None
  }

  function KeySteps(c: Codec, path: Text, d: Disk, cache: Cache, ev: Start): seq<Disk> {
    if Generates(cache, ev) then
      CallSteps(d, path, ev.tmp, c.enc(cache[CLIENT_PRIVATE_KEY := Marshal(ev.generated.value)]), ev.faults)
    else
      []
  }

  // ---- one start ---------------------------------------------------------------------------------

  function OpenedDisk(path: Text, d: Disk, ev: Start): Disk {
    Last([d] + OpenSteps(path, d, ev.open))
  }

  /** The disk after each system call of a start that runs to its end. */
  function StartCalls(c: Codec, path: Text, d: Disk, ev: Start): seq<Disk> {
    var found := OpenResult(c, path, d, ev.open);
    OpenSteps(path, d, ev.open)
    + if found.Some? then KeySteps(c, path, OpenedDisk(path, d, ev), found.value, ev) else []
  }

  /** Every state of the disk during a start that runs to its end. */
  function StartSteps(c: Codec, path: Text, d: Disk, ev: Start): seq<Disk> {
    [d] + StartCalls(c, path, d, ev)
  }

  function StartResult(c: Codec, path: Text, d: Disk, ev: Start): Option<Key> {
    var found := OpenResult(c, path, d, ev.open);
    if found.Some? then KeyResult(found.value, ev) else None
  }

  /** The operating system hands out fresh names for temporary files. */
  predicate FreshNames(path: Text, d: Disk, ev: Start) {
    FreshName(d, path, ev.open.tmp) && FreshName(OpenedDisk(path, d, ev), path, ev.tmp)
  }

  /** The state file is absent, or holds one of these texts and no crash can hurt it. */
  ghost predicate Settled(texts: iset<Text>, path: Text, d: Disk) {
    path in d ==> d[path].synced && d[path].data in texts
  }

  /** The empty object that a new store writes, or the encoding of a cache. */
  ghost predicate IsComplete(c: Codec, t: Text) {
    t == EMPTY_OBJECT || exists m: Cache :: t == c.enc(m)
  }

  ghost function Encodings(c: Codec): iset<Text> {
    iset t: Text | IsComplete(c, t)
  }

  ghost function Decodable(c: Codec): iset<Text> {
    iset t: Text | c.dec(t).Some?
  }

  /** The state file is absent, or decodes and no crash can hurt it. */
  ghost predicate Whole(c: Codec, path: Text, d: Disk) {
    Settled(Decodable(c), path, d)
  }

  /** The state file durably holds key k. */
  ghost predicate Holds(c: Codec, path: Text, d: Disk, k: Key) {
    && path in d && d[path].synced
    && var cache := c.dec(d[path].data);
       cache.Some? && CLIENT_PRIVATE_KEY in cache.value && Unmarshal(cache.value[CLIENT_PRIVATE_KEY]) == Parsed(k)
  }

  lemma MarshalledKeyParses(k: Key)
    ensures Unmarshal(Marshal(k)) == Parsed(k)
    ensures Marshal(k) != []
  {
    RoundTrip(k, CLIENT_PRIVATE_KEY_PREFIX);
  }

  /** In every state of one write the file is settled, if it was before and with what is written. */
  lemma SettledDuringWrite(texts: iset<Text>, path: Text, d: Disk, tmp: Text, data: Text, f: Faults)
    requires FreshName(d, path, tmp) && Settled(texts, path, d) && data in texts
    ensures forall s <- [d] + CallSteps(d, path, tmp, data, f) :: Settled(texts, path, s)
  {
    AtomicAtEveryStep(d, path, tmp, data, f);
    assert WriteSteps(d, path, tmp, data, f) == [d] + CallSteps(d, path, tmp, data, f);
    hide CallSteps, WriteSteps;
  }

  /** In every state of a start the file is settled. */
  lemma SettledDuringStart(c: Codec, texts: iset<Text>, path: Text, d: Disk, ev: Start)
    requires Encodings(c) <= texts && Settled(texts, path, d) && FreshNames(path, d, ev)
    ensures forall s <- StartSteps(c, path, d, ev) :: Settled(texts, path, s)
  {
    hide CallSteps, Settled;
    assert EMPTY_OBJECT in Encodings(c);
    SettledDuringWrite(texts, path, d, ev.open.tmp, EMPTY_OBJECT, ev.open.faults);
    var found := OpenResult(c, path, d, ev.open);
    if found.Some? && Generates(found.value, ev) {
      var cache := found.value[CLIENT_PRIVATE_KEY := Marshal(ev.generated.value)];
      assert c.enc(cache) in Encodings(c);
      SettledDuringWrite(texts, path, OpenedDisk(path, d, ev), ev.tmp, c.enc(cache), ev.faults);
    }
  }

  lemma EncodedDecodes(c: Codec, m: Cache)
    requires Lawful(c)
    ensures c.dec(c.enc(m)) == Some(m)
  {
  }

  /** When a start ends with a key, and with which: the directory can be made; the file can be read and decoded if
      there is one, and written if there is none; and the key stored in it parses, or there is none and a new
      one is generated and written. In particular a first start on which nothing fails ends with its new key. */
  lemma StartEndsWithKeyIff(c: Codec, path: Text, d: Disk, ev: Start)
    ensures var opens := ev.open.mkdirOk
                         && if path in d then ev.open.readOk && c.dec(d[path].data).Some?
                            else NothingFails(ev.open.faults);
            var stored := if path in d && c.dec(d[path].data).Some?
                          then Read(c.dec(d[path].data).value, CLIENT_PRIVATE_KEY) else None;
            StartResult(c, path, d, ev)
            == if !opens then None
               else if stored.Some? then
                 (match Unmarshal(stored.value) case Parsed(k) => Some(k) case _ => None)
               else if NothingFails(ev.faults) then ev.generated
               else None
  {
    SucceedsIff(ev.open.faults);
    SucceedsIff(ev.faults);
    hide NothingFails, Succeeds;
  }

  /** A start on a disk that holds a key writes nothing, and reads that key unless it cannot read at all. */
  lemma StartOnHeldKey(c: Codec, path: Text, d: Disk, ev: Start, k: Key)
    requires Holds(c, path, d, k)
    ensures StartSteps(c, path, d, ev) == [d]
    ensures StartResult(c, path, d, ev) == if ev.open.mkdirOk && ev.open.readOk then Some(k) else None
  {
  }

  lemma LastOfConcat(s: seq<Disk>, t: seq<Disk>)
    requires s != []
    ensures Last(s + t) == Last([Last(s)] + t)
  {
  }

  lemma NewKeyIsHeld(c: Codec, path: Text, d: Disk, ev: Start, cache: Cache)
    requires Lawful(c) && FreshNames(path, d, ev)
    requires OpenResult(c, path, d, ev.open) == Some(cache) && Generates(cache, ev) && Succeeds(ev.faults)
    ensures Holds(c, path, Last(StartSteps(c, path, d, ev)), ev.generated.value)
  {
    hide CallSteps, OpenSteps, OpenResult;
    var k, found := ev.generated.value, OpenedDisk(path, d, ev);
    var text := c.enc(cache[CLIENT_PRIVATE_KEY := Marshal(k)]);
    EncodedDecodes(c, cache[CLIENT_PRIVATE_KEY := Marshal(k)]);
    MarshalledKeyParses(k);
    AtomicAtEveryStep(found, path, ev.tmp, text, ev.faults);
    var opening, writing := OpenSteps(path, d, ev.open), CallSteps(found, path, ev.tmp, text, ev.faults);
    assert [d] + (opening + writing) == [d] + opening + writing;
    LastOfConcat([d] + opening, writing);
    hide Marshal, Unmarshal, Lawful;
  }

  /** A start that ends with a key leaves a disk that holds it. */
  lemma ResultIsHeld(c: Codec, path: Text, d: Disk, ev: Start)
    requires Lawful(c) && Whole(c, path, d) && FreshNames(path, d, ev)
    requires StartResult(c, path, d, ev).Some?
    ensures Holds(c, path, Last(StartSteps(c, path, d, ev)), StartResult(c, path, d, ev).value)
  {
    var cache := OpenResult(c, path, d, ev.open).value;
    OpenedInStep(c, path, d, ev.open);
    if CLIENT_PRIVATE_KEY in cache {
      assert StartSteps(c, path, d, ev) == [d] + OpenSteps(path, d, ev.open);
    } else {
      NewKeyIsHeld(c, path, d, ev, cache);
    }
  }

  // ---- lives --------------------------------------------------------------------------------------

  /** One life of the daemon: a start that runs to its end, or is cut by a crash after some step. */
  datatype Life = Life(start: Start, crashAfter: Option<nat>)

  /** The life takes the disk from d to d'. */
  ghost predicate Lives(c: Codec, path: Text, d: Disk, life: Life, d': Disk) {
    var steps := StartSteps(c, path, d, life.start);
    && FreshNames(path, d, life.start)
    && match life.crashAfter
       case None => d' == Last(steps)
       case Some(i) => i < |steps| && CrashOf(steps[i], d')
  }

  /** The key the daemon runs with: none if it was cut before its start had ended. */
  function KeyOfLife(c: Codec, path: Text, d: Disk, life: Life): Option<Key> {
    if life.crashAfter.Some? && life.crashAfter.value + 1 < |StartSteps(c, path, d, life.start)| then None
    else StartResult(c, path, d, life.start)
  }

  /** disks[i] is the disk before life i. */
  ghost predicate History(c: Codec, path: Text, disks: seq<Disk>, lives: seq<Life>) {
    && |disks| == |lives| + 1
    && forall i | 0 <= i < |lives| :: Lives(c, path, disks[i], lives[i], disks[i + 1])
  }

  lemma LifeKeepsSettled(c: Codec, texts: iset<Text>, path: Text, d: Disk, life: Life, d': Disk)
    requires Encodings(c) <= texts && Settled(texts, path, d) && Lives(c, path, d, life, d')
    ensures Settled(texts, path, d')
  {
    SettledDuringStart(c, texts, path, d, life.start);
    var steps := StartSteps(c, path, d, life.start);
    hide StartSteps;
    var reached := if life.crashAfter.Some? then steps[life.crashAfter.value] else Last(steps);
    assert Settled(texts, path, reached);
  }

  lemma LifeKeepsKey(c: Codec, path: Text, d: Disk, life: Life, d': Disk, k: Key)
    requires Holds(c, path, d, k) && Lives(c, path, d, life, d')
    ensures Holds(c, path, d', k)
    ensures KeyOfLife(c, path, d, life) == if life.start.open.mkdirOk && life.start.open.readOk then Some(k) else None
  {
    StartOnHeldKey(c, path, d, life.start, k);
    hide StartSteps;
  }

  lemma LifeSecuresKey(c: Codec, path: Text, d: Disk, life: Life, d': Disk)
    requires Lawful(c) && Whole(c, path, d) && Lives(c, path, d, life, d')
    requires KeyOfLife(c, path, d, life).Some?
    ensures Holds(c, path, d', KeyOfLife(c, path, d, life).value)
  {
    ResultIsHeld(c, path, d, life.start);
    hide StartSteps;
  }

  lemma {:induction false} HistoryKeepsSettled(c: Codec, texts: iset<Text>, path: Text, disks: seq<Disk>,
                                               lives: seq<Life>, i: nat)
    requires Encodings(c) <= texts && History(c, path, disks, lives) && Settled(texts, path, disks[0])
    requires i < |disks|
    ensures Settled(texts, path, disks[i])
  {
    hide Settled, Lives, Encodings;
    if i > 0 {
      HistoryKeepsSettled(c, texts, path, disks, lives, i - 1);
      LifeKeepsSettled(c, texts, path, disks[i - 1], lives[i - 1], disks[i]);
    }
  }

  /** Over any history of starts, failures and crashes, and for any codec, the state file is absent, or the
      empty object or the complete encoding of some cache. */
  lemma StateFileIsNeverTorn(c: Codec, path: Text, disks: seq<Disk>, lives: seq<Life>, i: nat)
    requires History(c, path, disks, lives) && i < |disks|
    requires Settled(Encodings(c), path, disks[0])
    ensures path in disks[i] ==>
              && disks[i][path].synced
              && IsComplete(c, disks[i][path].data)
  {
    HistoryKeepsSettled(c, Encodings(c), path, disks, lives, i);
  }

  lemma EncodingsDecode(c: Codec)
    requires Lawful(c)
    ensures Encodings(c) <= Decodable(c)
  {
  }

  /** A file that decodes at first can always be decoded: the one a user may have edited, too. */
  lemma StateFileStaysWhole(c: Codec, path: Text, disks: seq<Disk>, lives: seq<Life>, i: nat)
    requires Lawful(c) && History(c, path, disks, lives) && i < |disks|
    requires Whole(c, path, disks[0])
    ensures Whole(c, path, disks[i])
  {
    EncodingsDecode(c);
    HistoryKeepsSettled(c, Decodable(c), path, disks, lives, i);
  }

  lemma {:induction false} KeyStaysHeld(c: Codec, path: Text, disks: seq<Disk>, lives: seq<Life>, i: nat, j: nat,
                                        k: Key)
    requires History(c, path, disks, lives) && i <= j < |disks| && Holds(c, path, disks[i], k)
    ensures Holds(c, path, disks[j], k)
  {
    hide Holds, Lives;
    if i < j {
      KeyStaysHeld(c, path, disks, lives, i, j - 1, k);
      LifeKeepsKey(c, path, disks[j - 1], lives[j - 1], disks[j], k);
    }
  }

  /** Once a life has run with a key, every later life that can read its state file runs with the same
      one, whatever fails or crashes in between and whatever new keys would have been generated. */
  lemma IdentitySurvives(c: Codec, path: Text, disks: seq<Disk>, lives: seq<Life>, i: nat, j: nat)
    requires Lawful(c) && History(c, path, disks, lives) && Whole(c, path, disks[0])
    requires i < j < |lives| && KeyOfLife(c, path, disks[i], lives[i]).Some?
    ensures KeyOfLife(c, path, disks[j], lives[j])
            == if lives[j].start.open.mkdirOk && lives[j].start.open.readOk
               then KeyOfLife(c, path, disks[i], lives[i]) else None
  {
    var k := KeyOfLife(c, path, disks[i], lives[i]).value;
    StateFileStaysWhole(c, path, disks, lives, i);
    LifeSecuresKey(c, path, disks[i], lives[i], disks[i + 1]);
    KeyStaysHeld(c, path, disks, lives, i + 1, j, k);
    LifeKeepsKey(c, path, disks[j], lives[j], disks[j + 1], k);
  }

  // ---- the object -----------------------------------------------------------------------------------

  class ClientStore {
    const store: FileStore
    /** The bytes of the key, overwritten in place by unmarshalling. */
    const privateKey: array<byte>

    ghost predicate Valid() {
      privateKey.Length == KEY_SIZE
    }

    constructor (store: FileStore)
      ensures Valid() && this.store == store && fresh(privateKey)
    {
      this.store := store;
      privateKey := new byte[KEY_SIZE](_ => 0);
    }

    /** WritePrivateKey */
    method WritePrivateKey(ev: Start) returns (ok: bool)
      requires Valid() && FreshName(store.fs.files, store.path, ev.tmp)
      modifies privateKey, store`cache, store.fs
      ensures ok <==> KeyResult(old(store.cache), ev).Some?
      ensures ok ==> privateKey[..] == KeyResult(old(store.cache), ev).value
      ensures !ok && CLIENT_PRIVATE_KEY !in old(store.cache) ==> privateKey[..] == old(privateKey[..])
      ensures store.fs.history == old(store.fs.history)
                + KeySteps(store.codec, store.path, old(store.fs.files), old(store.cache), ev)
      ensures store.fs.files == Last([old(store.fs.files)]
                + KeySteps(store.codec, store.path, old(store.fs.files), old(store.cache), ev))
      ensures store.cache == if Generates(old(store.cache), ev)
                             then old(store.cache)[CLIENT_PRIVATE_KEY := Marshal(ev.generated.value)]
                             else old(store.cache)
    {
      var state := store.ReadState(CLIENT_PRIVATE_KEY);
      if state.Some? {
        ok := ParseHexInto(privateKey, state.value, CLIENT_PRIVATE_KEY_PREFIX);
        return ok;
      }
      if ev.generated.None? {
        return false;
      }
      var k := ev.generated.value;
      MarshalledKeyParses(k);
      var text := ToHexBuffer(k, CLIENT_PRIVATE_KEY_PREFIX);
      hide CallSteps;
      ok := store.WriteState(WriteOp(CLIENT_PRIVATE_KEY, text[..], ev.tmp, ev.faults));
      if !ok {
        return false;
      }
      forall i | 0 <= i < KEY_SIZE {
        privateKey[i] := k[i];
      }
      assert privateKey[..] == k;
    }

    /** GetPrivateKey re-reads the stored key if there is one; None stands for the empty string of the
        failure case. */
    method GetPrivateKey() returns (key: Option<Text>)
      requires Valid()
      modifies privateKey
      ensures CLIENT_PRIVATE_KEY !in store.cache ==>
                key == Some(old(privateKey[..])) && privateKey[..] == old(privateKey[..])
      ensures CLIENT_PRIVATE_KEY in store.cache ==>
                key == (match Unmarshal(store.cache[CLIENT_PRIVATE_KEY])
                        case Parsed(k) => Some(k)
                        case _ => None)
    {
      var state := store.ReadState(CLIENT_PRIVATE_KEY);
      if state.Some? {
        var ok := ParseHexInto(privateKey, state.value, CLIENT_PRIVATE_KEY_PREFIX);
        if !ok {
          return None;
        }
      }
      key := Some(privateKey[..]);
    }
  }

  /** A whole start on the objects: it passes through the disk states of StartSteps and ends with the key
      of StartResult. */
  method StartClient(fs: FileSystem, path: Text, c: Codec, ev: Start) returns (client: ClientStore?)
    requires FreshNames(path, fs.files, ev)
    modifies fs
    ensures client == null <==> StartResult(c, path, old(fs.files), ev).None?
    ensures client != null ==> fresh(client) && client.privateKey[..] == StartResult(c, path, old(fs.files), ev).value
    ensures fs.history == old(fs.history) + StartCalls(c, path, old(fs.files), ev)
    ensures fs.files == Last(StartSteps(c, path, old(fs.files), ev))
  {
    hide CallSteps, KeyResult;
    ghost var d, h := fs.files, fs.history;
    var store := NewFileStore(fs, path, c, ev.open);
    if store == null {
      return null;
    }
    ghost var found := fs.files;
    ghost var cache := store.cache;
    assert found == OpenedDisk(path, d, ev);
    client := new ClientStore(store);
    var ok := client.WritePrivateKey(ev);
    ghost var opening, writing := OpenSteps(path, d, ev.open), KeySteps(c, path, found, cache, ev);
    LastOfConcat([d] + opening, writing);
    assert [d] + (opening + writing) == [d] + opening + writing;
    assert h + opening + writing == h + (opening + writing);
    hide KeySteps, OpenSteps;
    if !ok {
      return null;
    }
  }
}
