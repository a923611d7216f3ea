/** The laws assumed of the JSON codecs can be met: concrete codecs that meet them, and concrete runs on
    which the program does not do what its documentation says. */
module CodecWitness {
  import opened Prelude
  import opened ByteOrder
  import opened AtomicFile
  import opened FileStore
  import S = Spec

  /** A self-delimiting form of a byte string. */
  function Delimit(t: Text): (r: Text)
    ensures r != [] && r[0] < 2
  {
    if t == [] then [0] else [1, t[0]] + Delimit(t[1..])
  }

  /** Reads one delimited string off the front. */
  function Split(s: Text): (r: Option<(Text, Text)>)
    ensures r.Some? ==> |r.value.1| < |s|
  {
    if s == [] then None
    else if s[0] == 0 then Some(([], s[1..]))
    else if |s| == 1 then None
    else
      var rest := Split(s[2..]);
      if rest.None? then None else Some(([s[1]] + rest.value.0, rest.value.1))
  }

  lemma {:induction false} SplitDelimited(t: Text, rest: Text)
    ensures Split(Delimit(t) + rest) == Some((t, rest))
  {
    if t != [] {
      SplitDelimited(t[1..], rest);
      assert (Delimit(t) + rest)[2..] == Delimit(t[1..]) + rest;
      assert t == [t[0]] + t[1..];
    } else {
      assert (Delimit(t) + rest)[1..] == rest;
    }
  }

  ghost function Entries(m: Cache): (r: Text)
    ensures m != map[] ==> r != [] && r[0] < 2
    decreases |m|
  {
    if m == map[] then
      []
    else
      var k :| k in m;
      Delimit(k) + (Delimit(m[k]) + Entries(m - {k}))
  }

  function ReadEntries(s: Text): Option<Cache>
    decreases |s|
  {
    if s == [] then
      Some(map[])
    else
      var k := Split(s);
      if k.None? then None
      else
        var v := Split(k.value.1);
        if v.None? then None
        else
          var rest := ReadEntries(v.value.1);
          if rest.None? then None else Some(rest.value[k.value.0 := v.value.0])
  }

  lemma {:induction false} ReadsEntries(m: Cache)
    ensures ReadEntries(Entries(m)) == Some(m)
    decreases |m|
  {
    if m != map[] {
      var k :| k in m && Entries(m) == Delimit(k) + (Delimit(m[k]) + Entries(m - {k}));
      ReadsEntries(m - {k});
      SplitDelimited(k, Delimit(m[k]) + Entries(m - {k}));
      SplitDelimited(m[k], Entries(m - {k}));
      assert (m - {k})[k := m[k]] == m;
    }
  }

  ghost function Witness(): Codec {
    Codec(m => if m == map[] then EMPTY_OBJECT else Entries(m),
          t => if t == EMPTY_OBJECT then Some(map[]) else ReadEntries(t))
  }

  lemma LawfulCodecExists()
    ensures Lawful(Witness())
  {
    forall m: Cache
      ensures Witness().dec(Witness().enc(m)) == Some(m)
    {
      ReadsEntries(m);
    }
  }

  // ---- a write that is lost ------------------------------------------------------------------------

  const STATE_FILE: Text := [1]

  /** A fresh store on an empty object. */
  function FreshStore(): Store {
    Store(map[], map[STATE_FILE := File(EMPTY_OBJECT, true)])
  }

  /** A write of one byte, whose sync may fail. */
  function ByteWrite(id: Text, syncFails: bool): WriteOp {
    WriteOp(id, [7], [2], Faults(false, false, 0, false, syncFails, false, false, false))
  }

  /** A write fails, the same write is repeated on a healthy disk and succeeds, and the file is still the
      empty object: a restart finds nothing under the key. */
  lemma WriteIsLost(id: Text)
    ensures var c := Witness();
            var s1 := AfterOp(c, STATE_FILE, FreshStore(), ByteWrite(id, true));
            var s2 := AfterOp(c, STATE_FILE, s1, ByteWrite(id, false));
            && InStep(c, STATE_FILE, FreshStore().disk, FreshStore().cache)
            && !OpSucceeds(FreshStore(), ByteWrite(id, true)) && OpSucceeds(s1, ByteWrite(id, false))
            && s2.cache == map[id := [7]]
            && OpenResult(c, STATE_FILE, s2.disk, OpenCalls(true, true, [2], ByteWrite(id, false).faults))
               == Some(map[])
  {
    var c, s := Witness(), FreshStore();
    LawfulCodecExists();
    AtomicAtEveryStep(s.disk, STATE_FILE, [2], c.enc(map[id := [7]]), ByteWrite(id, true).faults);
    hide WriteSteps, Entries, ReadEntries;
  }

  // ---- a codec for the configuration file -----------------------------------------------------------

  function DelimitAll(ts: seq<Text>): Text {
    if ts == [] then [] else Delimit(ts[0]) + DelimitAll(ts[1..])
  }

  function ReadAll(s: Text): Option<seq<Text>>
    decreases |s|
  {
    if s == [] then
      Some([])
    else
      var t := Split(s);
      if t.None? then None
      else
        var rest := ReadAll(t.value.1);
        if rest.None? then None else Some([t.value.0] + rest.value)
  }

  /** With a byte too many at the end nothing is read. */
  lemma {:induction false} ReadsAll(ts: seq<Text>)
    ensures ReadAll(DelimitAll(ts)) == Some(ts)
    ensures ReadAll(DelimitAll(ts) + [1]) == None
  {
    if ts != [] {
      ReadsAll(ts[1..]);
      SplitDelimited(ts[0], DelimitAll(ts[1..]));
      SplitDelimited(ts[0], DelimitAll(ts[1..]) + [1]);
      assert DelimitAll(ts) + [1] == Delimit(ts[0]) + (DelimitAll(ts[1..]) + [1]);
      assert ts == [ts[0]] + ts[1..];
    }
  }

  function Unary(n: nat): (t: Text)
    ensures |t| == n
  {
    seq(n, _ => 0)
  }

  function Fields(s: S.Content): seq<Text> {
    [s.wgPrivateKey, s.serverHost, Unary(s.serverPort), s.signalHost, Unary(s.signalPort), s.tunName, s.preSharedKey]
    + s.blackList
  }

  const EMPTY_CONTENT := S.Content([], [], 0, [], 0, [], [], [])

  /** A malformed file decodes to the empty content. */
  function FromFields(read: Option<seq<Text>>): (S.Content, bool) {
    if read.None? || |read.value| < 7 then
      (EMPTY_CONTENT, false)
    else
      var f := read.value;
      (S.Content(f[0], f[1], |f[2]|, f[3], |f[4]|, f[5], f[6], f[7..]), true)
  }

  function SpecWitness(): S.SpecCodec {
    S.SpecCodec(s => DelimitAll(Fields(s)), t => FromFields(ReadAll(t)))
  }

  lemma LawfulSpecCodecExists()
    ensures S.Lawful(SpecWitness())
  {
    forall s: S.Content
      ensures SpecWitness().dec(SpecWitness().enc(s)) == (s, true)
    {
      ReadsAll(Fields(s));
    }
  }

  // ---- a key that is lost -----------------------------------------------------------------------------

  /** A first start stores a key; the file gets a byte too many; the next start keeps everything well-formed,
      and the key, which was still in the file, is gone. */
  lemma KeyIsLost(first: S.Run, second: S.Run)
    requires first.generated != []
    ensures var c := SpecWitness();
            var stored := S.FileAfter(c, None, [first]).value;
            var damaged := stored + [1];
            var left := S.FileAfter(c, Some(damaged), [second]).value;
            && c.dec(stored).1 && c.dec(stored).0.wgPrivateKey == first.generated
            && c.dec(left).1 && c.dec(left).0.wgPrivateKey == []
  {
    var c := SpecWitness();
    LawfulSpecCodecExists();
    var content := S.Created(c, None, first);
    assert [first][..0] == [] && [second][..0] == [];
    assert S.FileAfter(c, None, [first]) == Some(c.enc(content));
    ReadsAll(Fields(content));
    assert c.dec(c.enc(content) + [1]) == (EMPTY_CONTENT, false);
  }
}
