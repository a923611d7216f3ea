/** The client configuration file, merged with the command line at every start. */
module Spec {
  import opened Prelude
  import opened ByteOrder
  import opened AtomicFile

  /** The exported fields: what is written to the file. */
  datatype Content = Content(
    wgPrivateKey: Text,
    serverHost: Text,
    serverPort: nat,
    signalHost: Text,
    signalPort: nat,
    tunName: Text,
    preSharedKey: Text,
    blackList: seq<Text>)

  /** JSON as an abstract codec. Decoding a malformed file fails, but leaves some content behind. */
  datatype SpecCodec = SpecCodec(enc: Content -> Text, dec: Text -> (Content, bool))

  ghost predicate Lawful(c: SpecCodec) {
    forall s: Content :: c.dec(c.enc(s)) == (s, true)
  }

  /** What one start brings: the command line, the key it would generate and the name of the tunnel device. */
  datatype Run = Run(
    serverHost: Text,
    serverPort: nat,
    signalHost: Text,
    signalPort: nat,
    generated: Text,
    tunName: Text)

  /** CreateSpec on values: what is written, given the contents of the file if there is one. */
  function Created(c: SpecCodec, file: Option<Text>, r: Run): Content {
    match file
    case None =>
      Content(r.generated, r.serverHost, r.serverPort, r.signalHost, r.signalPort, r.tunName, [], [r.tunName])
    case Some(text) =>
      var found := c.dec(text).0;
      Content(found.wgPrivateKey,
              if r.serverHost == [] then found.serverHost else r.serverHost, r.serverPort,
              if r.signalHost == [] then found.signalHost else r.signalHost, r.signalPort,
              found.tunName, [], found.blackList)
  }

  /** The contents of the file after all the runs. */
  function FileAfter(c: SpecCodec, file: Option<Text>, runs: seq<Run>): Option<Text> {
    if runs == [] then file
    else Some(c.enc(Created(c, FileAfter(c, file, runs[..|runs| - 1]), runs[|runs| - 1])))
  }

  function LastNonEmpty(hosts: seq<Text>): Text {
    if hosts == [] then []
    else if hosts[|hosts| - 1] != [] then hosts[|hosts| - 1]
    else LastNonEmpty(hosts[..|hosts| - 1])
  }

  /** The last non-empty host supplied, empty only if none was. */
  lemma {:induction false} LastNonEmptyMeaning(hosts: seq<Text>)
    ensures LastNonEmpty(hosts) == [] <==> forall i | 0 <= i < |hosts| :: hosts[i] == []
    ensures LastNonEmpty(hosts) != [] ==>
              exists i :: 0 <= i < |hosts| && hosts[i] == LastNonEmpty(hosts)
                          && forall j | i < j < |hosts| :: hosts[j] == []
  {
    if hosts != [] && hosts[|hosts| - 1] == [] {
      var front := hosts[..|hosts| - 1];
      LastNonEmptyMeaning(front);
      assert forall i | 0 <= i < |front| :: front[i] == hosts[i];
      if LastNonEmpty(front) != [] {
        var i :| 0 <= i < |front| && front[i] == LastNonEmpty(front) && forall j | i < j < |front| :: front[j] == [];
        assert hosts[i] == LastNonEmpty(hosts);
        forall j | i < j < |hosts| ensures hosts[j] == [] {
          assert j < |front| ==> front[j] == [];
        }
      }
    }
  }

  function ServerHosts(runs: seq<Run>): seq<Text> {
    if runs == [] then [] else ServerHosts(runs[..|runs| - 1]) + [runs[|runs| - 1].serverHost]
  }

  function SignalHosts(runs: seq<Run>): seq<Text> {
    if runs == [] then [] else SignalHosts(runs[..|runs| - 1]) + [runs[|runs| - 1].signalHost]
  }

  /** What a history of starts leaves, given the identity that it began with. */
  function Merged(key: Text, tun: Text, blackList: seq<Text>, serverHosts: seq<Text>, signalHosts: seq<Text>,
                  last: Run): Content {
    Content(key, LastNonEmpty(serverHosts), last.serverPort, LastNonEmpty(signalHosts), last.signalPort, tun, [],
            blackList)
  }

  lemma LastNonEmptyAppend(hosts: seq<Text>, host: Text)
    ensures LastNonEmpty(hosts + [host]) == if host == [] then LastNonEmpty(hosts) else host
  {
    assert (hosts + [host])[..|hosts|] == hosts;
  }

  /** Over any sequence of starts that replace the file, without a file at first, the key, the tunnel and the
      blacklist remain those of the first start, each host is the last non-empty one supplied, and each port
      the last one. */
  lemma {:induction false} MergeOverHistory(c: SpecCodec, runs: seq<Run>)
    requires Lawful(c) && runs != []
    ensures var first := runs[0];
            FileAfter(c, None, runs)
            == Some(c.enc(Merged(first.generated, first.tunName, [first.tunName],
                                 ServerHosts(runs), SignalHosts(runs), runs[|runs| - 1])))
    decreases |runs|
  {
    var front, last := runs[..|runs| - 1], runs[|runs| - 1];
    LastNonEmptyAppend(ServerHosts(front), last.serverHost);
    LastNonEmptyAppend(SignalHosts(front), last.signalHost);
    if front != [] {
      MergeOverHistory(c, front);
    }
  }

  /** Over any sequence of starts that replace the file, with a file at first, whatever its bytes decode to
      takes the part of the first start; in particular a key that the decoder does not return is lost. */
  lemma {:induction false} MergeOverExistingFile(c: SpecCodec, text: Text, runs: seq<Run>)
    requires Lawful(c) && runs != []
    ensures var found := c.dec(text).0;
            FileAfter(c, Some(text), runs)
            == Some(c.enc(Merged(found.wgPrivateKey, found.tunName, found.blackList,
                                 [found.serverHost] + ServerHosts(runs), [found.signalHost] + SignalHosts(runs),
                                 runs[|runs| - 1])))
    decreases |runs|
  {
    var found := c.dec(text).0;
    var front, last := runs[..|runs| - 1], runs[|runs| - 1];
    LastNonEmptyAppend([found.serverHost] + ServerHosts(front), last.serverHost);
    LastNonEmptyAppend([found.signalHost] + SignalHosts(front), last.signalHost);
    assert [found.serverHost] + ServerHosts(runs) == [found.serverHost] + ServerHosts(front) + [last.serverHost];
    assert [found.signalHost] + SignalHosts(runs) == [found.signalHost] + SignalHosts(front) + [last.signalHost];
    if front != [] {
      MergeOverExistingFile(c, text, front);
    } else {
      LastNonEmptyAppend([], found.serverHost);
      LastNonEmptyAppend([], found.signalHost);
      assert [] + [found.serverHost] == [found.serverHost] && [] + [found.signalHost] == [found.signalHost];
    }
  }

  // ---- starts that fail, panic or are cut off by a crash -----------------------------------------

  /** What the outside makes of one call of CreateSpec: whether an existing file can be read, whether a key
      can be generated, and how the write goes. */
  datatype Calls = Calls(readOk: bool, keyOk: bool, tmp: Text, faults: Faults)

  /** One life of the program: CreateSpec runs to its end, which may be a panic, or is cut off by a crash. */
  datatype Life = Life(run: Run, calls: Calls, crashAfter: Option<nat>)

  function Contents(path: Text, d: Disk): Option<Text> {
    if path in d then Some(d[path].data) else None
  }

  /** What CreateSpec writes. */
  function NewText(c: SpecCodec, path: Text, d: Disk, r: Run): Text {
    c.enc(Created(c, Contents(path, d), r))
  }

  /** Whether CreateSpec gets as far as writing the file. */
  predicate Writes(path: Text, d: Disk, o: Calls) {
    if path in d then o.readOk else o.keyOk
  }

  /** The disk after each system call of CreateSpec: there is none if it panics before the write. */
  function LaunchCalls(c: SpecCodec, path: Text, d: Disk, r: Run, o: Calls): seq<Disk> {
    if Writes(path, d, o) then CallSteps(d, path, o.tmp, NewText(c, path, d, r), o.faults) else []
  }

  /** CreateSpec returns, rather than panics. */
  predicate Returns(path: Text, d: Disk, o: Calls) {
    Writes(path, d, o) && Succeeds(o.faults)
  }

  /** The life takes the disk from d to d'. */
  ghost predicate Lives(c: SpecCodec, path: Text, d: Disk, life: Life, d': Disk) {
    var steps := [d] + LaunchCalls(c, path, d, life.run, life.calls);
    && FreshName(d, path, life.calls.tmp)
    && match life.crashAfter
       case None => d' == Last(steps)
       case Some(i) => i < |steps| && CrashOf(steps[i], d')
  }

  /** disks[i] is the disk before life i. */
  ghost predicate History(c: SpecCodec, path: Text, disks: seq<Disk>, lives: seq<Life>) {
    && |disks| == |lives| + 1
    && forall i | 0 <= i < |lives| :: Lives(c, path, disks[i], lives[i], disks[i + 1])
  }

  /** The state of the disk that a life reaches holds the old file or the new one, complete and synced. */
  lemma ReachedIsOldOrNew(c: SpecCodec, path: Text, d: Disk, life: Life, s: Disk)
    requires FreshName(d, path, life.calls.tmp)
    requires s in [d] + LaunchCalls(c, path, d, life.run, life.calls)
    ensures SameAt(d, s, path) || (path in s && s[path] == File(NewText(c, path, d, life.run), true))
  {
    AtomicAtEveryStep(d, path, life.calls.tmp, NewText(c, path, d, life.run), life.calls.faults);
    assert WriteSteps(d, path, life.calls.tmp, NewText(c, path, d, life.run), life.calls.faults)
        == [d] + CallSteps(d, path, life.calls.tmp, NewText(c, path, d, life.run), life.calls.faults);
    hide CallSteps, WriteSteps, NewText;
  }

  /** A life replaces the file or leaves it alone: a call that returns replaces it, one that panics does not. */
  lemma LifeReplacesOrKeeps(c: SpecCodec, path: Text, d: Disk, life: Life, d': Disk) returns (replaced: bool)
    requires Lives(c, path, d, life, d') && (path in d ==> d[path].synced)
    ensures path in d' ==> d'[path].synced
    ensures Contents(path, d') == if replaced then Some(NewText(c, path, d, life.run)) else Contents(path, d)
    ensures life.crashAfter.None? ==> (replaced <==> Returns(path, d, life.calls))
  {
    var steps := [d] + LaunchCalls(c, path, d, life.run, life.calls);
    var text := NewText(c, path, d, life.run);
    if life.crashAfter.None? {
      replaced := Returns(path, d, life.calls);
      AtomicAtEveryStep(d, path, life.calls.tmp, text, life.calls.faults);
      assert WriteSteps(d, path, life.calls.tmp, text, life.calls.faults)
          == [d] + CallSteps(d, path, life.calls.tmp, text, life.calls.faults);
      hide CallSteps, WriteSteps, NewText;
    } else {
      var s := steps[life.crashAfter.value];
      hide LaunchCalls, NewText;
      ReachedIsOldOrNew(c, path, d, life, s);
      replaced := path in s && s[path] == File(text, true);
    }
  }

  /** The runs of the lives that replaced the file. */
  function Taken(lives: seq<Life>, took: seq<bool>): seq<Run>
    requires |took| == |lives|
  {
    if lives == [] then
      []
    else
      var n := |lives| - 1;
      Taken(lives[..n], took[..n]) + if took[n] then [lives[n].run] else []
  }

  /** Of the lives that were not cut off by a crash, exactly those whose call returned replaced the file. */
  ghost predicate Faithful(path: Text, disks: seq<Disk>, lives: seq<Life>, took: seq<bool>) {
    && |took| == |lives| <= |disks|
    && forall i | 0 <= i < |lives| ::
         lives[i].crashAfter.None? ==> (took[i] <==> Returns(path, disks[i], lives[i].calls))
  }

  /** One more life, after which the file is new or as it was. */
  lemma FileGrows(c: SpecCodec, path: Text, d: Disk, file: Option<Text>, runs: seq<Run>, r: Run, replaced: bool)
    requires Contents(path, d) == FileAfter(c, file, runs)
    ensures FileAfter(c, file, runs + if replaced then [r] else [])
            == if replaced then Some(NewText(c, path, d, r)) else Contents(path, d)
  {
    assert (runs + [r])[..|runs|] == runs;
    assert runs + [] == runs;
  }

  lemma FaithfulGrows(path: Text, disks: seq<Disk>, lives: seq<Life>, took: seq<bool>, replaced: bool)
    requires lives != [] && |lives| <= |disks|
    requires Faithful(path, disks[..|lives|], lives[..|lives| - 1], took)
    requires var n := |lives| - 1; lives[n].crashAfter.None? ==> (replaced <==> Returns(path, disks[n], lives[n].calls))
    ensures Faithful(path, disks, lives, took + [replaced])
  {
    var n := |lives| - 1;
    assert forall i | 0 <= i < n :: lives[..n][i] == lives[i] && disks[..n + 1][i] == disks[i];
    hide Returns;
  }

  lemma TakenGrows(lives: seq<Life>, took: seq<bool>, replaced: bool)
    requires lives != [] && |took| == |lives| - 1
    ensures Taken(lives, took + [replaced])
            == Taken(lives[..|lives| - 1], took) + if replaced then [lives[|lives| - 1].run] else []
  {
    assert (took + [replaced])[..|lives| - 1] == took;
  }

  lemma NothingTaken(c: SpecCodec, path: Text, disks: seq<Disk>, file: Option<Text>)
    ensures Taken([], []) == []
    ensures FileAfter(c, file, []) == file
    ensures Faithful(path, disks, [], [])
  {
  }

  lemma HistoryFront(c: SpecCodec, path: Text, disks: seq<Disk>, lives: seq<Life>)
    requires History(c, path, disks, lives) && lives != []
    ensures |disks| == |lives| + 1 && History(c, path, disks[..|lives|], lives[..|lives| - 1])
    ensures var n := |lives| - 1; Lives(c, path, disks[n], lives[n], disks[n + 1])
  {
    hide Lives;
  }

  /** The file is what the lives that replaced it have made of it. */
  lemma {:induction false} FileFollowsRuns(c: SpecCodec, path: Text, disks: seq<Disk>, lives: seq<Life>)
    returns (took: seq<bool>)
    requires |disks| == |lives| + 1 && History(c, path, disks, lives)
    requires path in disks[0] ==> disks[0][path].synced
    ensures Faithful(path, disks, lives, took) && |took| == |lives|
    ensures path in disks[|lives|] ==> disks[|lives|][path].synced
    ensures Contents(path, disks[|lives|]) == FileAfter(c, Contents(path, disks[0]), Taken(lives, took))
    decreases |lives|
  {
    hide *;
    took := [];
    if lives == [] {
      NothingTaken(c, path, disks, Contents(path, disks[0]));
    } else {
      var n, file := |lives| - 1, Contents(path, disks[0]);
      HistoryFront(c, path, disks, lives);
      var before := FileFollowsRuns(c, path, disks[..n + 1], lives[..n]);
      var replaced := LifeReplacesOrKeeps(c, path, disks[n], lives[n], disks[n + 1]);
      FaithfulGrows(path, disks, lives, before, replaced);
      TakenGrows(lives, before, replaced);
      FileGrows(c, path, disks[n], file, Taken(lives[..n], before), lives[n].run, replaced);
      took := before + [replaced];
    }
  }

  /** Nothing goes wrong in this life: the file can be read, a key can be generated, no system call of the write
      fails, and no crash comes in between. */
  ghost predicate Healthy(life: Life) {
    life.crashAfter.None? && life.calls.readOk && life.calls.keyOk && NothingFails(life.calls.faults)
  }

  /** What these lives bring. */
  function Runs(lives: seq<Life>): (runs: seq<Run>)
    ensures |runs| == |lives|
  {
    if lives == [] then [] else Runs(lives[..|lives| - 1]) + [lives[|lives| - 1].run]
  }

  lemma {:induction false} AllTaken(lives: seq<Life>, took: seq<bool>)
    requires |took| == |lives| && forall i | 0 <= i < |took| :: took[i]
    ensures Taken(lives, took) == Runs(lives)
  {
    if lives != [] {
      AllTaken(lives[..|lives| - 1], took[..|lives| - 1]);
    }
  }

  lemma {:induction false} RunsEnds(lives: seq<Life>)
    requires lives != []
    ensures Runs(lives)[0] == lives[0].run && Runs(lives)[|lives| - 1] == lives[|lives| - 1].run
  {
    if |lives| > 1 {
      RunsEnds(lives[..|lives| - 1]);
    }
  }

  /** A healthy life replaces the file, whether there was one or not. */
  lemma HealthyLifeReplaces(c: SpecCodec, path: Text, d: Disk, life: Life, d': Disk)
    requires Lives(c, path, d, life, d') && Healthy(life)
    ensures Returns(path, d, life.calls)
    ensures Contents(path, d') == Some(c.enc(Created(c, Contents(path, d), life.run)))
  {
    SucceedsIff(life.calls.faults);
    AtomicAtEveryStep(d, path, life.calls.tmp, NewText(c, path, d, life.run), life.calls.faults);
    hide CallSteps, Created;
  }

  /** Over any history of healthy lives every one of them replaces the file, so that it ends with the ports of the
      last, and with hosts merged from all of them. Without a file at first, key, tunnel and blacklist are
      those of the first life; with one, those that its bytes decode to. */
  lemma HealthyHistory(c: SpecCodec, path: Text, disks: seq<Disk>, lives: seq<Life>)
    requires Lawful(c) && History(c, path, disks, lives) && lives != []
    requires path in disks[0] ==> disks[0][path].synced
    requires forall life <- lives :: Healthy(life)
    ensures var last, runs := lives[|lives| - 1].run, Runs(lives);
            Contents(path, disks[|lives|])
            == Some(c.enc(if path in disks[0] then
                            var found := c.dec(disks[0][path].data).0;
                            Merged(found.wgPrivateKey, found.tunName, found.blackList,
                                   [found.serverHost] + ServerHosts(runs), [found.signalHost] + SignalHosts(runs), last)
                          else
                            var first := lives[0].run;
                            Merged(first.generated, first.tunName, [first.tunName],
                                   ServerHosts(runs), SignalHosts(runs), last)))
  {
    hide Lives, Returns, Created, FileAfter, Merged, ServerHosts, SignalHosts, Runs, Taken;
    var took := FileFollowsRuns(c, path, disks, lives);
    forall i | 0 <= i < |lives|
      ensures took[i]
    {
      assert lives[i] in lives;
      HealthyLifeReplaces(c, path, disks[i], lives[i], disks[i + 1]);
    }
    AllTaken(lives, took);
    RunsEnds(lives);
    if path in disks[0] {
      MergeOverExistingFile(c, disks[0][path].data, Runs(lives));
    } else {
      MergeOverHistory(c, Runs(lives));
    }
  }

  /** Over any history of starts, panics and crashes without a file at first, the file is absent if no start
      has replaced it; otherwise key, tunnel and blacklist are those of the first start that did, each host is
      the last non-empty one supplied by such a start, and each port the last one. */
  lemma MergeSurvivesCrashes(c: SpecCodec, path: Text, disks: seq<Disk>, lives: seq<Life>) returns (took: seq<bool>)
    requires Lawful(c) && History(c, path, disks, lives) && path !in disks[0]
    ensures Faithful(path, disks, lives, took)
    ensures var runs := Taken(lives, took);
            Contents(path, disks[|lives|])
            == if runs == [] then None
               else Some(c.enc(Merged(runs[0].generated, runs[0].tunName, [runs[0].tunName],
                                      ServerHosts(runs), SignalHosts(runs), runs[|runs| - 1])))
  {
    took := FileFollowsRuns(c, path, disks, lives);
    if Taken(lives, took) != [] {
      MergeOverHistory(c, Taken(lives, took));
    }
  }

  class Spec {
    const path: Text
    var wgPrivateKey: Text
    var serverHost: Text
    var serverPort: nat
    var signalHost: Text
    var signalPort: nat
    var tunName: Text
    var preSharedKey: Text
    var blackList: seq<Text>

    ghost function View(): Content
      reads this
    {
      Content(wgPrivateKey, serverHost, serverPort, signalHost, signalPort, tunName, preSharedKey, blackList)
    }

    /** NewSpec sets what the command line gives; the rest is empty. */
    constructor (path: Text, r: Run)
      ensures this.path == path
      ensures View() == Content([], r.serverHost, r.serverPort, r.signalHost, r.signalPort, [], [], [])
    {
      this.path := path;
      wgPrivateKey, tunName, preSharedKey, blackList := [], [], [], [];
      serverHost, serverPort, signalHost, signalPort := r.serverHost, r.serverPort, r.signalHost, r.signalPort;
    }

    /** writeSpec: its preshared-key argument is never stored. Not ok stands for its panic. */
    method WriteSpec(fs: FileSystem, c: SpecCodec, tmp: Text, f: Faults, wgPrivateKey: Text, tunName: Text,
                     serverHost: Text, serverPort: nat, signalHost: Text, signalPort: nat,
                     blackList: seq<Text>, presharedKey: Text)
      returns (ok: bool)
      requires FreshName(fs.files, path, tmp)
      modifies this, fs
      ensures ok == Succeeds(f)
      ensures View() == Content(wgPrivateKey, serverHost, serverPort, signalHost, signalPort, tunName,
                                old(this.preSharedKey), blackList)
      ensures fs.files == AfterWrite(old(fs.files), path, tmp, c.enc(View()), f)
      ensures fs.history == old(fs.history) + CallSteps(old(fs.files), path, tmp, c.enc(View()), f)
    {
      this.serverHost := serverHost;
      this.serverPort := serverPort;
      this.signalHost := signalHost;
      this.signalPort := signalPort;
      this.wgPrivateKey := wgPrivateKey;
      this.tunName := tunName;
      this.blackList := blackList;
      var text := c.enc(Content(wgPrivateKey, serverHost, serverPort, signalHost, signalPort, tunName,
                                this.preSharedKey, blackList));
      ok := fs.AtomicWriteFile(path, text, tmp, f);
    }

    /** CreateSpec, on the object that NewSpec has just made for this run. Not ok stands for its panic. */
    method CreateSpec(fs: FileSystem, c: SpecCodec, r: Run, o: Calls) returns (ok: bool)
      requires FreshName(fs.files, path, o.tmp)
      requires View() == Content([], r.serverHost, r.serverPort, r.signalHost, r.signalPort, [], [], [])
      modifies this, fs
      ensures ok <==> (if path in old(fs.files) then o.readOk else o.keyOk) && NothingFails(o.faults)
      ensures ok <==> Returns(path, old(fs.files), o)
      ensures ok ==> View() == Created(c, Contents(path, old(fs.files)), r)
      ensures ok ==> fs.files == old(fs.files)[path := File(c.enc(View()), true)]
      ensures !ok ==> SameAt(old(fs.files), fs.files, path)
      ensures fs.history == old(fs.history) + LaunchCalls(c, path, old(fs.files), r, o)
      ensures fs.files == Last([old(fs.files)] + LaunchCalls(c, path, old(fs.files), r, o))
    {
      hide CallSteps;
      ghost var d := fs.files;
      if path !in fs.files {
        if !o.keyOk {
          return false;
        }
        ok := WriteSpec(fs, c, o.tmp, o.faults, r.generated, r.tunName, serverHost, serverPort,
                        signalHost, signalPort, [r.tunName], []);
      } else if !o.readOk {
        return false;
      } else {
        var found := c.dec(fs.files[path].data).0;
        var server := if serverHost == [] then found.serverHost else serverHost;
        var signal := if signalHost == [] then found.signalHost else signalHost;
        ok := WriteSpec(fs, c, o.tmp, o.faults, found.wgPrivateKey, found.tunName, server, serverPort,
                        signal, signalPort, found.blackList, []);
      }
      AtomicAtEveryStep(d, path, o.tmp, c.enc(View()), o.faults);
      assert c.enc(View()) == NewText(c, path, d, r);
    }
  }

  /** A whole start on the objects passes through the disk states of a life. */
  method Launch(fs: FileSystem, path: Text, c: SpecCodec, r: Run, o: Calls) returns (s: Spec, ok: bool)
    requires FreshName(fs.files, path, o.tmp)
    modifies fs
    ensures fresh(s)
    ensures ok <==> Returns(path, old(fs.files), o)
    ensures fs.history == old(fs.history) + LaunchCalls(c, path, old(fs.files), r, o)
    ensures Lives(c, path, old(fs.files), Life(r, o, None), fs.files)
  {
    s := new Spec(path, r);
    ok := s.CreateSpec(fs, c, r, o);
  }
}
