/**
  The discovery pass of the backup service: it fills the shared table with the files it meets, then
  with the directories in key order, and the event handler later looks a directory up in that table.
 */
module Discovery {
  import opened CStrings
  import opened Wrappers
  import opened HashSpec
  import opened HashTable
  import opened StopFlag

  /** What a traversal step reports: a regular file, a directory before its contents, or anything else. */
  datatype Kind = File | Directory | OtherKind
  datatype FtsEntry = FtsEntry(kind: Kind, path: CStr)

  /** The paths of one kind, in traversal order. */
  function PathsOf(entries: seq<FtsEntry>, kind: Kind): seq<CStr> {
    if entries == [] then []
    else PathsOf(entries[..|entries| - 1], kind)
         + if entries[|entries| - 1].kind == kind then [entries[|entries| - 1].path] else []
  }

  /** The values in slots 0, ..., hi - 1, in increasing key order. */
  function InKeyOrder(vals: seq<CStr>, hi: nat): seq<CStr> {
    if hi == 0 then [] else InKeyOrder(vals, hi - 1) + InSlot(vals, hi - 1)
  }

  function InSlot(vals: seq<CStr>, k: nat): seq<CStr> {
    match Slot(vals, k) case None => [] case Some(v) => [v]
  }

  /** The directories among `dirs` that get a watch: all but those that are a prefix of the root. */
  function Watched(dirs: seq<CStr>, root: CStr): seq<CStr> {
    if dirs == [] then []
    else
      var d := dirs[|dirs| - 1];
      Watched(dirs[..|dirs| - 1], root) + if StrncmpEqual(d, root, |d|) then [] else [d]
  }

  /** The shared table after a pass over `entries`. */
  ghost function Discovered(shared: seq<CStr>, entries: seq<FtsEntry>): seq<CStr> {
    Replay(Replay(shared, PathsOf(entries, File)), Retained(entries))
  }

  /** Visiting one more entry inserts its path if it is of the kind, and nothing otherwise. */
  lemma PathsStep(entries: seq<FtsEntry>, n: nat, vals: seq<CStr>, kind: Kind)
    requires n < |entries|
    ensures Replay(vals, PathsOf(entries[..n + 1], kind)) ==
            var before := Replay(vals, PathsOf(entries[..n], kind));
            if entries[n].kind == kind then HashSpec.Insert(before, entries[n].path) else before
  {
    var h := PathsOf(entries[..n], kind);
    assert entries[..n + 1][..n] == entries[..n];
    assert h + [] == h;
    assert (h + [entries[n].path])[..|h|] == h;
  }

  lemma NoPaths(entries: seq<FtsEntry>, vals: seq<CStr>, kind: Kind)
    ensures Replay(vals, PathsOf(entries[..0], kind)) == vals
  {
  }

  class Traversal {
    var running: bool             // the stop flag
    var looks: nat                // how often the flag has been looked at
    var watches: seq<CStr>        // successful inotify_add_watch calls, in order
    const entries: seq<FtsEntry>  // what fts_read will report
    const signals: Signals        // when the signal arrives

    constructor (entries: seq<FtsEntry>, signals: Signals)
      ensures running && looks == 0 && watches == [] && this.entries == entries && this.signals == signals
    {
      running, looks, watches := true, 0, [];
      this.entries, this.signals := entries, signals;
    }

    method KeepRunning() returns (b: bool)
      modifies this`running, this`looks
      ensures looks == old(looks) + 1
      ensures b == running == (old(running) && !signals(old(looks)))
    {
      if signals(looks) {
        running := false;
      }
      looks := looks + 1;
      b := running;
    }

    /** One traversal step: a file goes to the shared table, a directory to the private one. */
    method Visit(e: FtsEntry, shared: HashTable, dirs: HashTable)
      requires shared.Valid() && dirs.Valid() && shared.repr !! dirs.repr
      modifies shared.repr, dirs.repr
      ensures shared.Valid() && dirs.Valid() && shared.repr !! dirs.repr
      ensures fresh(shared.repr - old(shared.repr)) && fresh(dirs.repr - old(dirs.repr))
      ensures shared.Values() ==
              if e.kind == File then HashSpec.Insert(old(shared.Values()), e.path) else old(shared.Values())
      ensures dirs.Values() ==
              if e.kind == Directory then HashSpec.Insert(old(dirs.Values()), e.path) else old(dirs.Values())
    {
      match e.kind
      case File => var _ := shared.Insert(Some(e.path));
      case Directory => var _ := dirs.Insert(Some(e.path));
      case OtherKind =>
    }

    /** The traversal loop, which a signal may stop after any number of entries, and nothing else before the last. */
    method ReadEntries(shared: HashTable, dirs: HashTable) returns (ghost n: nat)
      requires shared.Valid() && dirs.Valid() && shared.repr !! dirs.repr
      requires this !in shared.repr && this !in dirs.repr
      modifies this`running, this`looks, shared.repr, dirs.repr
      ensures shared.Valid() && dirs.Valid() && shared.repr !! dirs.repr
      ensures this !in shared.repr && this !in dirs.repr
      ensures fresh(shared.repr - old(shared.repr)) && fresh(dirs.repr - old(dirs.repr))
      ensures n <= |entries| && looks == old(looks) + n + 1
      ensures running <==> old(running) && Silent(signals, old(looks), looks)
      ensures n < |entries| ==> !running
      ensures n > 0 ==> old(running) && Silent(signals, old(looks), looks - 1)
      ensures shared.Values() == Replay(old(shared.Values()), PathsOf(entries[..n], File))
      ensures dirs.Values() == Replay(old(dirs.Values()), PathsOf(entries[..n], Directory))
    {
      hide *;
      NoPaths(entries, old(shared.Values()), File);
      NoPaths(entries, old(dirs.Values()), Directory);
      SilentNext(signals, looks, looks);
      n := 0;
      var i := 0;
      var go := KeepRunning();
      while go && i < |entries|
        invariant shared.Valid() && dirs.Valid() && shared.repr !! dirs.repr
        invariant this !in shared.repr && this !in dirs.repr
        invariant fresh(shared.repr - old(shared.repr)) && fresh(dirs.repr - old(dirs.repr))
        invariant n == i <= |entries| && go == running && looks == old(looks) + n + 1
        invariant running <==> old(running) && Silent(signals, old(looks), looks)
        invariant n > 0 ==> old(running) && Silent(signals, old(looks), looks - 1)
        invariant shared.Values() == Replay(old(shared.Values()), PathsOf(entries[..n], File))
        invariant dirs.Values() == Replay(old(dirs.Values()), PathsOf(entries[..n], Directory))
      {
        PathsStep(entries, n, old(shared.Values()), File);
        PathsStep(entries, n, old(dirs.Values()), Directory);
        Visit(entries[i], shared, dirs);
        i := i + 1;
        n := n + 1;
        SilentNext(signals, old(looks), looks);
        go := KeepRunning();
      }
    }

    /** Adds a watch; it is assumed to succeed. */
    method WatchDir(dir: CStr)
      modifies this`watches
      ensures watches == old(watches) + [dir]
    {
      watches := watches + [dir];
    }

    /** Watches and publishes the directory in slot i, if there is one; the root gets no watch. */
    method PublishSlot(i: nat, shared: HashTable, dirs: HashTable, root: CStr)
      requires shared.Valid() && dirs.Valid() && shared.repr !! dirs.repr && i < dirs.size
      requires this !in shared.repr && this !in dirs.repr
      modifies this`watches, shared.repr
      ensures shared.Valid() && fresh(shared.repr - old(shared.repr))
      ensures watches == old(watches) + Watched(InSlot(dirs.Values(), i), root)
      ensures shared.Values() == Replay(old(shared.Values()), InSlot(dirs.Values(), i))
    {
      hide *;
      dirs.ValuesWellFormed();
      if i == 0 {
        LowSlotsFree(dirs.Values(), 0);
      }
      var item := dirs.Search(i, None);
      if item == null {
        FreeSlot(dirs.Values(), i, root, watches, shared.Values());
      } else {
        TakenSlot(dirs.Values(), i, root, watches, shared.Values());
        if !StrncmpEqual(item.value, root, |item.value|) {
          WatchDir(item.value);
        }
        var _ := shared.Insert(Some(item.value));
      }
    }

    /** The loop over the directory table, in key order. */
    method WatchAndPublish(shared: HashTable, dirs: HashTable, root: CStr)
      requires shared.Valid() && dirs.Valid() && shared.repr !! dirs.repr
      requires this !in shared.repr && this !in dirs.repr
      modifies this`watches, shared.repr
      ensures shared.Valid() && fresh(shared.repr - old(shared.repr)) && this !in shared.repr
      ensures watches == old(watches) + Watched(InKeyOrder(dirs.Values(), TABLE_SIZE), root)
      ensures shared.Values() == Replay(old(shared.Values()), InKeyOrder(dirs.Values(), TABLE_SIZE))
    {
      hide *;
      dirs.ValuesWellFormed();
      ghost var d, w0, s0 := dirs.Values(), watches, shared.Values();
      KeyOrderStart(d, root, w0, s0);
      for i := 0 to dirs.size
        invariant shared.Valid() && dirs.Valid() && shared.repr !! dirs.repr
        invariant this !in shared.repr && this !in dirs.repr
        invariant fresh(shared.repr - old(shared.repr)) && dirs.Values() == d
        invariant watches == w0 + Watched(InKeyOrder(d, i), root)
        invariant shared.Values() == Replay(s0, InKeyOrder(d, i))
      {
        PublishSlot(i, shared, dirs, root);
        KeyOrderStep(d, i, root, w0, s0);
      }
    }

    /** The whole pass; `n` is how many entries were read before the flag fell, if it did. */
    method CheckFsAndRun(shared: HashTable, root: CStr, rootOpened: bool, hasChildren: bool, inotifyFd: int)
      returns (rc: int, ghost n: nat)
      requires shared.Valid() && this !in shared.repr
      modifies this`running, this`looks, this`watches, shared.repr
      ensures shared.Valid() && fresh(shared.repr - old(shared.repr)) && this !in shared.repr
      ensures rc == if rootOpened then 0 else -1
      ensures looks >= old(looks) && (running <==> old(running) && Silent(signals, old(looks), looks))
      ensures n <= |entries| && (running && rootOpened && hasChildren ==> n == |entries|)
      ensures rootOpened && hasChildren && inotifyFd > 0 ==>
                && shared.Values() == Discovered(old(shared.Values()), entries[..n])
                && watches == old(watches) + Watched(Retained(entries[..n]), root)
      ensures rootOpened && hasChildren && inotifyFd <= 0 ==>
                shared.Values() == Replay(old(shared.Values()), PathsOf(entries[..n], File))
      ensures !rootOpened || !hasChildren ==> shared.Values() == old(shared.Values())
      ensures inotifyFd <= 0 || !rootOpened || !hasChildren ==> watches == old(watches)
    {
      hide *;
      SilentNext(signals, looks, looks);
      n := 0;
      var dirs := new HashTable();
      if !rootOpened {
        return -1, 0;
      }
      if !hasChildren {
        return 0, 0;
      }
      n := ReadEntries(shared, dirs);
      if inotifyFd > 0 {
        WatchAndPublish(shared, dirs, root);
        DiscoveredMeans(old(shared.Values()), entries[..n]);
      }
      return 0, n;
    }
  }

  /** The directories kept by the private table, in key order. */
  ghost function Retained(entries: seq<FtsEntry>): seq<CStr> {
    InKeyOrder(Replay([], PathsOf(entries, Directory)), TABLE_SIZE)
  }

  lemma DiscoveredMeans(shared: seq<CStr>, entries: seq<FtsEntry>)
    ensures Retained(entries) == InKeyOrder(Replay([], PathsOf(entries, Directory)), TABLE_SIZE)
    ensures Discovered(shared, entries) == Replay(Replay(shared, PathsOf(entries, File)), Retained(entries))
  {
  }

  lemma KeyOrderStart(vals: seq<CStr>, root: CStr, watches: seq<CStr>, shared: seq<CStr>)
    ensures watches + Watched(InKeyOrder(vals, 0), root) == watches
    ensures Replay(shared, InKeyOrder(vals, 0)) == shared
  {
  }

  /** One more slot extends the watches and the insertions by what the slot holds. */
  lemma KeyOrderStep(vals: seq<CStr>, i: nat, root: CStr, watches: seq<CStr>, shared: seq<CStr>)
    ensures watches + Watched(InKeyOrder(vals, i + 1), root) ==
            (watches + Watched(InKeyOrder(vals, i), root)) + Watched(InSlot(vals, i), root)
    ensures Replay(shared, InKeyOrder(vals, i + 1)) == Replay(Replay(shared, InKeyOrder(vals, i)), InSlot(vals, i))
  {
    var before, here := InKeyOrder(vals, i), InSlot(vals, i);
    ReplayAppend(shared, before, here);
    WatchedAppend(before, here, root);
  }

  lemma FreeSlot(vals: seq<CStr>, i: nat, root: CStr, watches: seq<CStr>, shared: seq<CStr>)
    requires Slot(vals, i).None?
    ensures watches + Watched(InSlot(vals, i), root) == watches
    ensures Replay(shared, InSlot(vals, i)) == shared
  {
  }

  lemma TakenSlot(vals: seq<CStr>, i: nat, root: CStr, watches: seq<CStr>, shared: seq<CStr>)
    requires Slot(vals, i).Some?
    ensures var d := Slot(vals, i).value;
      && watches + Watched(InSlot(vals, i), root) ==
           (if StrncmpEqual(d, root, |d|) then watches else watches + [d])
      && Replay(shared, InSlot(vals, i)) == HashSpec.Insert(shared, d)
  {
    assert [Slot(vals, i).value][..0] == [];
    hide Slot, HashSpec.Insert, StrncmpEqual;
  }

  lemma WatchedAppend(a: seq<CStr>, b: seq<CStr>, root: CStr)
    requires |b| <= 1
    ensures Watched(a + b, root) == Watched(a, root) + Watched(b, root)
  {
    if b == [] {
      assert a + b == a;
    } else {
      assert (a + b)[..|a|] == a && b[..0] == [];
    }
  }

  // ---------- The retained directories ----------

  ghost predicate Ascending(vals: seq<CStr>) {
    forall i, j :: 0 <= i < j < |vals| ==> Key(vals[i]) < Key(vals[j])
  }

  /** Key order lists exactly the values of the table, by strictly increasing key. */
  lemma {:induction false} KeyOrderMeaning(vals: seq<CStr>, hi: nat)
    requires WellFormed(vals)
    ensures var d := InKeyOrder(vals, hi);
      && Ascending(d)
      && (forall i :: 0 <= i < |d| ==> d[i] in vals && Key(d[i]) < hi)
      && (forall v :: v in vals && Key(v) < hi ==> v in d)
  {
    if hi > 0 {
      KeyOrderMeaning(vals, hi - 1);
      SlotMeaning(vals, hi - 1);
      hide Slot, Storable;
      forall v | v in vals && Key(v) == hi - 1 ensures v in InKeyOrder(vals, hi) {
        var i :| 0 <= i < |vals| && vals[i] == v;
        SlotOf(vals, i);
        assert v in InSlot(vals, hi - 1);
      }
    }
  }

  lemma RetainedOrder(entries: seq<FtsEntry>)
    ensures Ascending(Retained(entries))
    ensures forall i :: 0 <= i < |Retained(entries)| ==> Storable(Retained(entries)[i])
    ensures forall v :: v in Retained(entries) <==> v in Replay([], PathsOf(entries, Directory))
  {
    var kept := Replay([], PathsOf(entries, Directory));
    ReplayKeepsWellFormed([], PathsOf(entries, Directory));
    KeyOrderMeaning(kept, TABLE_SIZE);
    forall i | 0 <= i < |Retained(entries)| ensures Storable(Retained(entries)[i]) {
      assert Retained(entries)[i] in kept;
    }
  }

  /** The retained directories, in increasing key order, are those that were the first with their key. */
  lemma RetainedMeaning(entries: seq<FtsEntry>, v: CStr)
    ensures Ascending(Retained(entries))
    ensures v in Retained(entries) <==> WonItsKey(PathsOf(entries, Directory), v)
  {
    var dirs := PathsOf(entries, Directory);
    RetainedOrder(entries);
    ReplayKeepsWellFormed([], dirs);
    SearchFindsFirst(dirs, v);
    InTable(Replay([], dirs), v);
  }

  lemma InTable(vals: seq<CStr>, v: CStr)
    requires WellFormed(vals)
    ensures v in vals <==> Slot(vals, Key(v)) == Some(v)
  {
    SlotMeaning(vals, Key(v));
    if v in vals {
      var i :| 0 <= i < |vals| && vals[i] == v;
      SlotOf(vals, i);
    }
  }

  // ---------- The watches ----------

  lemma {:induction false} WatchedMeaning(dirs: seq<CStr>, root: CStr)
    requires Ascending(dirs)
    ensures Ascending(Watched(dirs, root))
    ensures forall d :: d in Watched(dirs, root) <==> d in dirs && !(d <= root)
  {
    if dirs != [] {
      var n := |dirs| - 1;
      WatchedMeaning(dirs[..n], root);
      StrncmpIsPrefix(dirs[n], root);
      var w := Watched(dirs[..n], root);
      forall i | 0 <= i < |w| ensures Key(w[i]) < Key(dirs[n]) {
        assert w[i] in dirs[..n];
      }
      assert dirs == dirs[..n] + [dirs[n]];
    }
  }

  lemma {:induction false} NoRepeats(vals: seq<CStr>, v: CStr)
    requires Ascending(vals)
    ensures multiset(vals)[v] <= 1
  {
    if vals != [] {
      var n := |vals| - 1;
      NoRepeats(vals[..n], v);
      assert vals == vals[..n] + [vals[n]];
      if v == vals[n] {
        assert forall i :: 0 <= i < n ==> vals[..n][i] != v;
        assert v !in vals[..n];
      }
    }
  }

  /** Where every path starts with the root, each retained directory but the root is watched exactly once. */
  lemma {:induction false} WatchedExactlyOnce(entries: seq<FtsEntry>, root: CStr, d: CStr)
    requires d in Retained(entries) ==> root <= d
    ensures multiset(Watched(Retained(entries), root))[d] == if d in Retained(entries) && d != root then 1 else 0
  {
    RetainedOrder(entries);
    WatchedMeaning(Retained(entries), root);
    NoRepeats(Watched(Retained(entries), root), d);
    assert d in Watched(Retained(entries), root) <==> d in multiset(Watched(Retained(entries), root));
  }

  // ---------- The shared chain ----------

  /** The directories whose key no file holds. */
  function NotHeld(files: seq<CStr>, dirs: seq<CStr>): seq<CStr> {
    if dirs == [] then []
    else NotHeld(files, dirs[..|dirs| - 1])
         + if Slot(files, Key(dirs[|dirs| - 1])).None? then [dirs[|dirs| - 1]] else []
  }

  lemma {:induction false} NotHeldMeaning(files: seq<CStr>, dirs: seq<CStr>)
    requires Ascending(dirs)
    ensures Ascending(NotHeld(files, dirs))
    ensures forall d :: d in NotHeld(files, dirs) <==> d in dirs && Slot(files, Key(d)).None?
  {
    if dirs != [] {
      var n := |dirs| - 1;
      NotHeldMeaning(files, dirs[..n]);
      var kept := NotHeld(files, dirs[..n]);
      forall i | 0 <= i < |kept| ensures Key(kept[i]) < Key(dirs[n]) {
        assert kept[i] in dirs[..n];
      }
      assert dirs == dirs[..n] + [dirs[n]];
    }
  }

  /** A slot of a concatenation is the first part's, and else the second part's. */
  lemma {:induction false} SlotAppend(a: seq<CStr>, b: seq<CStr>, k: nat)
    ensures Slot(a + b, k) == if Slot(a, k).Some? then Slot(a, k) else Slot(b, k)
  {
    if b == [] {
      assert a + b == a;
    } else {
      assert (a + b)[..|a + b| - 1] == a + b[..|b| - 1];
      SlotAppend(a, b[..|b| - 1], k);
    }
  }

  /** Inserting directories in key order appends those whose key no file holds. */
  lemma {:induction false} InsertDirs(files: seq<CStr>, dirs: seq<CStr>)
    requires WellFormed(files) && Ascending(dirs) && forall i :: 0 <= i < |dirs| ==> Storable(dirs[i])
    ensures Replay(files, dirs) == files + NotHeld(files, dirs)
  {
    if dirs != [] {
      var n := |dirs| - 1;
      var before, d := dirs[..n], dirs[n];
      InsertDirs(files, before);
      ReplayKeepsWellFormed(files, before);
      CountBound(Replay(files, before));
      SlotAppend(files, NotHeld(files, before), Key(d));
      NotHeldMeaning(files, before);
      SlotMeaning(NotHeld(files, before), Key(d));
      hide Slot, Key;
      forall v | v in NotHeld(files, before) ensures Key(v) != Key(d) {
        assert v in before;
      }
      assert Replay(files, dirs) == Insert(files + NotHeld(files, before), d);
    } else {
      assert files + [] == files;
    }
  }

  /**
    After a pass over an empty shared table, the chain is the first-wins list of files in traversal
    order, then the retained directories in increasing key order whose key no file holds.
   */
  lemma ChainAfterDiscovery(entries: seq<FtsEntry>)
    ensures var files := Winners(PathsOf(entries, File));
      Discovered([], entries) == files + NotHeld(files, Retained(entries))
  {
    StoredAreWinners(PathsOf(entries, File));
    ReplayKeepsWellFormed([], PathsOf(entries, File));
    RetainedOrder(entries);
    InsertDirs(Replay([], PathsOf(entries, File)), Retained(entries));
  }

  // ---------- The handler's lookup ----------

  /** What opening a path and scanning it for the event's file name gives. */
  datatype Scan = CannotOpen | Lacks | Contains

  datatype Choice = NoChoice | Chosen(path: CStr) | GaveUp(path: CStr)

  /** The newest entry that is not an opened directory without the name decides. */
  function Lookup(vals: seq<CStr>, scan: CStr -> Scan): Choice {
    if vals == [] then NoChoice
    else
      var newest := vals[|vals| - 1];
      match scan(newest)
      case CannotOpen => GaveUp(newest)
      case Contains => Chosen(newest)
      case Lacks => Lookup(vals[..|vals| - 1], scan)
  }

  class ThreadArgument {
    var pathToDir: CStr
    const table: HashTable

    constructor (pathToDir: CStr, table: HashTable)
      ensures this.pathToDir == pathToDir && this.table == table
    {
      this.pathToDir := pathToDir;
      this.table := table;
    }

    /** The walk of the event handler, which remembers the directory it chose. */
    method ChooseDirectory(scan: CStr -> Scan) returns (choice: Choice)
      requires table.Valid()
      modifies this`pathToDir
      ensures choice == Lookup(table.Values(), scan)
      ensures pathToDir == if choice.Chosen? then choice.path else old(pathToDir)
    {
      hide *;
      var hi := table.node;
      ghost var left: nat := |table.chain|;
      ghost var vals := table.Values();
      table.AtNewest();
      assert vals[..left] == vals;
      while hi != null
        invariant left <= |table.chain| == |vals| && vals == table.Values() && table.Valid()
        invariant hi == if left == 0 then null else table.chain[left - 1]
        invariant Lookup(vals, scan) == Lookup(vals[..left], scan)
        invariant pathToDir == old(pathToDir)
        decreases left
      {
        table.AtItem(left - 1);
        LookupStep(vals, left, scan);
        match scan(hi.value)
        case Lacks =>
          hi := hi.previous;
          left := left - 1;
        case Contains =>
          pathToDir := hi.value;
          return Chosen(hi.value);
        case CannotOpen =>
          return GaveUp(hi.value);
      }
      LookupNothing(vals[..left], scan);
      return NoChoice;
    }
  }

  lemma LookupNothing(vals: seq<CStr>, scan: CStr -> Scan)
    requires vals == []
    ensures Lookup(vals, scan) == NoChoice
  {
  }

  lemma LookupStep(vals: seq<CStr>, left: nat, scan: CStr -> Scan)
    requires 0 < left <= |vals|
    ensures Lookup(vals[..left], scan) ==
            match scan(vals[left - 1])
            case CannotOpen => GaveUp(vals[left - 1])
            case Contains => Chosen(vals[left - 1])
            case Lacks => Lookup(vals[..left - 1], scan)
  {
    assert vals[..left][..left - 1] == vals[..left - 1];
  }

  // ---------- The choice after a discovery pass ----------

  /** The directories with larger keys were opened and do not hold the name. */
  ghost predicate LargerLack(dirs: seq<CStr>, scan: CStr -> Scan, path: CStr) {
    forall d :: d in dirs && Key(d) > Key(path) ==> scan(d) == Lacks
  }

  ghost predicate AllLack(dirs: seq<CStr>, scan: CStr -> Scan) {
    forall d :: d in dirs ==> scan(d) == Lacks
  }

  /** Directory `path` is the one at which the lookup stops. */
  ghost predicate Stops(dirs: seq<CStr>, scan: CStr -> Scan, path: CStr) {
    path in dirs && scan(path) != Lacks && LargerLack(dirs, scan, path)
  }

  /**
    A directory is chosen exactly when it matches and every one with a larger key is open and lacks
    the name. A directory that cannot be opened stops the lookup in the same way; if no directory
    does either, the newest file stops it.
   */
  ghost predicate ChoiceOk(files: seq<CStr>, dirs: seq<CStr>, scan: CStr -> Scan, choice: Choice) {
    && (forall path :: choice == Chosen(path) <==> Stops(dirs, scan, path) && scan(path) == Contains)
    && (forall path :: choice == GaveUp(path) <==>
          || (Stops(dirs, scan, path) && scan(path) == CannotOpen)
          || (AllLack(dirs, scan) && files != [] && path == files[|files| - 1]))
    && (choice == NoChoice <==> AllLack(dirs, scan) && files == [])
  }

  /** Directories are looked at before any file, by decreasing key. */
  lemma {:induction false} DirectoriesFirst(files: seq<CStr>, dirs: seq<CStr>, scan: CStr -> Scan)
    requires Ascending(dirs)
    requires forall f :: f in files ==> scan(f) == CannotOpen
    ensures ChoiceOk(files, dirs, scan, Lookup(files + dirs, scan))
  {
    if dirs == [] {
      assert files + dirs == files;
      FilesStopLookup(files, scan);
    } else {
      var n := |dirs| - 1;
      assert files + dirs == (files + dirs[..n]) + [dirs[n]] && dirs == dirs[..n] + [dirs[n]];
      DirectoriesFirst(files, dirs[..n], scan);
      NewestIsLargest(dirs);
      hide *;
      LookupSnoc(files + dirs[..n], dirs[n], scan);
      if scan(dirs[n]) == Lacks {
        OlderChoice(files, dirs[..n], dirs[n], scan, Lookup(files + dirs[..n], scan));
      } else {
        NewestChoice(files, dirs[..n], dirs[n], scan);
      }
    }
  }

  lemma FilesStopLookup(files: seq<CStr>, scan: CStr -> Scan)
    requires forall f :: f in files ==> scan(f) == CannotOpen
    ensures ChoiceOk(files, [], scan, Lookup(files, scan))
  {
    hide Key;
    assert files != [] ==> files[|files| - 1] in files;
  }

  lemma OlderChoice(files: seq<CStr>, dirs: seq<CStr>, d: CStr, scan: CStr -> Scan, choice: Choice)
    requires ChoiceOk(files, dirs, scan, choice) && scan(d) == Lacks
    ensures ChoiceOk(files, dirs + [d], scan, choice)
  {
    hide Key;
    forall path ensures Stops(dirs + [d], scan, path) <==> Stops(dirs, scan, path) {
    }
    assert AllLack(dirs + [d], scan) <==> AllLack(dirs, scan) by {
      assert forall e :: e in dirs + [d] <==> e in dirs || e == d;
    }
    hide Stops, AllLack;
  }

  lemma NewestChoice(files: seq<CStr>, dirs: seq<CStr>, d: CStr, scan: CStr -> Scan)
    requires scan(d) != Lacks && forall e :: e in dirs ==> Key(e) < Key(d)
    ensures ChoiceOk(files, dirs + [d], scan, if scan(d) == Contains then Chosen(d) else GaveUp(d))
  {
    hide Key;
    assert d in dirs + [d];
    forall path ensures Stops(dirs + [d], scan, path) <==> path == d {
    }
    hide Stops;
  }

  lemma LookupSnoc(vals: seq<CStr>, newest: CStr, scan: CStr -> Scan)
    ensures Lookup(vals + [newest], scan) ==
            match scan(newest)
            case CannotOpen => GaveUp(newest)
            case Contains => Chosen(newest)
            case Lacks => Lookup(vals, scan)
  {
    assert (vals + [newest])[..|vals|] == vals;
  }

  lemma NewestIsLargest(dirs: seq<CStr>)
    requires dirs != [] && Ascending(dirs)
    ensures forall d :: d in dirs[..|dirs| - 1] ==> Key(d) < Key(dirs[|dirs| - 1])
  {
    hide Key;
    forall d | d in dirs[..|dirs| - 1] ensures Key(d) < Key(dirs[|dirs| - 1]) {
      var i :| 0 <= i < |dirs| - 1 && dirs[i] == d;
    }
  }

  /** The lookup that follows a discovery pass over an empty table; directories may have gone since. */
  lemma {:induction false} LookupAfterDiscovery(entries: seq<FtsEntry>, scan: CStr -> Scan)
    requires forall f :: f in PathsOf(entries, File) ==> scan(f) == CannotOpen
    ensures var files := Winners(PathsOf(entries, File));
      ChoiceOk(files, NotHeld(files, Retained(entries)), scan, Lookup(Discovered([], entries), scan))
  {
    var files := Winners(PathsOf(entries, File));
    StoredAreWinners(PathsOf(entries, File));
    ChainAfterDiscovery(entries);
    RetainedOrder(entries);
    NotHeldMeaning(files, Retained(entries));
    ReplayAddsOnly([], PathsOf(entries, File));
    hide *;
    DirectoriesFirst(files, NotHeld(files, Retained(entries)), scan);
  }

  lemma {:induction false} ReplayAddsOnly(vals: seq<CStr>, history: seq<CStr>)
    ensures forall v :: v in Replay(vals, history) ==> v in vals || v in history
  {
    if history != [] {
      ReplayAddsOnly(vals, history[..|history| - 1]);
    }
  }
}
