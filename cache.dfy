/** The cache reconciliation of `EclassAddon.update_cache` (src/pkgcheck/eclass.py:467-525).

    The reconciler keeps a map from eclass name to parsed `Eclass`.  It loads the
    map left by the previous run, drops the entries whose file has gone, re-parses
    every live eclass, in sorted name order, that is uncached or whose modification
    time changed, and asks for the map to be written back only when it is non-empty
    and something changed.

    The filesystem is a value: a map from path to the file's modification time and
    its lines, or `None` when opening or reading it raises an `IOError`.  The pickled
    cache is the `Stored` value the load produced.  The parser is a parameter of the
    specification, so that its properties hold for any parser; the class instantiates
    it with `DocumentSpec`.
 */
module EclassCache {
  import opened Outcomes
  import opened Text
  import opened Document

  /** One file: its modification time and, when it can be read, its lines. */
  datatype File = File(mtime: int, text: Option<seq<string>>)

  type FileSystem = map<string, File>

  /** Eclass name to cached eclass: the `eclasses` dictionary. */
  type Cache = map<string, Eclass>

  /** What loading the pickled cache gave: no file, a corrupt file, or a cache object with
      its version.  `Corrupt` is any of the four exceptions line 493 catches when
      `pickle.load` raises them, including an `AttributeError` for a pickled class that is
      gone: `eclasses` stays empty.  Only an `AttributeError` from `eclasses.version` at
      line 488 leaves the unpickled object bound (line 487), and that load is a `Stored`
      whose version differs from `CacheVersion`. */
  datatype Stored = Missing | Corrupt | Stored(version: int, entries: Cache)

  /** `CacheData(..., version=1)`. */
  const CacheVersion := 1

  /** The parser of eclass documentation, `Eclass.parse` on a file's lines. */
  type Parser = seq<string> -> Outcome<Document>

  /** The map under reconciliation and the `cache_eclasses` flag. */
  datatype State = State(eclasses: Cache, dirty: bool)

  function Lookup(c: Cache, n: string): Option<Eclass> {
    if n in c then Some(c[n]) else None
  }

  /** Two caches that agree on every name are equal. */
  lemma LookupExtensional(a: Cache, b: Cache)
    requires forall n :: Lookup(a, n) == Lookup(b, n)
    ensures a == b
  {
    forall n | n in a ensures n in b && a[n] == b[n] {
      assert Lookup(a, n) == Lookup(b, n);
    }
    forall n | n in b ensures n in a {
      assert Lookup(a, n) == Lookup(b, n);
    }
  }

  // ---------------------------------------------------------------------------
  // Loading

  /** The map the reconciler starts from.  A version mismatch removes the cache file but
      does not clear the loaded map, so its entries are reconciled like current ones; the
      second ensures names that: a stored map is kept whatever its version. */
  function Loaded(force: bool, stored: Stored): (c: Cache)
    ensures (force || !stored.Stored?) ==> c == map[]
    ensures !force && stored.Stored? ==> c == stored.entries
  {
    if force || !stored.Stored? then map[] else stored.entries
  }

  /** Whether the load calls `os.remove` on the cache file: on a corrupt file and on an
      outdated version, never when forced or when there is no file. */
  predicate CacheFileRemoved(force: bool, stored: Stored) {
    !force && (stored.Corrupt? || (stored.Stored? && stored.version != CacheVersion))
  }

  // ---------------------------------------------------------------------------
  // The removal pass (lines 498-501)

  /** Some cached entry's file no longer exists. */
  predicate Removed(c: Cache, fs: FileSystem) {
    exists n :: n in c && c[n].path !in fs
  }

  /** The cache once the entries whose file is gone are deleted; membership in the live
      set plays no part. */
  function Prune(c: Cache, fs: FileSystem): (r: Cache)
    ensures forall n :: n in r ==> n in c && r[n] == c[n] && r[n].path in fs
    ensures forall n :: n in c && c[n].path in fs ==> n in r
  {
    map n | n in c && c[n].path in fs :: c[n]
  }

  /** The removal pass deletes something exactly when some entry's file is gone, and leaves
      a cache whose paths all exist alone. */
  lemma PruneRemoves(c: Cache, fs: FileSystem)
    ensures Prune(c, fs) != c <==> Removed(c, fs)
    ensures (forall n :: n in c ==> c[n].path in fs) ==> Prune(c, fs) == c
  {
    if Removed(c, fs) {
      var n :| n in c && c[n].path !in fs;
      assert n !in Prune(c, fs);
    } else {
      forall n ensures Lookup(Prune(c, fs), n) == Lookup(c, n) {
      }
      LookupExtensional(Prune(c, fs), c);
    }
  }

  // ---------------------------------------------------------------------------
  // The update pass (lines 503-513)

  /** What `Eclass(path)` does: parse the file's lines and record its modification time;
      an `IOError` or a parsing error is skipped, any other exception is raised. */
  datatype Attempted = Reloaded(eclass: Eclass) | Skipped | Raised(site: CrashSite)

  function Attempt(fs: FileSystem, path: string, parse: Parser): (a: Attempted)
    requires path in fs
    ensures a.Reloaded? <==> fs[path].text.Some? && parse(fs[path].text.value).Ok?
    ensures a.Reloaded? ==> a.eclass == Eclass(path, fs[path].mtime, parse(fs[path].text.value).value)
    ensures a.Raised? <==> fs[path].text.Some? && parse(fs[path].text.value).Crash?
    ensures a.Raised? ==> a.site == parse(fs[path].text.value).site
  {
    match fs[path].text
    case None => Skipped
    case Some(lines) =>
      match parse(lines)
      case Ok(d) => Reloaded(Eclass(path, fs[path].mtime, d))
      case Fail(_) => Skipped
      case Crash(site) => Raised(site)
  }

  /** The live eclass `n` at `path` is re-parsed: it is uncached or its cached mtime
      differs from the file's. */
  predicate Stale(c: Cache, n: string, path: string, fs: FileSystem)
    requires path in fs
  {
    Lookup(c, n).None? || Lookup(c, n).value.mtime != fs[path].mtime
  }

  /** Refreshing `n` raises: `getmtime` finds no file, or the re-parse crashes. */
  predicate Crashes(c: Cache, n: string, path: string, fs: FileSystem, parse: Parser) {
    path !in fs || (Stale(c, n, path, fs) && Attempt(fs, path, parse).Raised?)
  }

  /** The exception refreshing `n` raises. */
  function CrashAt(c: Cache, n: string, path: string, fs: FileSystem, parse: Parser): CrashSite
    requires Crashes(c, n, path, fs, parse)
  {
    if path !in fs then MtimeOfMissingFile else Attempt(fs, path, parse).site
  }

  /** Refreshing `n` stores a new entry and sets the dirty flag. */
  predicate Reparsed(c: Cache, n: string, path: string, fs: FileSystem, parse: Parser) {
    path in fs && Stale(c, n, path, fs) && Attempt(fs, path, parse).Reloaded?
  }

  /** The entry of `n` after refreshing it: the new eclass when the re-parse succeeded,
      the old entry (or none) otherwise. */
  function Updated(c: Cache, n: string, path: string, fs: FileSystem, parse: Parser): Option<Eclass> {
    if Reparsed(c, n, path, fs, parse) then Some(Attempt(fs, path, parse).eclass) else Lookup(c, n)
  }

  /** Whatever refreshing `n` does depends on the cache only through the entry of `n`. */
  lemma SameEntry(a: Cache, b: Cache, n: string, path: string, fs: FileSystem, parse: Parser)
    requires Lookup(a, n) == Lookup(b, n)
    ensures Crashes(a, n, path, fs, parse) == Crashes(b, n, path, fs, parse)
    ensures Reparsed(a, n, path, fs, parse) == Reparsed(b, n, path, fs, parse)
    ensures Updated(a, n, path, fs, parse) == Updated(b, n, path, fs, parse)
    ensures Crashes(a, n, path, fs, parse) ==> CrashAt(a, n, path, fs, parse) == CrashAt(b, n, path, fs, parse)
  {
  }

  /** One iteration of the update loop, for the live eclass `n` at `path`. */
  function RefreshOne(s: State, n: string, path: string, fs: FileSystem, parse: Parser): (r: Outcome<State>)
    ensures !r.Fail?
    ensures r.Crash? <==> Crashes(s.eclasses, n, path, fs, parse)
    ensures r.Crash? ==> r.site == CrashAt(s.eclasses, n, path, fs, parse)
    ensures r.Ok? ==> Lookup(r.value.eclasses, n) == Updated(s.eclasses, n, path, fs, parse)
    ensures r.Ok? ==> forall k :: k != n ==> Lookup(r.value.eclasses, k) == Lookup(s.eclasses, k)
    ensures r.Ok? ==> r.value.dirty == (s.dirty || Reparsed(s.eclasses, n, path, fs, parse))
  {
    if path !in fs then Crash(MtimeOfMissingFile)
    else if !Stale(s.eclasses, n, path, fs) then Ok(s)
    else
      match Attempt(fs, path, parse)
      case Reloaded(e) => Ok(State(s.eclasses[n := e], true))
      case Skipped => Ok(s)
      case Raised(site) => Crash(site)
  }

  /** The update loop over the live names `names`, least name first. */
  ghost function RefreshAll(s: State, live: map<string, string>, names: set<string>, fs: FileSystem, parse: Parser): Outcome<State>
    requires names <= live.Keys
    decreases |names|
  {
    if names == {} then Ok(s)
    else
      var m := Least(names);
      var s' :- RefreshOne(s, m, live[m], fs, parse);
      RefreshAll(s', live, names - {m}, fs, parse)
  }

  /** The update loop starts with the least live name. */
  lemma RefreshAllFirst(s: State, live: map<string, string>, names: set<string>, fs: FileSystem, parse: Parser, m: string)
    requires names <= live.Keys && IsLeast(m, names)
    ensures var r1 := RefreshOne(s, m, live[m], fs, parse);
      RefreshAll(s, live, names, fs, parse) == if r1.Ok? then RefreshAll(r1.value, live, names - {m}, fs, parse) else Crash(r1.site)
  {
    LeastUnique(m, Least(names), names);
  }

  /** The update loop never lets an `EclassDocParsingError` escape, and finishes exactly
      when no live name's refresh crashes. */
  lemma {:induction false} RefreshAllOk(s: State, live: map<string, string>, names: set<string>, fs: FileSystem, parse: Parser)
    requires names <= live.Keys
    ensures !RefreshAll(s, live, names, fs, parse).Fail?
    ensures RefreshAll(s, live, names, fs, parse).Ok? <==>
      forall n :: n in names ==> !Crashes(s.eclasses, n, live[n], fs, parse)
    decreases |names|
  {
    if names != {} {
      var m := Least(names);
      var r1 := RefreshOne(s, m, live[m], fs, parse);
      if r1.Ok? {
        var rest := names - {m};
        assert RefreshAll(s, live, names, fs, parse) == RefreshAll(r1.value, live, rest, fs, parse);
        RefreshAllOk(r1.value, live, rest, fs, parse);
        forall n | n in rest
          ensures Crashes(r1.value.eclasses, n, live[n], fs, parse) == Crashes(s.eclasses, n, live[n], fs, parse)
        {
          SameEntry(r1.value.eclasses, s.eclasses, n, live[n], fs, parse);
        }
      }
    }
  }

  /** After the update loop each live name holds its refreshed entry and every other name
      its entry from before. */
  lemma {:induction false} RefreshAllEntries(s: State, live: map<string, string>, names: set<string>, fs: FileSystem, parse: Parser)
    requires names <= live.Keys && RefreshAll(s, live, names, fs, parse).Ok?
    ensures forall n :: Lookup(RefreshAll(s, live, names, fs, parse).value.eclasses, n)
                     == if n in names then Updated(s.eclasses, n, live[n], fs, parse) else Lookup(s.eclasses, n)
    decreases |names|
  {
    if names != {} {
      var m := Least(names);
      var r1 := RefreshOne(s, m, live[m], fs, parse);
      var rest := names - {m};
      assert RefreshAll(s, live, names, fs, parse) == RefreshAll(r1.value, live, rest, fs, parse);
      RefreshAllEntries(r1.value, live, rest, fs, parse);
      forall n | n in rest
        ensures Updated(r1.value.eclasses, n, live[n], fs, parse) == Updated(s.eclasses, n, live[n], fs, parse)
      {
        SameEntry(r1.value.eclasses, s.eclasses, n, live[n], fs, parse);
      }
    }
  }

  /** The update loop sets the dirty flag exactly when some live name was re-parsed
      successfully. */
  lemma {:induction false} RefreshAllDirty(s: State, live: map<string, string>, names: set<string>, fs: FileSystem, parse: Parser)
    requires names <= live.Keys && RefreshAll(s, live, names, fs, parse).Ok?
    ensures RefreshAll(s, live, names, fs, parse).value.dirty <==>
      s.dirty || exists n :: n in names && Reparsed(s.eclasses, n, live[n], fs, parse)
    decreases |names|
  {
    if names != {} {
      var m := Least(names);
      var r1 := RefreshOne(s, m, live[m], fs, parse);
      var rest := names - {m};
      assert RefreshAll(s, live, names, fs, parse) == RefreshAll(r1.value, live, rest, fs, parse);
      RefreshAllDirty(r1.value, live, rest, fs, parse);
      forall n | n in rest
        ensures Reparsed(r1.value.eclasses, n, live[n], fs, parse) == Reparsed(s.eclasses, n, live[n], fs, parse)
      {
        SameEntry(r1.value.eclasses, s.eclasses, n, live[n], fs, parse);
      }
      if Reparsed(s.eclasses, m, live[m], fs, parse) {
        assert m in names;
      }
    }
  }

  /** A crash of the update loop is the crash of the first live name, in sorted order,
      whose refresh crashes. */
  lemma {:induction false} RefreshAllFirstCrash(s: State, live: map<string, string>, names: set<string>, fs: FileSystem, parse: Parser)
    requires names <= live.Keys && RefreshAll(s, live, names, fs, parse).Crash?
    ensures exists n :: && n in names && Crashes(s.eclasses, n, live[n], fs, parse)
                        && RefreshAll(s, live, names, fs, parse).site == CrashAt(s.eclasses, n, live[n], fs, parse)
                        && forall k :: k in names && Below(k, n) ==> !Crashes(s.eclasses, k, live[k], fs, parse)
    decreases |names|
  {
    var m := Least(names);
    var r1 := RefreshOne(s, m, live[m], fs, parse);
    if r1.Crash? {
      assert forall k :: k in names && Below(k, m) ==> k == m by {
        forall k | k in names && Below(k, m) ensures k == m {
          if k != m { BelowTransitive(k, m, k); BelowIrreflexive(k); }
        }
      }
      BelowIrreflexive(m);
      assert m in names && Crashes(s.eclasses, m, live[m], fs, parse);
    } else {
      var rest := names - {m};
      assert RefreshAll(s, live, names, fs, parse) == RefreshAll(r1.value, live, rest, fs, parse);
      RefreshAllFirstCrash(r1.value, live, rest, fs, parse);
      var n :| n in rest && Crashes(r1.value.eclasses, n, live[n], fs, parse)
        && RefreshAll(r1.value, live, rest, fs, parse).site == CrashAt(r1.value.eclasses, n, live[n], fs, parse)
        && forall k :: k in rest && Below(k, n) ==> !Crashes(r1.value.eclasses, k, live[k], fs, parse);
      SameEntry(r1.value.eclasses, s.eclasses, n, live[n], fs, parse);
      forall k | k in names && Below(k, n) ensures !Crashes(s.eclasses, k, live[k], fs, parse) {
        if k != m {
          SameEntry(r1.value.eclasses, s.eclasses, k, live[k], fs, parse);
        }
      }
      assert n in names;
    }
  }

  // ---------------------------------------------------------------------------
  // The whole reconciliation

  /** Load, remove, update: the state `update_cache` ends with for one repository. */
  ghost function Reconcile(force: bool, stored: Stored, live: map<string, string>, fs: FileSystem, parse: Parser): Outcome<State> {
    var c := Loaded(force, stored);
    RefreshAll(State(Prune(c, fs), Removed(c, fs)), live, live.Keys, fs, parse)
  }

  /** `if eclasses and cache_eclasses`: the map is written back to disk. */
  predicate ShouldWrite(s: State) {
    s.eclasses != map[] && s.dirty
  }

  /** The reconciliation finishes exactly when no live eclass's file is missing and no
      stale live eclass crashes the parser; it never reports a parsing error. */
  lemma ReconcileOk(force: bool, stored: Stored, live: map<string, string>, fs: FileSystem, parse: Parser)
    ensures !Reconcile(force, stored, live, fs, parse).Fail?
    ensures Reconcile(force, stored, live, fs, parse).Ok? <==>
      forall n :: n in live ==> !Crashes(Prune(Loaded(force, stored), fs), n, live[n], fs, parse)
  {
    var c := Loaded(force, stored);
    RefreshAllOk(State(Prune(c, fs), Removed(c, fs)), live, live.Keys, fs, parse);
  }

  /** The entry of every name after the reconciliation: a live name holds the eclass its
      re-parse gave when it was stale and parsed, and otherwise its loaded entry if that
      entry's file exists; a name that is not live keeps its loaded entry exactly when
      that entry's file exists. */
  lemma ReconcileEntries(force: bool, stored: Stored, live: map<string, string>, fs: FileSystem, parse: Parser)
    requires Reconcile(force, stored, live, fs, parse).Ok?
    ensures var c := Prune(Loaded(force, stored), fs);
      forall n :: Lookup(Reconcile(force, stored, live, fs, parse).value.eclasses, n) ==
        if n in live then Updated(c, n, live[n], fs, parse) else Lookup(c, n)
  {
    var c := Loaded(force, stored);
    RefreshAllEntries(State(Prune(c, fs), Removed(c, fs)), live, live.Keys, fs, parse);
  }

  /** The dirty flag is set exactly when an entry was removed or a re-parse succeeded. */
  lemma ReconcileDirty(force: bool, stored: Stored, live: map<string, string>, fs: FileSystem, parse: Parser)
    requires Reconcile(force, stored, live, fs, parse).Ok?
    ensures var c := Loaded(force, stored);
      Reconcile(force, stored, live, fs, parse).value.dirty <==>
        Removed(c, fs) || exists n :: n in live && Reparsed(Prune(c, fs), n, live[n], fs, parse)
  {
    var c := Loaded(force, stored);
    RefreshAllDirty(State(Prune(c, fs), Removed(c, fs)), live, live.Keys, fs, parse);
  }

  /** A crashed reconciliation reports the first live name, in sorted order, whose refresh
      crashes. */
  lemma ReconcileFirstCrash(force: bool, stored: Stored, live: map<string, string>, fs: FileSystem, parse: Parser)
    requires Reconcile(force, stored, live, fs, parse).Crash?
    ensures var c := Prune(Loaded(force, stored), fs);
      exists n :: n in live && Crashes(c, n, live[n], fs, parse)
        && Reconcile(force, stored, live, fs, parse).site == CrashAt(c, n, live[n], fs, parse)
        && forall k :: k in live && Below(k, n) ==> !Crashes(c, k, live[k], fs, parse)
  {
    var c := Loaded(force, stored);
    RefreshAllFirstCrash(State(Prune(c, fs), Removed(c, fs)), live, live.Keys, fs, parse);
  }

  /** After a reconciliation every cached eclass's file exists. */
  lemma ReconcilePathsExist(force: bool, stored: Stored, live: map<string, string>, fs: FileSystem, parse: Parser)
    requires Reconcile(force, stored, live, fs, parse).Ok?
    ensures var r := Reconcile(force, stored, live, fs, parse).value.eclasses;
      forall n :: n in r ==> r[n].path in fs
  {
    var r := Reconcile(force, stored, live, fs, parse).value.eclasses;
    var c := Prune(Loaded(force, stored), fs);
    ReconcileEntries(force, stored, live, fs, parse);
    forall n | n in r ensures r[n].path in fs {
      assert Lookup(r, n) == if n in live then Updated(c, n, live[n], fs, parse) else Lookup(c, n);
    }
  }

  /** Running the reconciliation again on the map it wrote, over the same files, changes
      nothing: no re-parse succeeds, the flag stays clear and nothing is written. */
  lemma ReconcileIdempotent(force: bool, stored: Stored, live: map<string, string>, fs: FileSystem, parse: Parser)
    requires Reconcile(force, stored, live, fs, parse).Ok?
    ensures var r := Reconcile(force, stored, live, fs, parse).value.eclasses;
      && Reconcile(false, Stored(CacheVersion, r), live, fs, parse) == Ok(State(r, false))
      && !ShouldWrite(State(r, false))
  {
    var c := Prune(Loaded(force, stored), fs);
    var r := Reconcile(force, stored, live, fs, parse).value.eclasses;
    ReconcileOk(force, stored, live, fs, parse);
    ReconcileEntries(force, stored, live, fs, parse);
    ReconcilePathsExist(force, stored, live, fs, parse);
    var again := Stored(CacheVersion, r);
    assert Loaded(false, again) == r;
    PruneRemoves(r, fs);
    assert !Removed(r, fs);
    forall n | n in live
      ensures !Crashes(r, n, live[n], fs, parse) && !Reparsed(r, n, live[n], fs, parse)
      ensures Updated(r, n, live[n], fs, parse) == Lookup(r, n)
    {
      UpdatedAgain(c, r, n, live[n], fs, parse);
    }
    ReconcileOk(false, again, live, fs, parse);
    ReconcileEntries(false, again, live, fs, parse);
    ReconcileDirty(false, again, live, fs, parse);
    var r2 := Reconcile(false, again, live, fs, parse).value;
    forall n ensures Lookup(r2.eclasses, n) == Lookup(r, n) {
    }
    LookupExtensional(r2.eclasses, r);
  }

  /** Refreshing a name a second time, over the same files, does nothing. */
  lemma UpdatedAgain(c: Cache, r: Cache, n: string, path: string, fs: FileSystem, parse: Parser)
    requires !Crashes(c, n, path, fs, parse) && Lookup(r, n) == Updated(c, n, path, fs, parse)
    ensures !Crashes(r, n, path, fs, parse) && !Reparsed(r, n, path, fs, parse)
    ensures Updated(r, n, path, fs, parse) == Lookup(r, n)
  {
    if Reparsed(c, n, path, fs, parse) {
      assert Lookup(r, n).value.mtime == fs[path].mtime;
    } else if Stale(c, n, path, fs) {
      assert Lookup(r, n) == Lookup(c, n);
    }
  }

  /** A cache that is up to date with the live eclasses, and whose files all exist, is left
      exactly as it is, by no re-parse and with no write. */
  lemma UpToDateCacheUntouched(c: Cache, live: map<string, string>, fs: FileSystem, parse: Parser)
    requires forall n :: n in c ==> c[n].path in fs
    requires forall n :: n in live ==> n in c && live[n] in fs && c[n].mtime == fs[live[n]].mtime
    ensures Reconcile(false, Stored(CacheVersion, c), live, fs, parse) == Ok(State(c, false))
  {
    var stored := Stored(CacheVersion, c);
    assert Loaded(false, stored) == c;
    PruneRemoves(c, fs);
    forall n | n in live
      ensures !Crashes(c, n, live[n], fs, parse) && !Reparsed(c, n, live[n], fs, parse)
    {
      assert !Stale(c, n, live[n], fs);
    }
    ReconcileOk(false, stored, live, fs, parse);
    ReconcileEntries(false, stored, live, fs, parse);
    ReconcileDirty(false, stored, live, fs, parse);
    var r := Reconcile(false, stored, live, fs, parse).value;
    forall n ensures Lookup(r.eclasses, n) == Lookup(c, n) {
    }
    LookupExtensional(r.eclasses, c);
  }

  // ---------------------------------------------------------------------------
  // The addon

  /** `Eclass(path)` for a live eclass whose file exists. */
  method LoadEclass(fs: FileSystem, path: string) returns (a: Attempted)
    requires path in fs
    ensures a == Attempt(fs, path, DocumentSpec)
  {
    match fs[path].text {
      case None =>
        a := Skipped;
      case Some(lines) =>
        var d := ParseDocument(lines);
        match d {
          case Ok(doc) => a := Reloaded(Eclass(path, fs[path].mtime, doc));
          case Fail(_) => a := Skipped;
          case Crash(site) => a := Raised(site);
        }
    }
  }

  /** The removal loop: delete every entry whose file is gone; report whether any was. */
  method RemoveMissing(loaded: Cache, fs: FileSystem) returns (kept: Cache, dirty: bool)
    ensures kept == Prune(loaded, fs)
    ensures dirty == Removed(loaded, fs)
  {
    kept := loaded;
    dirty := false;
    var pending := loaded.Keys;
    while pending != {}
      invariant pending <= loaded.Keys
      invariant forall n :: Lookup(kept, n)
                         == if n in loaded && (n in pending || loaded[n].path in fs) then Some(loaded[n]) else None
      invariant dirty <==> exists n :: n in loaded && n !in pending && loaded[n].path !in fs
      decreases |pending|
    {
      var n :| n in pending;
      if loaded[n].path !in fs {
        kept := map k | k in kept && k != n :: kept[k];
        dirty := true;
      }
      pending := pending - {n};
    }
    forall n ensures Lookup(kept, n) == Lookup(Prune(loaded, fs), n) {
    }
    LookupExtensional(kept, Prune(loaded, fs));
  }

  /** The body of the update loop for the live eclass `n` at `path`. */
  method Refresh(s: State, n: string, path: string, fs: FileSystem) returns (r: Outcome<State>)
    ensures r == RefreshOne(s, n, path, fs, DocumentSpec)
  {
    if path !in fs {
      return Crash(MtimeOfMissingFile);
    }
    r := Ok(s);
    if n !in s.eclasses || s.eclasses[n].mtime != fs[path].mtime {
      var a := LoadEclass(fs, path);
      match a {
        case Reloaded(e) => r := Ok(State(s.eclasses[n := e], true));
        case Skipped =>
        case Raised(site) => r := Crash(site);
      }
    }
  }

  /** The update loop: the live eclasses in sorted name order. */
  method RefreshLive(s0: State, live: map<string, string>, fs: FileSystem) returns (r: Outcome<State>)
    ensures r == RefreshAll(s0, live, live.Keys, fs, DocumentSpec)
  {
    var s := s0;
    var todo := live.Keys;
    while todo != {}
      invariant todo <= live.Keys
      invariant RefreshAll(s0, live, live.Keys, fs, DocumentSpec) == RefreshAll(s, live, todo, fs, DocumentSpec)
      decreases |todo|
    {
      LeastExists(todo);
      var n :| n in todo && IsLeast(n, todo);
      RefreshAllFirst(s, live, todo, fs, DocumentSpec, n);
      var step := Refresh(s, n, live[n], fs);
      if !step.Ok? {
        return Crash(step.site);
      }
      s := step.value;
      todo := todo - {n};
    }
    r := Ok(s);
  }

  /** What `update_cache` reports for a reconciliation: whether to write, or the exception. */
  function Reported(o: Outcome<State>): Outcome<bool> {
    match o
    case Ok(s) => Ok(ShouldWrite(s))
    case Fail(e) => Fail(e)
    case Crash(site) => Crash(site)
  }

  /** `EclassAddon`, whose `eclasses` the reconciler replaces. */
  class EclassAddon {
    var eclasses: Cache

    constructor ()
      ensures eclasses == map[]
    {
      eclasses := map[];
    }

    /** `update_cache` for the gentoo repository.  Reports whether the cache file was
        removed while loading and, unless an exception escaped, whether the map is to be
        written back; `eclasses` becomes the reconciled map, and an exception leaves it
        as it was. */
    method UpdateCache(force: bool, stored: Stored, live: map<string, string>, fs: FileSystem)
      returns (removedFile: bool, r: Outcome<bool>)
      modifies this
      ensures removedFile == CacheFileRemoved(force, stored)
      ensures r == Reported(Reconcile(force, stored, live, fs, DocumentSpec))
      ensures eclasses == if Reconcile(force, stored, live, fs, DocumentSpec).Ok?
        then Reconcile(force, stored, live, fs, DocumentSpec).value.eclasses
        else old(eclasses)
    {
      removedFile := CacheFileRemoved(force, stored);
      var loaded: Cache := map[];
      if !force && stored.Stored? {
        loaded := stored.entries;
      }
      var kept, dirty := RemoveMissing(loaded, fs);
      var result := RefreshLive(State(kept, dirty), live, fs);
      if result.Ok? {
        eclasses := result.value.eclasses;
      }
      r := Reported(result);
    }
  }
}
