/** The scan cache on disk (crates/codequery-index/src/cache.rs, and `scan_project_cached` in
    crates/codequery-index/src/scanner.rs). */
module ScanCache {
  import opened Wrappers
  import opened Bytes
  import opened Symbols
  import opened Scan

  const CACHE_VERSION: nat := 1

  // The stored form of a symbol.

  datatype CachedSymbol = CachedSymbol(
    name: string,
    kind: SymbolKind,
    file: Path,
    line: nat,
    column: nat,
    endLine: nat,
    visibility: Visibility,
    children: seq<CachedSymbol>,
    doc: Option<string>,
    body: Option<string>,
    signature: Option<string>)

  function ToCached(s: Symbol): CachedSymbol {
    CachedSymbol(s.name, s.kind, s.file, s.line, s.column, s.endLine, s.visibility,
                 ToCachedAll(s.children), s.doc, s.body, s.signature)
  }

  function ToCachedAll(ss: seq<Symbol>): seq<CachedSymbol> {
    seq(|ss|, i requires 0 <= i < |ss| => ToCached(ss[i]))
  }

  function FromCached(s: CachedSymbol): Symbol {
    Symbol(s.name, s.kind, s.file, s.line, s.column, s.endLine, s.visibility,
           FromCachedAll(s.children), s.doc, s.body, s.signature)
  }

  function FromCachedAll(ss: seq<CachedSymbol>): seq<Symbol> {
    seq(|ss|, i requires 0 <= i < |ss| => FromCached(ss[i]))
  }

  lemma {:induction false} SymbolsSurviveStorage(ss: seq<Symbol>)
    decreases ss
    ensures FromCachedAll(ToCachedAll(ss)) == ss
  {
    forall i | 0 <= i < |ss|
      ensures FromCached(ToCached(ss[i])) == ss[i]
    {
      SymbolsSurviveStorage(ss[i].children);
    }
  }

  datatype CachedFile = CachedFile(path: Path, stamp: Stamp, symbols: seq<Symbol>)

  datatype CachedFileData = CachedFileData(path: Path, stamp: Stamp, symbols: seq<CachedSymbol>)

  /** The cache file: absent, unreadable, not decodable, or a manifest. */
  datatype Stored = Absent | Unreadable | Garbled | Manifest(version: nat, files: seq<CachedFileData>)

  datatype CacheError = NotFound | Corrupt | Io

  /** What becomes of a write: it may fail before the file is touched, or leave it half written. */
  datatype Write = Written | Refused | Torn

  function ToData(f: CachedFile): CachedFileData { CachedFileData(f.path, f.stamp, ToCachedAll(f.symbols)) }

  function FromData(f: CachedFileData): CachedFile { CachedFile(f.path, f.stamp, FromCachedAll(f.symbols)) }

  function Load(stored: Stored): Result<seq<CachedFile>, CacheError> {
    match stored
    case Absent => Err(NotFound)
    case Unreadable => Err(Io)
    case Garbled => Err(Corrupt)
    case Manifest(version, files) =>
      if version != CACHE_VERSION then Err(Corrupt)
      else Ok(seq(|files|, i requires 0 <= i < |files| => FromData(files[i])))
  }

  function Store(stored: Stored, files: seq<CachedFile>, write: Write): Stored {
    match write
    case Written => Manifest(CACHE_VERSION, seq(|files|, i requires 0 <= i < |files| => ToData(files[i])))
    case Refused => stored
    case Torn => Garbled
  }

  /** Loading inverts storing; a write that is refused changes nothing and a torn one leaves no cache. */
  lemma LoadAfterStore(stored: Stored, files: seq<CachedFile>)
    ensures Load(Store(stored, files, Written)) == Ok(files)
    ensures Store(stored, files, Refused) == stored
    ensures Load(Store(stored, files, Torn)) == Err(Corrupt)
  {
    forall i | 0 <= i < |files|
      ensures FromData(ToData(files[i])) == files[i]
    {
      SymbolsSurviveStorage(files[i].symbols);
    }
    assert Load(Store(stored, files, Written)).value == files;
  }

  /** A cache is loaded exactly when it is a manifest of the current version, with its files as stored. */
  lemma LoadExactly(stored: Stored)
    ensures Load(stored).Ok? <==> stored.Manifest? && stored.version == 1
    ensures Load(stored) == Err(NotFound) <==> stored.Absent?
    ensures Load(stored) == Err(Io) <==> stored.Unreadable?
    ensures Load(stored).Ok? ==> |Load(stored).value| == |stored.files|
    ensures Load(stored).Ok? ==>
              forall i :: 0 <= i < |stored.files| ==>
                            Load(stored).value[i].path == stored.files[i].path
                            && Load(stored).value[i].stamp == stored.files[i].stamp
  {
  }

  // Validity, rebuilding, and the cached scan.

  /** The metadata of a file, none when it is missing or its metadata cannot be had. */
  function StampOf(d: Disk, p: Path): Option<Stamp> {
    if p in d.files then d.files[p].stamp else None
  }

  predicate Fits(d: Disk, e: CachedFile) { StampOf(d, e.path) == Some(e.stamp) }

  predicate Valid(d: Disk, cached: seq<CachedFile>) {
    forall e :: e in cached ==> Fits(d, e)
  }

  method IsValid(d: Disk, cached: seq<CachedFile>) returns (valid: bool)
    ensures valid <==> forall e :: e in cached ==> e.path in d.files && d.files[e.path].stamp == Some(e.stamp)
    ensures valid <==> Valid(d, cached)
  {
    var i := 0;
    while i < |cached|
      invariant 0 <= i <= |cached| && forall k :: 0 <= k < i ==> Fits(d, cached[k])
    {
      assert cached[i] in cached;
      match StampOf(d, cached[i].path) {
        case Some(stamp) =>
          if stamp.mtime != cached[i].stamp.mtime || stamp.size != cached[i].stamp.size {
            return false;
          }
        case None =>
          return false;
      }
      i := i + 1;
    }
    valid := true;
  }

  /** One file re-read and re-parsed, with its stored symbols. */
  function Rebuild<T>(tc: Toolchain<T>, d: Disk, e: CachedFile): Option<FileSymbols<T>> {
    if e.path !in d.files || d.files[e.path].content.None? then None
    else
      var source := d.files[e.path].content.value;
      match tc.parse(e.path, source)
      case None => None
      case Some(tree) => Some(FileSymbols(e.path, e.symbols, source, tree))
  }

  function Rebuilder<T>(tc: Toolchain<T>, d: Disk): CachedFile -> Option<FileSymbols<T>> {
    (e: CachedFile) => Rebuild(tc, d, e)
  }

  function EntryScoped(scope: Option<Path>): CachedFile -> bool { (e: CachedFile) => InScope(scope, e.path) }

  function Rebuilt<T>(tc: Toolchain<T>, d: Disk, cached: seq<CachedFile>, scope: Option<Path>): seq<FileSymbols<T>> {
    FilterMap(Keep(cached, EntryScoped(scope)), Rebuilder(tc, d))
  }

  function EntryOf<T>(d: Disk): FileSymbols<T> -> Option<CachedFile> {
    (r: FileSymbols<T>) =>
      match StampOf(d, r.file)
      case Some(stamp) => Some(CachedFile(r.file, stamp, r.symbols))
      case None => None
  }

  /** `build_cache_entries`: files without metadata are left out. */
  function Entries<T>(d: Disk, results: seq<FileSymbols<T>>): seq<CachedFile> {
    FilterMap(results, EntryOf(d))
  }

  predicate Hit(d: Disk, stored: Stored, cacheDir: bool) {
    cacheDir && Load(stored).Ok? && Valid(d, Load(stored).value)
  }

  /** The stored cache has the current version, and every file in it still has its stamp. */
  ghost predicate Usable(d: Disk, stored: Stored) {
    stored.Manifest? && stored.version == 1
    && forall f :: f in stored.files ==> f.path in d.files && d.files[f.path].stamp == Some(f.stamp)
  }

  lemma HitExactly(d: Disk, stored: Stored, cacheDir: bool)
    ensures Hit(d, stored, cacheDir) <==> cacheDir && Usable(d, stored)
  {
    LoadExactly(stored);
    hide Load;
    if Load(stored).Ok? {
      var cached := Load(stored).value;
      if Valid(d, cached) {
        forall f | f in stored.files
          ensures f.path in d.files && d.files[f.path].stamp == Some(f.stamp)
        {
          var i :| 0 <= i < |stored.files| && stored.files[i] == f;
          assert cached[i] in cached;
        }
      }
      if Usable(d, stored) {
        forall e | e in cached
          ensures Fits(d, e)
        {
          var i :| 0 <= i < |cached| && cached[i] == e;
          assert stored.files[i] in stored.files;
        }
      }
    }
  }

  /** The result of a cached scan and the cache file it leaves. */
  function CachedScan<T>(tc: Toolchain<T>, d: Disk, stored: Stored, scope: Option<Path>, useCache: bool,
                         cacheDir: bool, write: Write)
    : (Result<seq<FileSymbols<T>>, ScanError>, Stored)
  {
    if !useCache then (FreshScan(tc, d, scope), stored)
    else if Hit(d, stored, cacheDir) then (Ok(Rebuilt(tc, d, Load(stored).value, scope)), stored)
    else
      var r := FreshScan(tc, d, scope);
      (r, if r.Ok? && cacheDir then Store(stored, Entries(d, r.value), write) else stored)
  }

  /** Results that agree up to the order of those for the same path. */
  ghost predicate SameUpToTies<T>(r: Result<seq<FileSymbols<T>>, ScanError>,
                                  expected: Result<seq<FileSymbols<T>>, ScanError>) {
    if r.Err? || expected.Err? then r == expected
    else Sorted(r.value) && multiset(r.value) == multiset(expected.value)
  }

  /** Entries sorted by path, as scans store them. */
  predicate EntriesSorted(cached: seq<CachedFile>) {
    forall i, j :: 0 <= i < j < |cached| ==> PathLess(cached[i].path, cached[j].path)
  }

  class Project<T(!new)> {
    const tc: Toolchain<T>
    const cacheDir: bool
    var disk: Disk
    var stored: Stored

    constructor (tc: Toolchain<T>, cacheDir: bool, disk: Disk, stored: Stored)
      ensures this.tc == tc && this.cacheDir == cacheDir && this.disk == disk && this.stored == stored
    {
      this.tc, this.cacheDir, this.disk, this.stored := tc, cacheDir, disk, stored;
    }

    /** `scan_project_cached`; the environment decides how a write ends. */
    method ScanProjectCached(scope: Option<Path>, useCache: bool, write: Write)
      returns (r: Result<seq<FileSymbols<T>>, ScanError>)
      requires DiskOk(disk)
      modifies `stored
      ensures !useCache || !cacheDir || !Usable(disk, old(stored)) ==> r == FreshScan(tc, disk, scope)
      ensures !useCache || !cacheDir || Usable(disk, old(stored)) || r.Err? ==> stored == old(stored)
      ensures useCache && cacheDir && !Usable(disk, old(stored)) && r.Ok? ==>
                stored == Store(old(stored), Entries(disk, r.value), write)
      ensures useCache && cacheDir && Usable(disk, old(stored)) ==>
                SameUpToTies(r, Ok(Rebuilt(tc, disk, Load(old(stored)).value, scope)))
      ensures var expected := CachedScan(tc, disk, old(stored), scope, useCache, cacheDir, write);
              && stored == expected.1
              && SameUpToTies(r, expected.0)
              && ((Load(old(stored)).Ok? ==> EntriesSorted(Load(old(stored)).value)) ==> r == expected.0)
    {
      FreshIsSorted(tc, disk, scope);
      HitExactly(disk, stored, cacheDir);
      if !useCache {
        r := ScanProject(tc, disk, scope);
        return;
      }
      if cacheDir {
        var cached := Load(stored);
        if cached.Ok? {
          var valid := IsValid(disk, cached.value);
          if valid {
            var results := RebuildFromCache(cached.value, scope);
            return Ok(results);
          }
        }
      }
      r := ScanProject(tc, disk, scope);
      if r.Ok? && cacheDir {
        stored := Store(stored, Entries(disk, r.value), write);
      }
    }

    /** `rebuild_from_cache`: in path order, and as cached when the cache is in path order. */
    method RebuildFromCache(cached: seq<CachedFile>, scope: Option<Path>) returns (results: seq<FileSymbols<T>>)
      ensures SameUpToTies(Ok(results), Ok(Rebuilt(tc, disk, cached, scope)))
      ensures EntriesSorted(cached) ==> results == Rebuilt(tc, disk, cached, scope)
    {
      var kept := Keep(cached, EntryScoped(scope));
      var unsorted := ParallelFilterMap(kept, Rebuilder(tc, disk));
      results := SortByFile(unsorted);
      SortByFileSorts(unsorted);
      if EntriesSorted(cached) {
        KeepEntriesSorted(cached, EntryScoped(scope));
        RebuiltSorted(tc, disk, kept);
        SortedUnique(FilterMap(kept, Rebuilder(tc, disk)), results);
      }
    }
  }

  lemma FreshIsSorted<T(!new)>(tc: Toolchain<T>, d: Disk, scope: Option<Path>)
    requires DiskOk(d)
    ensures FreshScan(tc, d, scope).Ok? ==> Sorted(FreshScan(tc, d, scope).value)
  {
    var r := FreshScan(tc, d, scope);
    if r.Ok? {
      KeepStrictlySorted(d.listing, Scoped(scope));
      ScanStrictlySorted(tc, d, Keep(d.listing, Scoped(scope)));
      StrictlySortedIsSorted(r.value);
    }
  }

  lemma StrictlySortedIsSorted<T>(results: seq<FileSymbols<T>>)
    requires SortedStrictly(results)
    ensures Sorted(results)
  {
    forall i, j | 0 <= i < j < |results|
      ensures !PathLess(results[j].file, results[i].file)
    {
      PathLessTotal(results[i].file, results[j].file);
    }
  }

  lemma LastEntryGreatest(cached: seq<CachedFile>)
    requires EntriesSorted(cached) && cached != []
    ensures var last := cached[|cached| - 1]; forall e :: e in cached[..|cached| - 1] ==> PathLess(e.path, last.path)
  {
  }

  lemma {:induction false} KeepEntriesSorted(cached: seq<CachedFile>, test: CachedFile -> bool)
    requires EntriesSorted(cached)
    ensures EntriesSorted(Keep(cached, test))
  {
    if cached == [] {
    } else {
      KeepEntriesSorted(cached[..|cached| - 1], test);
      LastEntryGreatest(cached);
    }
  }

  lemma {:induction false} RebuiltSorted<T>(tc: Toolchain<T>, d: Disk, cached: seq<CachedFile>)
    requires EntriesSorted(cached)
    ensures SortedStrictly(FilterMap(cached, Rebuilder(tc, d)))
  {
    if cached == [] {
    } else {
      var front, last := cached[..|cached| - 1], cached[|cached| - 1];
      RebuiltSorted(tc, d, front);
      LastEntryGreatest(cached);
      forall r | r in FilterMap(front, Rebuilder(tc, d))
        ensures PathLess(r.file, last.path)
      {
        FilterMapMember(front, Rebuilder(tc, d), r);
      }
    }
  }

  /** What a rebuilt result is: the stored symbols of an entry, with the bytes read now and their tree. */
  ghost predicate IsRebuiltFrom<T>(tc: Toolchain<T>, d: Disk, e: CachedFile, r: FileSymbols<T>) {
    && r.file == e.path && r.symbols == e.symbols
    && e.path in d.files && d.files[e.path].content == Some(r.source) && tc.parse(e.path, r.source) == Some(r.tree)
  }

  /** A rebuilt scan has a result for each entry in the scope whose file can be read and parsed. */
  lemma RebuiltExactly<T>(tc: Toolchain<T>, d: Disk, cached: seq<CachedFile>, scope: Option<Path>, r: FileSymbols<T>)
    ensures r in Rebuilt(tc, d, cached, scope)
       <==> exists e :: e in cached && (scope.None? || scope.value <= e.path) && IsRebuiltFrom(tc, d, e, r)
  {
    FilterMapMember(Keep(cached, EntryScoped(scope)), Rebuilder(tc, d), r);
    forall e: CachedFile
      ensures Rebuilder(tc, d)(e) == Some(r) <==> IsRebuiltFrom(tc, d, e, r)
    {
    }
  }

  /** An entry is stored for each result whose file has metadata, with that metadata and its symbols. */
  lemma EntriesExactly<T>(d: Disk, results: seq<FileSymbols<T>>, e: CachedFile)
    ensures e in Entries(d, results)
       <==> exists r :: r in results && r.file == e.path && r.symbols == e.symbols
                        && e.path in d.files && d.files[e.path].stamp == Some(e.stamp)
  {
    FilterMapMember(results, EntryOf(d), e);
    forall r: FileSymbols<T> | r in results
      ensures EntryOf<T>(d)(r) == Some(e)
         <==> r.file == e.path && r.symbols == e.symbols && e.path in d.files && d.files[e.path].stamp == Some(e.stamp)
    {
    }
  }

  // What the cache may be trusted for.

  /** The bytes that a stamp of a path stands for: equal stamps mean equal content. */
  type Origin = (Path, Stamp) -> Option<seq<Byte>>

  ghost predicate Honest(origin: Origin, d: Disk) {
    forall p :: p in d.files && d.files[p].stamp.Some? ==> d.files[p].content == origin(p, d.files[p].stamp.value)
  }

  /** The entry holds what the extraction gives on the content its stamp stands for. */
  predicate EntryTrue<T>(tc: Toolchain<T>, origin: Origin, e: CachedFile) {
    var content := origin(e.path, e.stamp);
    content.Some? && tc.parse(e.path, content.value).Some?
    && e.symbols == tc.extract(e.path, content.value, tc.parse(e.path, content.value).value)
  }

  predicate EntriesTrue<T>(tc: Toolchain<T>, origin: Origin, cached: seq<CachedFile>) {
    EntriesSorted(cached) && forall e :: e in cached ==> EntryTrue(tc, origin, e)
  }

  ghost predicate HasEntry(cached: seq<CachedFile>, p: Path) {
    exists e :: e in cached && e.path == p
  }

  lemma RebuildIsScan<T>(tc: Toolchain<T>, origin: Origin, d: Disk, e: CachedFile)
    requires Honest(origin, d) && EntryTrue(tc, origin, e) && Fits(d, e)
    ensures Rebuild(tc, d, e) == ScanFile(tc, d, e.path) && ScanFile(tc, d, e.path).Some?
  {
  }

  lemma RebuiltMember<T>(tc: Toolchain<T>, origin: Origin, d: Disk, cached: seq<CachedFile>,
                         scope: Option<Path>, r: FileSymbols<T>)
    requires Honest(origin, d) && EntriesTrue(tc, origin, cached) && Valid(d, cached)
    ensures r in Rebuilt(tc, d, cached, scope)
       <==> HasEntry(cached, r.file) && InScope(scope, r.file) && ScanFile(tc, d, r.file) == Some(r)
  {
    var kept := Keep(cached, EntryScoped(scope));
    FilterMapMember(kept, Rebuilder(tc, d), r);
    if r in Rebuilt(tc, d, cached, scope) {
      var e :| e in kept && Rebuilder(tc, d)(e) == Some(r);
      RebuildIsScan(tc, origin, d, e);
    }
    if HasEntry(cached, r.file) && InScope(scope, r.file) && ScanFile(tc, d, r.file) == Some(r) {
      var e :| e in cached && e.path == r.file;
      RebuildIsScan(tc, origin, d, e);
      assert e in kept && Rebuilder(tc, d)(e) == Some(r);
    }
  }

  lemma FreshMember<T>(tc: Toolchain<T>, d: Disk, scope: Option<Path>, r: FileSymbols<T>)
    requires Start(scope) in d.present
    ensures r in FreshScan(tc, d, scope).value
       <==> r.file in d.listing && InScope(scope, r.file) && ScanFile(tc, d, r.file) == Some(r)
  {
    var files := Keep(d.listing, Scoped(scope));
    FilterMapMember(files, Scanner(tc, d), r);
    if r in FilterMap(files, Scanner(tc, d)) {
      var p :| p in files && Scanner(tc, d)(p) == Some(r);
    }
    if r.file in files && ScanFile(tc, d, r.file) == Some(r) {
      assert Scanner(tc, d)(r.file) == Some(r);
    }
  }

  /** When the cached entries are true, each file that a hit returns is what scanning that file now would give. */
  lemma HitAgreesPerFile<T>(tc: Toolchain<T>, origin: Origin, d: Disk, cached: seq<CachedFile>,
                            scope: Option<Path>, r: FileSymbols<T>)
    requires Honest(origin, d) && EntriesTrue(tc, origin, cached) && Valid(d, cached)
    requires r in Rebuilt(tc, d, cached, scope)
    ensures ScanFile(tc, d, r.file) == Some(r) && InScope(scope, r.file) && HasEntry(cached, r.file)
  {
    RebuiltMember(tc, origin, d, cached, scope, r);
  }

  lemma {:induction false} SortedStrictlyUnique<T>(a: seq<FileSymbols<T>>, b: seq<FileSymbols<T>>)
    requires SortedStrictly(a) && SortedStrictly(b) && (forall r :: r in a <==> r in b)
    ensures a == b
  {
    assert b != [] ==> b[0] in a;
    if a == [] {
    } else {
      SortedStrictlyHeads(a, b);
      forall r
        ensures r in a[1..] <==> r in b[1..]
      {
        InTail(a, r);
        InTail(b, r);
      }
      SortedStrictlyUnique(a[1..], b[1..]);
      assert a == [a[0]] + a[1..] && b == [a[0]] + b[1..];
    }
  }

  lemma SortedStrictlyHeads<T>(a: seq<FileSymbols<T>>, b: seq<FileSymbols<T>>)
    requires SortedStrictly(a) && SortedStrictly(b) && (forall r :: r in a <==> r in b) && a != []
    ensures b != [] && a[0] == b[0]
  {
    assert a[0] in b;
    assert b[0] in a;
    var i :| 0 <= i < |a| && a[i] == b[0];
    var j :| 0 <= j < |b| && b[j] == a[0];
    assert j > 0 ==> PathLess(b[0].file, b[j].file);
    assert i > 0 ==> PathLess(a[0].file, a[i].file);
    PathLessTotal(a[0].file, b[0].file);
    assert i == 0 || j == 0;
  }

  lemma InTail<T>(a: seq<FileSymbols<T>>, r: FileSymbols<T>)
    requires SortedStrictly(a) && a != []
    ensures r in a[1..] <==> r in a && r != a[0]
  {
    PathLessTotal(a[0].file, a[0].file);
    if r in a && r != a[0] {
      var i :| 0 <= i < |a| && a[i] == r;
      assert a[1..][i - 1] == r;
    }
  }

  /** A hit is a fresh scan exactly when the scope exists and, within it, the cached files are the
      listed files that can be scanned. */
  lemma HitIsFreshIff<T>(tc: Toolchain<T>, origin: Origin, d: Disk, cached: seq<CachedFile>, scope: Option<Path>)
    requires DiskOk(d) && Honest(origin, d) && EntriesTrue(tc, origin, cached) && Valid(d, cached)
    ensures FreshScan(tc, d, scope) == Ok(Rebuilt(tc, d, cached, scope))
       <==> Start(scope) in d.present
            && forall p :: InScope(scope, p) ==> (HasEntry(cached, p) <==> p in d.listing && ScanFile(tc, d, p).Some?)
  {
    var rebuilt := Rebuilt(tc, d, cached, scope);
    if Start(scope) in d.present {
      var scanned := FreshScan(tc, d, scope).value;
      forall r
        ensures r in rebuilt <==> HasEntry(cached, r.file) && InScope(scope, r.file)
                                  && ScanFile(tc, d, r.file) == Some(r)
        ensures r in scanned <==> r.file in d.listing && InScope(scope, r.file) && ScanFile(tc, d, r.file) == Some(r)
      {
        RebuiltMember(tc, origin, d, cached, scope, r);
        FreshMember(tc, d, scope, r);
      }
      if scanned == rebuilt {
        forall p | InScope(scope, p)
          ensures HasEntry(cached, p) <==> p in d.listing && ScanFile(tc, d, p).Some?
        {
          if HasEntry(cached, p) {
            var e :| e in cached && e.path == p;
            RebuildIsScan(tc, origin, d, e);
            FreshMember(tc, d, scope, ScanFile(tc, d, p).value);
            RebuiltMember(tc, origin, d, cached, scope, ScanFile(tc, d, p).value);
          }
          if p in d.listing && ScanFile(tc, d, p).Some? {
            FreshMember(tc, d, scope, ScanFile(tc, d, p).value);
            RebuiltMember(tc, origin, d, cached, scope, ScanFile(tc, d, p).value);
          }
        }
      }
      if forall p :: InScope(scope, p) ==> (HasEntry(cached, p) <==> p in d.listing && ScanFile(tc, d, p).Some?) {
        KeepStrictlySorted(d.listing, Scoped(scope));
        ScanStrictlySorted(tc, d, Keep(d.listing, Scoped(scope)));
        KeepEntriesSorted(cached, EntryScoped(scope));
        RebuiltSorted(tc, d, Keep(cached, EntryScoped(scope)));
        forall r
          ensures r in scanned <==> r in rebuilt
        {
        }
        SortedStrictlyUnique(scanned, rebuilt);
      }
    }
  }

  // Runs of changes and scans.

  datatype World = World(disk: Disk, stored: Stored)

  /** Between scans the project directory may become any other. */
  datatype Action =
    | Change(disk: Disk)
    | RunScan(scope: Option<Path>, useCache: bool, cacheDir: bool, write: Write)

  function Act<T>(tc: Toolchain<T>, w: World, a: Action): World {
    match a
    case Change(disk) => w.(disk := disk)
    case RunScan(scope, useCache, cacheDir, write) =>
      w.(stored := CachedScan(tc, w.disk, w.stored, scope, useCache, cacheDir, write).1)
  }

  /** What a scan returns. */
  function Scanned<T>(tc: Toolchain<T>, w: World, a: Action): Result<seq<FileSymbols<T>>, ScanError>
    requires a.RunScan?
  {
    CachedScan(tc, w.disk, w.stored, a.scope, a.useCache, a.cacheDir, a.write).0
  }

  /** No file appears, becomes ignored or listed, or becomes one that can be scanned. */
  ghost predicate NothingAppears<T>(tc: Toolchain<T>, d: Disk, d': Disk) {
    && (forall p :: p in d'.files ==> p in d.files)
    && (forall p :: p in d'.files ==> (p in d'.listing <==> p in d.listing))
    && (forall p :: p in d'.listing && ScanFile(tc, d', p).Some? ==> ScanFile(tc, d, p).Some?)
  }

  /** Changes keep the stamps honest and let nothing appear; scans name existing places, and only
      unscoped ones fill the cache. */
  ghost predicate Allowed<T>(tc: Toolchain<T>, origin: Origin, w: World, a: Action) {
    match a
    case Change(disk) =>
      DiskOk(disk) && Honest(origin, disk) && Stamped(tc, disk) && NothingAppears(tc, w.disk, disk)
    case RunScan(scope, useCache, cacheDir, write) =>
      Start(scope) in w.disk.present
      && (useCache && cacheDir && !Hit(w.disk, w.stored, cacheDir) && write.Written? ==> scope.None?)
  }

  /** What is cached covers the listed files that can be scanned, and nothing that is no longer listed. */
  ghost predicate Covers<T>(tc: Toolchain<T>, d: Disk, cached: seq<CachedFile>) {
    (forall p :: p in d.listing && ScanFile(tc, d, p).Some? ==> HasEntry(cached, p))
    && (forall e :: e in cached && e.path in d.files ==> e.path in d.listing)
  }

  ghost predicate Stamped<T>(tc: Toolchain<T>, d: Disk) {
    forall p :: p in d.listing && ScanFile(tc, d, p).Some? ==> d.files[p].stamp.Some?
  }

  ghost predicate Inv<T>(tc: Toolchain<T>, origin: Origin, w: World) {
    DiskOk(w.disk) && Honest(origin, w.disk) && Stamped(tc, w.disk)
    && (Load(w.stored).Ok? ==> EntriesTrue(tc, origin, Load(w.stored).value)
                               && Covers(tc, w.disk, Load(w.stored).value))
  }

  lemma CoveredHitIsFresh<T>(tc: Toolchain<T>, origin: Origin, d: Disk, cached: seq<CachedFile>, scope: Option<Path>)
    requires DiskOk(d) && Honest(origin, d) && EntriesTrue(tc, origin, cached) && Valid(d, cached)
             && Covers(tc, d, cached)
    requires Start(scope) in d.present
    ensures FreshScan(tc, d, scope) == Ok(Rebuilt(tc, d, cached, scope))
  {
    forall p | HasEntry(cached, p)
      ensures p in d.listing && ScanFile(tc, d, p).Some?
    {
      var e :| e in cached && e.path == p;
      RebuildIsScan(tc, origin, d, e);
    }
    HitIsFreshIff(tc, origin, d, cached, scope);
  }

  lemma {:induction false} EntriesOfSorted<T>(d: Disk, results: seq<FileSymbols<T>>)
    requires SortedStrictly(results)
    ensures EntriesSorted(Entries(d, results))
    ensures forall e :: e in Entries(d, results) ==> exists r :: r in results && EntryOf<T>(d)(r) == Some(e)
  {
    if results == [] {
    } else {
      var front, last := results[..|results| - 1], results[|results| - 1];
      EntriesOfSorted(d, front);
      forall e | e in Entries(d, front)
        ensures PathLess(e.path, last.file)
      {
        var r :| r in front && EntryOf<T>(d)(r) == Some(e);
      }
    }
  }

  /** Whatever its scope, a scan stores true entries for files in it. */
  lemma StoredEntriesTrue<T>(tc: Toolchain<T>, origin: Origin, d: Disk, scope: Option<Path>)
    requires DiskOk(d) && Honest(origin, d) && Start(scope) in d.present
    ensures var cached := Entries(d, FreshScan(tc, d, scope).value);
            EntriesTrue(tc, origin, cached)
            && forall e :: e in cached ==> e.path in d.listing && InScope(scope, e.path) && Fits(d, e)
  {
    var results := FreshScan(tc, d, scope).value;
    var cached := Entries(d, results);
    KeepStrictlySorted(d.listing, Scoped(scope));
    ScanStrictlySorted(tc, d, Keep(d.listing, Scoped(scope)));
    EntriesOfSorted(d, results);
    forall e | e in cached
      ensures EntryTrue(tc, origin, e) && e.path in d.listing && InScope(scope, e.path) && Fits(d, e)
    {
      var r :| r in results && EntryOf<T>(d)(r) == Some(e);
      FreshMember(tc, d, scope, r);
    }
  }

  /** An unscoped scan stores true entries that cover the project. */
  lemma StoredEntriesCover<T>(tc: Toolchain<T>, origin: Origin, d: Disk)
    requires DiskOk(d) && Honest(origin, d) && Stamped(tc, d) && [] in d.present
    ensures var cached := Entries(d, FreshScan(tc, d, None).value);
            EntriesTrue(tc, origin, cached) && Covers(tc, d, cached)
  {
    StoredEntriesTrue(tc, origin, d, None);
    var results := FreshScan(tc, d, None).value;
    var cached := Entries(d, results);
    forall p | p in d.listing && ScanFile(tc, d, p).Some?
      ensures HasEntry(cached, p)
    {
      var r := ScanFile(tc, d, p).value;
      FreshMember(tc, d, None, r);
      var e := CachedFile(p, d.files[p].stamp.value, r.symbols);
      assert EntryOf<T>(d)(r) == Some(e);
      FilterMapMember(results, EntryOf(d), e);
    }
  }

  lemma ChangeKeepsInv<T>(tc: Toolchain<T>, origin: Origin, w: World, disk: Disk)
    requires Inv(tc, origin, w) && Allowed(tc, origin, w, Change(disk))
    ensures Inv(tc, origin, Act(tc, w, Change(disk)))
  {
  }

  lemma ScanKeepsInv<T>(tc: Toolchain<T>, origin: Origin, w: World, a: Action)
    requires a.RunScan? && Inv(tc, origin, w) && Allowed(tc, origin, w, a)
    ensures Inv(tc, origin, Act(tc, w, a))
    ensures Scanned(tc, w, a) == FreshScan(tc, w.disk, a.scope)
  {
    if a.useCache {
      if Hit(w.disk, w.stored, a.cacheDir) {
        CoveredHitIsFresh(tc, origin, w.disk, Load(w.stored).value, a.scope);
      } else if a.cacheDir && a.write.Written? {
        StoredEntriesCover(tc, origin, w.disk);
        LoadAfterStore(w.stored, Entries(w.disk, FreshScan(tc, w.disk, None).value));
      }
    }
  }

  ghost predicate AllowedRun<T>(tc: Toolchain<T>, origin: Origin, w: World, actions: seq<Action>)
    decreases |actions|
  {
    actions == []
    || (Allowed(tc, origin, w, actions[0]) && AllowedRun(tc, origin, Act(tc, w, actions[0]), actions[1..]))
  }

  /** Every scan of the run returns what a fresh scan would return at that point. */
  ghost predicate AlwaysFresh<T>(tc: Toolchain<T>, w: World, actions: seq<Action>)
    decreases |actions|
  {
    actions == []
    || ((actions[0].RunScan? ==> Scanned(tc, w, actions[0]) == FreshScan(tc, w.disk, actions[0].scope))
        && AlwaysFresh(tc, Act(tc, w, actions[0]), actions[1..]))
  }

  /** Caching is invisible in every allowed run. */
  lemma {:induction false} CachedRunIsFresh<T>(tc: Toolchain<T>, origin: Origin, w: World, actions: seq<Action>)
    requires Inv(tc, origin, w) && AllowedRun(tc, origin, w, actions)
    decreases |actions|
    ensures AlwaysFresh(tc, w, actions)
  {
    if actions == [] {
    } else {
      match actions[0] {
        case Change(disk) => ChangeKeepsInv(tc, origin, w, disk);
        case RunScan(_, _, _, _) => ScanKeepsInv(tc, origin, w, actions[0]);
      }
      CachedRunIsFresh(tc, origin, Act(tc, w, actions[0]), actions[1..]);
    }
  }

  // What holds in all runs, whatever appears and whichever scans fill the cache.

  /** The disks of a run are honest about their stamps; nothing else is asked of it. */
  ghost predicate HonestRun(origin: Origin, actions: seq<Action>) {
    forall a :: a in actions && a.Change? ==> DiskOk(a.disk) && Honest(origin, a.disk)
  }

  ghost predicate TrueCache<T>(tc: Toolchain<T>, origin: Origin, w: World) {
    DiskOk(w.disk) && Honest(origin, w.disk)
    && (Load(w.stored).Ok? ==> EntriesTrue(tc, origin, Load(w.stored).value))
  }

  /** Each file in a result is in the scope, and is what scanning that file now gives. */
  ghost predicate Current<T>(tc: Toolchain<T>, d: Disk, scope: Option<Path>,
                             r: Result<seq<FileSymbols<T>>, ScanError>) {
    r.Ok? ==> forall f :: f in r.value ==> ScanFile(tc, d, f.file) == Some(f) && InScope(scope, f.file)
  }

  lemma FreshIsCurrent<T>(tc: Toolchain<T>, d: Disk, scope: Option<Path>)
    ensures Current(tc, d, scope, FreshScan(tc, d, scope))
  {
    var r := FreshScan(tc, d, scope);
    if r.Ok? {
      forall f | f in r.value
        ensures ScanFile(tc, d, f.file) == Some(f) && InScope(scope, f.file)
      {
        FreshMember(tc, d, scope, f);
      }
    }
  }

  lemma ScanIsCurrent<T>(tc: Toolchain<T>, origin: Origin, w: World, a: Action)
    requires a.RunScan? && TrueCache(tc, origin, w)
    ensures Current(tc, w.disk, a.scope, Scanned(tc, w, a))
  {
    FreshIsCurrent(tc, w.disk, a.scope);
    if a.useCache && Hit(w.disk, w.stored, a.cacheDir) {
      var cached := Load(w.stored).value;
      forall f | f in Rebuilt(tc, w.disk, cached, a.scope)
        ensures ScanFile(tc, w.disk, f.file) == Some(f) && InScope(a.scope, f.file)
      {
        HitAgreesPerFile(tc, origin, w.disk, cached, a.scope, f);
      }
    }
  }

  lemma ScanKeepsTrueCache<T>(tc: Toolchain<T>, origin: Origin, w: World, a: Action)
    requires a.RunScan? && TrueCache(tc, origin, w)
    ensures TrueCache(tc, origin, Act(tc, w, a))
  {
    var r := FreshScan(tc, w.disk, a.scope);
    if r.Ok? && a.write.Written? {
      StoredEntriesTrue(tc, origin, w.disk, a.scope);
      LoadAfterStore(w.stored, Entries(w.disk, r.value));
    }
  }

  /** A scan is complete unless it may and can use the cache. */
  ghost predicate CompleteUnlessCached<T>(tc: Toolchain<T>, w: World, a: Action)
    requires a.RunScan?
  {
    (a.useCache && a.cacheDir && Usable(w.disk, w.stored)) || Scanned(tc, w, a) == FreshScan(tc, w.disk, a.scope)
  }

  ghost predicate AlwaysCurrent<T>(tc: Toolchain<T>, w: World, actions: seq<Action>)
    decreases |actions|
  {
    actions == []
    || ((actions[0].RunScan? ==>
           Current(tc, w.disk, actions[0].scope, Scanned(tc, w, actions[0])) && CompleteUnlessCached(tc, w, actions[0]))
        && AlwaysCurrent(tc, Act(tc, w, actions[0]), actions[1..]))
  }

  /** In every run of honest disks, every file of every scan is what scanning that file at that point
      would give, and a scan that does not use the cache misses none, although one that does may miss
      new files, and scoped scans may fill the cache. */
  lemma {:induction false} EveryRunIsCurrent<T>(tc: Toolchain<T>, origin: Origin, w: World, actions: seq<Action>)
    requires TrueCache(tc, origin, w) && HonestRun(origin, actions)
    decreases |actions|
    ensures AlwaysCurrent(tc, w, actions)
  {
    if actions == [] {
    } else {
      assert actions[0] in actions && forall a :: a in actions[1..] ==> a in actions;
      if actions[0].RunScan? {
        ScanIsCurrent(tc, origin, w, actions[0]);
        HitExactly(w.disk, w.stored, actions[0].cacheDir);
        ScanKeepsTrueCache(tc, origin, w, actions[0]);
      }
      EveryRunIsCurrent(tc, origin, Act(tc, w, actions[0]), actions[1..]);
    }
  }

  // Where the cache goes wrong without the assumptions.

  /** A cache without entries is valid for ever: files that appear later are never found. */
  lemma EmptyCacheHidesNewFiles<T>(tc: Toolchain<T>, d: Disk, stored: Stored, scope: Option<Path>, write: Write,
                                   p: Path)
    requires Load(stored) == Ok([]) && DiskOk(d) && Start(scope) in d.present
    requires p in d.listing && InScope(scope, p) && ScanFile(tc, d, p).Some?
    ensures CachedScan(tc, d, stored, scope, true, true, write) == (Ok([]), stored)
    ensures FreshScan(tc, d, scope).value != []
  {
    FreshMember(tc, d, scope, ScanFile(tc, d, p).value);
  }

  /** After a scoped scan has filled the cache, an unscoped one sees the scope only. */
  lemma ScopedStoreHidesTheRest<T>(tc: Toolchain<T>, origin: Origin, d: Disk, stored: Stored,
                                   scope: Option<Path>, p: Path, write: Write)
    requires DiskOk(d) && Honest(origin, d) && Start(scope) in d.present && [] in d.present
    requires !Hit(d, stored, true) && p in d.listing && !InScope(scope, p) && ScanFile(tc, d, p).Some?
    ensures var stored' := CachedScan(tc, d, stored, scope, true, true, Written).1;
            CachedScan(tc, d, stored', None, true, true, write).0 != FreshScan(tc, d, None)
  {
    var cached := Entries(d, FreshScan(tc, d, scope).value);
    LoadAfterStore(stored, cached);
    StoredEntriesTrue(tc, origin, d, scope);
    var r := ScanFile(tc, d, p).value;
    FreshMember(tc, d, None, r);
    RebuiltMember(tc, origin, d, cached, None, r);
  }

  /** A hit on a scope that does not exist succeeds where the scan reports the missing path. */
  lemma MissingScopeUnreported<T>(tc: Toolchain<T>, d: Disk, stored: Stored, scope: Option<Path>, write: Write)
    requires Hit(d, stored, true) && Start(scope) !in d.present
    ensures CachedScan(tc, d, stored, scope, true, true, write).0.Ok? && FreshScan(tc, d, scope) == Err(NoSuchPath)
  {
  }
}
