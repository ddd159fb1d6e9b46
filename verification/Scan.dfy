/** Project scans (crates/codequery-index/src/scanner.rs, crates/codequery-index/src/grep.rs). */
module Scan {
  import opened Wrappers
  import opened Bytes
  import opened Symbols
  import opened WordSearch

  // The order of paths.

  predicate StringLess(a: string, b: string) {
    b != [] && (a == [] || a[0] < b[0] || (a[0] == b[0] && StringLess(a[1..], b[1..])))
  }

  /** `Ord` on paths compares them component by component. */
  predicate PathLess(a: Path, b: Path) {
    b != [] && (a == [] || StringLess(a[0], b[0]) || (a[0] == b[0] && PathLess(a[1..], b[1..])))
  }

  lemma {:induction false} StringLessTotal(a: string, b: string)
    ensures StringLess(a, b) || a == b || StringLess(b, a)
    ensures !(StringLess(a, b) && StringLess(b, a)) && !StringLess(a, a)
  {
    if a == [] {
    } else {
      StringLessTotal(a[1..], if b == [] then [] else b[1..]);
      assert b != [] && a[0] == b[0] && a[1..] == b[1..] ==> a == [a[0]] + a[1..] == [b[0]] + b[1..] == b;
    }
  }

  lemma {:induction false} StringLessTransitive(a: string, b: string, c: string)
    requires StringLess(a, b) && StringLess(b, c)
    ensures StringLess(a, c)
  {
    if a != [] && a[0] == b[0] == c[0] {
      StringLessTransitive(a[1..], b[1..], c[1..]);
    }
  }

  lemma {:induction false} PathLessTotal(a: Path, b: Path)
    ensures PathLess(a, b) || a == b || PathLess(b, a)
    ensures !(PathLess(a, b) && PathLess(b, a)) && !PathLess(a, a)
  {
    if a == [] {
    } else {
      StringLessTotal(a[0], if b == [] then [] else b[0]);
      PathLessTotal(a[1..], if b == [] then [] else b[1..]);
      assert b != [] && a[0] == b[0] && a[1..] == b[1..] ==> a == [a[0]] + a[1..] == [b[0]] + b[1..] == b;
    }
  }

  lemma {:induction false} PathLessTransitive(a: Path, b: Path, c: Path)
    requires PathLess(a, b) && PathLess(b, c)
    ensures PathLess(a, c)
  {
    if a == [] {
    } else {
      StringLessTotal(a[0], a[0]);
      if a[0] == b[0] == c[0] {
        PathLessTransitive(a[1..], b[1..], c[1..]);
      } else if a[0] != b[0] && b[0] != c[0] {
        StringLessTransitive(a[0], b[0], c[0]);
      }
    }
  }

  /** `a` and `b` agree up to position `k`, and differ there or end. */
  predicate PartAt<T(==)>(a: seq<T>, b: seq<T>, k: nat) {
    k <= |a| && k <= |b| && a[..k] == b[..k] && (k == |a| || k == |b| || a[k] != b[k])
  }

  /** `a` is a proper prefix of `b`, or has the smaller character where they part. */
  ghost predicate TextBefore(a: string, b: string) {
    exists k: nat :: PartAt(a, b, k) && k < |b| && (k == |a| || a[k] < b[k])
  }

  /** `a` lies above `b`, or has the smaller component where they part. */
  ghost predicate PathBefore(a: Path, b: Path) {
    exists k: nat :: PartAt(a, b, k) && k < |b| && (k == |a| || TextBefore(a[k], b[k]))
  }

  lemma PartAtNext<T>(a: seq<T>, b: seq<T>, k: nat)
    requires a != [] && b != [] && a[0] == b[0]
    ensures PartAt(a, b, k + 1) <==> PartAt(a[1..], b[1..], k)
    ensures PartAt(a, b, k) ==> k > 0
  {
    if k + 1 <= |a| && k + 1 <= |b| {
      assert a[..k + 1] == [a[0]] + a[1..][..k] && b[..k + 1] == [b[0]] + b[1..][..k];
      assert a[1..][..k] == a[..k + 1][1..] && b[1..][..k] == b[..k + 1][1..];
    }
  }

  lemma PartAtStart<T>(a: seq<T>, b: seq<T>, k: nat)
    requires a == [] || b == [] || a[0] != b[0]
    ensures PartAt(a, b, k) <==> k == 0
  {
    if k > 0 && k <= |a| && k <= |b| {
      assert a[..k][0] == a[0] && b[..k][0] == b[0];
    }
  }

  lemma {:induction false} StringLessExactly(a: string, b: string)
    ensures StringLess(a, b) <==> TextBefore(a, b)
  {
    if a == [] || b == [] || a[0] != b[0] {
      PartAtStart(a, b, 0);
      forall k: nat
        ensures PartAt(a, b, k) ==> k == 0
      {
        PartAtStart(a, b, k);
      }
    } else {
      StringLessExactly(a[1..], b[1..]);
      if TextBefore(a[1..], b[1..]) {
        var k: nat :| PartAt(a[1..], b[1..], k) && k < |b| - 1 && (k == |a| - 1 || a[1..][k] < b[1..][k]);
        PartAtNext(a, b, k);
        assert PartAt(a, b, k + 1);
      }
      if TextBefore(a, b) {
        var k: nat :| PartAt(a, b, k) && k < |b| && (k == |a| || a[k] < b[k]);
        PartAtNext(a, b, k);
        PartAtNext(a, b, k - 1);
        assert PartAt(a[1..], b[1..], k - 1);
      }
    }
  }

  /** The order of paths is by components, and of components by characters. */
  lemma {:induction false} PathLessExactly(a: Path, b: Path)
    ensures PathLess(a, b) <==> PathBefore(a, b)
  {
    if a == [] || b == [] || a[0] != b[0] {
      PartAtStart(a, b, 0);
      if a != [] && b != [] {
        StringLessExactly(a[0], b[0]);
      }
      forall k: nat
        ensures PartAt(a, b, k) ==> k == 0
      {
        PartAtStart(a, b, k);
      }
    } else {
      StringLessTotal(a[0], a[0]);
      PathLessExactly(a[1..], b[1..]);
      if PathBefore(a[1..], b[1..]) {
        var k: nat :| PartAt(a[1..], b[1..], k) && k < |b| - 1 && (k == |a| - 1 || TextBefore(a[1..][k], b[1..][k]));
        PartAtNext(a, b, k);
        assert PartAt(a, b, k + 1);
      }
      if PathBefore(a, b) {
        var k: nat :| PartAt(a, b, k) && k < |b| && (k == |a| || TextBefore(a[k], b[k]));
        PartAtNext(a, b, k);
        PartAtNext(a, b, k - 1);
        assert PartAt(a[1..], b[1..], k - 1);
      }
    }
  }

  // Files and what is extracted from them.

  datatype Stamp = Stamp(mtime: nat, size: nat)

  /** A file: its bytes when readable, and its metadata when that can be had. */
  datatype File = File(content: Option<seq<Byte>>, stamp: Option<Stamp>)

  /** The project directory: the sorted source files that are not ignored, all files, and every path that exists. */
  datatype Disk = Disk(listing: seq<Path>, files: map<Path, File>, present: set<Path>)

  predicate StrictlySorted(paths: seq<Path>) {
    forall i, j :: 0 <= i < j < |paths| ==> PathLess(paths[i], paths[j])
  }

  predicate DiskOk(d: Disk) {
    StrictlySorted(d.listing) && forall p :: p in d.listing ==> p in d.files
  }

  /** Parsing, which also fails for unknown languages and text that is not UTF-8, and extraction. */
  datatype Toolchain<!T> = Toolchain(parse: (Path, seq<Byte>) -> Option<T>,
                                     extract: (Path, seq<Byte>, T) -> seq<Symbol>)

  datatype FileSymbols<T> = FileSymbols(file: Path, symbols: seq<Symbol>, source: seq<Byte>, tree: T)

  datatype ScanError = NoSuchPath

  predicate InScope(scope: Option<Path>, p: Path) {
    scope.None? || scope.value <= p
  }

  function Start(scope: Option<Path>): Path {
    match scope case Some(s) => s case None => []
  }

  function Keep<A(!new)>(items: seq<A>, test: A -> bool): (kept: seq<A>)
    ensures forall a :: a in kept <==> a in items && test(a)
  {
    if items == [] then []
    else Keep(items[..|items| - 1], test) + (if test(items[|items| - 1]) then [items[|items| - 1]] else [])
  }

  function Scoped(scope: Option<Path>): Path -> bool { p => InScope(scope, p) }

  /** `discover_files`. */
  function Discover(d: Disk, scope: Option<Path>): Result<seq<Path>, ScanError> {
    if Start(scope) !in d.present then Err(NoSuchPath) else Ok(Keep(d.listing, Scoped(scope)))
  }

  /** `scan_single_file`. */
  function ScanFile<T>(tc: Toolchain<T>, d: Disk, p: Path): (r: Option<FileSymbols<T>>)
    ensures r.Some? ==> r.value.file == p
  {
    if p !in d.files || d.files[p].content.None? then None
    else
      var source := d.files[p].content.value;
      match tc.parse(p, source)
      case None => None
      case Some(tree) => Some(FileSymbols(p, tc.extract(p, source, tree), source, tree))
  }

  function Scanner<T>(tc: Toolchain<T>, d: Disk): Path -> Option<FileSymbols<T>> {
    p => ScanFile(tc, d, p)
  }

  function ToSeq<B>(o: Option<B>): seq<B> {
    match o case Some(b) => [b] case None => []
  }

  /** The values that `f` gives for the items, in their order. */
  function FilterMap<A, B>(items: seq<A>, f: A -> Option<B>): seq<B> {
    if items == [] then []
    else FilterMap(items[..|items| - 1], f) + ToSeq(f(items[|items| - 1]))
  }

  /** A scan, file after file. */
  function FreshScan<T>(tc: Toolchain<T>, d: Disk, scope: Option<Path>): Result<seq<FileSymbols<T>>, ScanError> {
    match Discover(d, scope)
    case Err(e) => Err(e)
    case Ok(files) => Ok(FilterMap(files, Scanner(tc, d)))
  }

  lemma {:induction false} FilterMapAppend<A, B>(a: seq<A>, b: seq<A>, f: A -> Option<B>)
    ensures FilterMap(a + b, f) == FilterMap(a, f) + FilterMap(b, f)
  {
    if b == [] {
      assert a + b == a;
    } else {
      var n := |b| - 1;
      assert (a + b)[..|a + b| - 1] == a + b[..n];
      FilterMapAppend(a, b[..n], f);
    }
  }

  lemma {:induction false} FilterMapMember<A, B>(items: seq<A>, f: A -> Option<B>, b: B)
    ensures b in FilterMap(items, f) <==> exists a :: a in items && f(a) == Some(b)
  {
    if items == [] {
    } else {
      var front, last := items[..|items| - 1], items[|items| - 1];
      FilterMapMember(front, f, b);
      assert items == front + [last];
      assert forall a :: a in items <==> a in front || a == last;
    }
  }

  // Sorting by file.

  predicate SortedStrictly<T>(s: seq<FileSymbols<T>>) {
    forall i, j :: 0 <= i < j < |s| ==> PathLess(s[i].file, s[j].file)
  }

  predicate Sorted<T>(s: seq<FileSymbols<T>>) {
    forall i, j :: 0 <= i < j < |s| ==> !PathLess(s[j].file, s[i].file)
  }

  function Insert<T>(x: FileSymbols<T>, s: seq<FileSymbols<T>>): seq<FileSymbols<T>> {
    if s == [] then [x]
    else if PathLess(s[0].file, x.file) then [s[0]] + Insert(x, s[1..])
    else [x] + s
  }

  lemma {:induction false} InsertKeepsSorted<T(!new)>(x: FileSymbols<T>, s: seq<FileSymbols<T>>)
    requires Sorted(s)
    ensures Sorted(Insert(x, s)) && multiset(Insert(x, s)) == multiset(s) + multiset{x}
  {
    if s == [] {
    } else {
      if PathLess(s[0].file, x.file) {
        var r := Insert(x, s[1..]);
        assert s == [s[0]] + s[1..];
        InsertKeepsSorted(x, s[1..]);
        SmallestFirst(s[0], s, r, x);
      } else {
        BelowAll(x, s);
      }
    }
  }

  lemma SmallestFirst<T(!new)>(first: FileSymbols<T>, s: seq<FileSymbols<T>>, r: seq<FileSymbols<T>>, x: FileSymbols<T>)
    requires s != [] && first == s[0] && Sorted(s) && PathLess(first.file, x.file)
    requires multiset(r) == multiset(s[1..]) + multiset{x}
    ensures forall i :: 0 <= i < |r| ==> !PathLess(r[i].file, first.file)
  {
    forall i | 0 <= i < |r|
      ensures !PathLess(r[i].file, first.file)
    {
      PathLessTotal(first.file, x.file);
      assert r[i] in multiset(r);
      if r[i] != x {
        assert r[i] in s[1..];
      }
    }
  }

  lemma BelowAll<T>(x: FileSymbols<T>, s: seq<FileSymbols<T>>)
    requires s != [] && Sorted(s) && !PathLess(s[0].file, x.file)
    ensures forall i :: 0 <= i < |s| ==> !PathLess(s[i].file, x.file)
  {
    forall i | 0 <= i < |s|
      ensures !PathLess(s[i].file, x.file)
    {
      PathLessTotal(s[0].file, s[i].file);
      if PathLess(s[i].file, x.file) && PathLess(s[0].file, s[i].file) {
        PathLessTransitive(s[0].file, s[i].file, x.file);
      }
    }
  }

  /** `results.sort_by(|a, b| a.file.cmp(&b.file))`. */
  function SortByFile<T>(s: seq<FileSymbols<T>>): seq<FileSymbols<T>> {
    if s == [] then [] else Insert(s[|s| - 1], SortByFile(s[..|s| - 1]))
  }

  lemma {:induction false} SortByFileSorts<T(!new)>(s: seq<FileSymbols<T>>)
    ensures Sorted(SortByFile(s)) && multiset(SortByFile(s)) == multiset(s)
  {
    if s == [] {
    } else {
      assert s == s[..|s| - 1] + [s[|s| - 1]];
      SortByFileSorts(s[..|s| - 1]);
      InsertKeepsSorted(s[|s| - 1], SortByFile(s[..|s| - 1]));
    }
  }

  lemma SortedHeads<T>(a: seq<FileSymbols<T>>, b: seq<FileSymbols<T>>)
    requires SortedStrictly(a) && Sorted(b) && multiset(a) == multiset(b) && a != [] && b != []
    ensures a[0] == b[0]
  {
    assert a[0] in multiset(b) && b[0] in multiset(a);
    var i :| 0 <= i < |a| && a[i] == b[0];
    var j :| 0 <= j < |b| && b[j] == a[0];
    PathLessTotal(a[0].file, a[0].file);
    assert j > 0 ==> !PathLess(b[j].file, b[0].file);
    assert i == 0;
  }

  lemma TailMultiset<A>(s: seq<A>)
    requires s != []
    ensures multiset(s[1..]) == multiset(s) - multiset{s[0]}
  {
    assert s == [s[0]] + s[1..];
  }

  /** Distinct files have only one sorted order. */
  lemma {:induction false} SortedUnique<T>(a: seq<FileSymbols<T>>, b: seq<FileSymbols<T>>)
    requires SortedStrictly(a) && Sorted(b) && multiset(a) == multiset(b)
    ensures a == b
  {
    assert |a| == |multiset(a)| == |multiset(b)| == |b|;
    if a == [] {
    } else {
      SortedHeads(a, b);
      TailMultiset(a);
      TailMultiset(b);
      SortedUnique(a[1..], b[1..]);
      assert a == [a[0]] + a[1..] && b == [a[0]] + b[1..];
    }
  }

  lemma FilterMapThrough<A, B>(before: seq<A>, item: A, after: seq<A>, f: A -> Option<B>)
    ensures FilterMap(before + [item] + after, f) == FilterMap(before, f) + ToSeq(f(item)) + FilterMap(after, f)
  {
    FilterMapAppend(before + [item], after, f);
    FilterMapAppend(before, [item], f);
    FilterMapOne(item, f);
  }

  lemma FilterMapWithout<A, B>(before: seq<A>, item: A, after: seq<A>, f: A -> Option<B>)
    ensures multiset(FilterMap(before + [item] + after, f))
         == multiset(FilterMap(before + after, f)) + multiset(ToSeq(f(item)))
  {
    FilterMapThrough(before, item, after, f);
    FilterMapAppend(before, after, f);
    MiddleLast(FilterMap(before, f), ToSeq(f(item)), FilterMap(after, f));
  }

  lemma MiddleLast<B>(a: seq<B>, o: seq<B>, b: seq<B>)
    ensures multiset(a + o + b) == multiset(a + b) + multiset(o)
  {
  }

  lemma FilterMapOne<A, B>(item: A, f: A -> Option<B>)
    ensures FilterMap([item], f) == ToSeq(f(item))
  {
    assert [item][..0] == [];
  }

  lemma SplitAt<A>(s: seq<A>, k: nat)
    requires k < |s|
    ensures s == s[..k] + [s[k]] + s[k + 1..]
  {
  }

  lemma FilterMapTaken<A, B>(before: seq<A>, item: A, after: seq<A>,
                             f: A -> Option<B>, results: seq<B>, total: multiset<B>)
    requires multiset(results) + multiset(FilterMap(before + [item] + after, f)) == total
    ensures multiset(results + ToSeq(f(item))) + multiset(FilterMap(before + after, f)) == total
  {
    FilterMapWithout(before, item, after, f);
  }

  /** The parallel iterators: workers finish in any order. */
  method ParallelFilterMap<A, B>(items: seq<A>, f: A -> Option<B>) returns (results: seq<B>)
    ensures multiset(results) == multiset(FilterMap(items, f))
  {
    results := [];
    var pending := items;
    ghost var total := multiset(FilterMap(items, f));
    while pending != []
      invariant multiset(results) + multiset(FilterMap(pending, f)) == total
      decreases |pending|
    {
      var k: nat :| k < |pending|;
      var before, item, after := pending[..k], pending[k], pending[k + 1..];
      SplitAt(pending, k);
      FilterMapTaken(before, item, after, f, results, total);
      results := results + ToSeq(f(item));
      pending := before + after;
    }
  }

  lemma LastIsGreatest(paths: seq<Path>)
    requires StrictlySorted(paths) && paths != []
    ensures var last := paths[|paths| - 1]; forall p :: p in paths[..|paths| - 1] ==> PathLess(p, last)
  {
  }

  lemma {:induction false} KeepStrictlySorted(paths: seq<Path>, test: Path -> bool)
    requires StrictlySorted(paths)
    ensures StrictlySorted(Keep(paths, test))
  {
    if paths == [] {
    } else {
      var front, last := paths[..|paths| - 1], paths[|paths| - 1];
      KeepStrictlySorted(front, test);
      LastIsGreatest(paths);
      assert forall p :: p in Keep(front, test) ==> p in front;
    }
  }

  lemma {:induction false} ScanStrictlySorted<T>(tc: Toolchain<T>, d: Disk, paths: seq<Path>)
    requires StrictlySorted(paths)
    ensures SortedStrictly(FilterMap(paths, Scanner(tc, d)))
  {
    if paths == [] {
    } else {
      var front, last := paths[..|paths| - 1], paths[|paths| - 1];
      ScanStrictlySorted(tc, d, front);
      var results := FilterMap(front, Scanner(tc, d));
      forall r | r in results
        ensures PathLess(r.file, last)
      {
        FilterMapMember(front, Scanner(tc, d), r);
      }
    }
  }

  /** The result of a scan does not depend on the order in which the workers finish. */
  method ScanProject<T(!new)>(tc: Toolchain<T>, d: Disk, scope: Option<Path>) returns (r: Result<seq<FileSymbols<T>>,
                                                                                                 ScanError>)
    requires DiskOk(d)
    ensures r == FreshScan(tc, d, scope)
  {
    var files := Discover(d, scope);
    if files.Err? {
      return Err(files.error);
    }
    var results := ParallelFilterMap(files.value, Scanner(tc, d));
    KeepStrictlySorted(d.listing, Scoped(scope));
    ScanStrictlySorted(tc, d, files.value);
    SortByFileSorts(results);
    SortedUnique(FilterMap(files.value, Scanner(tc, d)), SortByFile(results));
    r := Ok(SortByFile(results));
  }

  /** The result of a file: its bytes, read now, their tree, and what is extracted from both. */
  ghost predicate IsResultOf<T>(tc: Toolchain<T>, d: Disk, r: FileSymbols<T>) {
    && r.file in d.files && d.files[r.file].content == Some(r.source)
    && tc.parse(r.file, r.source) == Some(r.tree) && r.symbols == tc.extract(r.file, r.source, r.tree)
  }

  /** A scan fails exactly when the path does not exist. Otherwise it holds one result, in path order, for
      each listed file in the scope that can be read and parsed, and nothing else. */
  lemma FreshScanExactly<T>(tc: Toolchain<T>, d: Disk, scope: Option<Path>)
    requires DiskOk(d)
    ensures var path := if scope.Some? then scope.value else [];
            (FreshScan(tc, d, scope) == Err(NoSuchPath) <==> path !in d.present)
            && (FreshScan(tc, d, scope).Ok? <==> path in d.present)
            && (path in d.present ==>
                  var results := FreshScan(tc, d, scope).value;
                  SortedStrictly(results)
                  && forall r :: r in results <==> r.file in d.listing && path <= r.file && IsResultOf(tc, d, r))
  {
    if FreshScan(tc, d, scope).Ok? {
      var files := Keep(d.listing, Scoped(scope));
      KeepStrictlySorted(d.listing, Scoped(scope));
      ScanStrictlySorted(tc, d, files);
      forall r
        ensures r in FilterMap(files, Scanner(tc, d))
           <==> r.file in d.listing && InScope(scope, r.file) && IsResultOf(tc, d, r)
      {
        FilterMapMember(files, Scanner(tc, d), r);
        if IsResultOf(tc, d, r) {
          assert Scanner(tc, d)(r.file) == Some(r);
        }
      }
    }
  }

  // The scan behind the text filter.

  /** A readable file that holds the word on its own. */
  ghost predicate HasWord(d: Disk, word: seq<Byte>, p: Path) {
    p in d.files && d.files[p].content.Some? && word != [] && StandsAlone(d.files[p].content.value, word)
  }

  /** The results for files that hold the word. */
  ghost function WithWord<T>(d: Disk, word: seq<Byte>, results: seq<FileSymbols<T>>): seq<FileSymbols<T>> {
    if results == [] then []
    else
      var last := results[|results| - 1];
      WithWord(d, word, results[..|results| - 1]) + (if HasWord(d, word, last.file) then [last] else [])
  }

  ghost function PathsWithWord(d: Disk, word: seq<Byte>, paths: seq<Path>): (kept: seq<Path>)
    ensures forall p :: p in kept ==> p in paths
  {
    if paths == [] then []
    else
      var last := paths[|paths| - 1];
      PathsWithWord(d, word, paths[..|paths| - 1]) + (if HasWord(d, word, last) then [last] else [])
  }

  method FilterFiles(d: Disk, files: seq<Path>, word: seq<Byte>) returns (kept: seq<Path>)
    ensures kept == PathsWithWord(d, word, files)
  {
    kept := [];
    var i := 0;
    while i < |files|
      invariant 0 <= i <= |files| && kept == PathsWithWord(d, word, files[..i])
    {
      var content := if files[i] in d.files then d.files[files[i]].content else None;
      var found := FileContainsWord(content, word);
      if found == Some(true) {
        kept := kept + [files[i]];
      }
      assert files[..i + 1][..i] == files[..i];
      i := i + 1;
    }
    assert files[..i] == files;
  }

  lemma {:induction false} FilterThenScan<T>(tc: Toolchain<T>, d: Disk, word: seq<Byte>, paths: seq<Path>)
    ensures FilterMap(PathsWithWord(d, word, paths), Scanner(tc, d))
         == WithWord(d, word, FilterMap(paths, Scanner(tc, d)))
  {
    if paths == [] {
    } else {
      var f, last := Scanner(tc, d), paths[|paths| - 1];
      var front := paths[..|paths| - 1];
      FilterThenScan(tc, d, word, front);
      WithWordNext(d, word, FilterMap(front, f), f(last));
      KeptNext(PathsWithWord(d, word, front), HasWord(d, word, last), last, f);
    }
  }

  lemma KeptNext<A, B>(kept: seq<A>, keep: bool, item: A, f: A -> Option<B>)
    ensures FilterMap(kept + (if keep then [item] else []), f)
         == FilterMap(kept, f) + (if keep then ToSeq(f(item)) else [])
  {
    if keep {
      FilterMapAppend(kept, [item], f);
      FilterMapOne(item, f);
    } else {
      assert kept + [] == kept;
    }
  }

  lemma WithWordNext<T>(d: Disk, word: seq<Byte>, results: seq<FileSymbols<T>>, next: Option<FileSymbols<T>>)
    ensures WithWord(d, word, results + ToSeq(next))
         == WithWord(d, word, results) + (if next.Some? && !HasWord(d, word, next.value.file) then [] else ToSeq(next))
  {
    match next {
      case Some(r) => assert (results + [r])[..|results|] == results;
      case None => assert results + [] == results;
    }
  }

  lemma {:induction false} PathsWithWordSorted(d: Disk, word: seq<Byte>, paths: seq<Path>)
    requires StrictlySorted(paths)
    ensures StrictlySorted(PathsWithWord(d, word, paths))
  {
    if paths == [] {
    } else {
      PathsWithWordSorted(d, word, paths[..|paths| - 1]);
      LastIsGreatest(paths);
    }
  }

  /** Filtering before the scan gives the scan restricted to the files that hold the word. */
  method ScanWithFilter<T(!new)>(tc: Toolchain<T>, d: Disk, scope: Option<Path>, word: seq<Byte>)
    returns (r: Result<seq<FileSymbols<T>>, ScanError>)
    requires DiskOk(d)
    ensures FreshScan(tc, d, scope).Ok? ==> r == Ok(WithWord(d, word, FreshScan(tc, d, scope).value))
    ensures FreshScan(tc, d, scope).Err? ==> r == FreshScan(tc, d, scope)
  {
    var files := Discover(d, scope);
    if files.Err? {
      return Err(files.error);
    }
    var filtered := FilterFiles(d, files.value, word);
    var results := ParallelFilterMap(filtered, Scanner(tc, d));
    KeepStrictlySorted(d.listing, Scoped(scope));
    PathsWithWordSorted(d, word, files.value);
    ScanStrictlySorted(tc, d, filtered);
    SortByFileSorts(results);
    SortedUnique(FilterMap(filtered, Scanner(tc, d)), SortByFile(results));
    FilterThenScan(tc, d, word, files.value);
    r := Ok(SortByFile(results));
  }
}
