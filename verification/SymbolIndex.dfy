/** The in-memory symbol index (crates/codequery-index/src/index.rs). */
module SymbolIndex {
  import opened Wrappers
  import opened Symbols

  predicate Increasing(s: seq<nat>) {
    forall i, j :: 0 <= i < j < |s| ==> s[i] < s[j]
  }

  /** The positions at which `keys` has `k`, in order. */
  function Positions<K(==)>(keys: seq<K>, k: K): (s: seq<nat>)
    ensures forall j :: 0 <= j < |s| ==> s[j] < |keys| && keys[s[j]] == k
    ensures Increasing(s)
  {
    if keys == [] then []
    else
      var n := |keys| - 1;
      Positions(keys[..n], k) + (if keys[n] == k then [n] else [])
  }

  /** `m` has the keys that occur in `keys`, each with the list of its positions. */
  ghost predicate Buckets<K(!new)>(m: map<K, seq<nat>>, keys: seq<K>) {
    && (forall k :: k in m <==> k in keys)
    && (forall k :: k in m ==> m[k] == Positions(keys, k))
  }

  /** `entry(key).or_default().push(position)`. */
  function Push<K>(m: map<K, seq<nat>>, key: K, position: nat): map<K, seq<nat>> {
    m[key := (if key in m then m[key] else []) + [position]]
  }

  lemma {:induction false} PositionsAbsent<K>(keys: seq<K>, k: K)
    requires k !in keys
    ensures Positions(keys, k) == []
  {
    if keys == [] {
    } else {
      PositionsAbsent(keys[..|keys| - 1], k);
      assert keys[|keys| - 1] in keys;
    }
  }

  lemma PositionsNext<K>(keys: seq<K>, key: K, k: K)
    ensures Positions(keys + [key], k) == Positions(keys, k) + (if key == k then [|keys|] else [])
  {
    assert (keys + [key])[..|keys|] == keys;
  }

  lemma PushKeepsBuckets<K(!new)>(m: map<K, seq<nat>>, keys: seq<K>, key: K)
    requires Buckets(m, keys)
    ensures Buckets(Push(m, key, |keys|), keys + [key])
  {
    var m' := Push(m, key, |keys|);
    forall k
      ensures k in m' <==> k in keys + [key]
      ensures k in m' ==> m'[k] == Positions(keys + [key], k)
    {
      PositionsNext(keys, key, k);
      if k !in m {
        PositionsAbsent(keys, k);
      }
    }
  }

  lemma {:induction false} PositionsComplete<K>(keys: seq<K>, i: nat)
    requires i < |keys|
    ensures i in Positions(keys, keys[i])
  {
    if i < |keys| - 1 {
      PositionsComplete(keys[..|keys| - 1], i);
    }
  }

  /** The buckets partition the positions below |keys|, each in increasing order. */
  lemma BucketsPartition<K(!new)>(m: map<K, seq<nat>>, keys: seq<K>)
    requires Buckets(m, keys)
    ensures forall k :: k in m ==> m[k] != [] && Increasing(m[k])
    ensures forall i :: 0 <= i < |keys| ==> keys[i] in m && i in m[keys[i]]
    ensures forall k, i :: k in m && i in m[k] ==> 0 <= i < |keys| && keys[i] == k
  {
    forall i | 0 <= i < |keys|
      ensures keys[i] in m && i in m[keys[i]]
    {
      PositionsComplete(keys, i);
    }
    forall k | k in m
      ensures m[k] != [] && Increasing(m[k])
    {
      var i :| 0 <= i < |keys| && keys[i] == k;
      PositionsComplete(keys, i);
    }
  }

  /** The elements at the given positions. */
  function Select<T>(s: seq<T>, positions: seq<nat>): seq<T>
    requires forall j :: 0 <= j < |positions| ==> positions[j] < |s|
  {
    seq(|positions|, j requires 0 <= j < |positions| => s[positions[j]])
  }

  /** The elements whose key is `k`, in order and with multiplicity. */
  function Matching<T, K(==)>(s: seq<T>, keys: seq<K>, k: K): seq<T>
    requires |s| == |keys|
  {
    if s == [] then []
    else
      var n := |s| - 1;
      Matching(s[..n], keys[..n], k) + (if keys[n] == k then [s[n]] else [])
  }

  /** Following a bucket into the flat vector. */
  function Lookup<T, K(!new)>(s: seq<T>, m: map<K, seq<nat>>, ghost keys: seq<K>, k: K): seq<T>
    requires |s| == |keys| && Buckets(m, keys)
  {
    if k in m then Select(s, m[k]) else []
  }

  lemma {:induction false} SelectPositions<T, K>(s: seq<T>, keys: seq<K>, k: K)
    requires |s| == |keys|
    ensures Select(s, Positions(keys, k)) == Matching(s, keys, k)
  {
    if s == [] {
    } else {
      var n := |s| - 1;
      SelectPositions(s[..n], keys[..n], k);
      var p := Positions(keys[..n], k);
      var last := if keys[n] == k then [n] else [];
      assert Positions(keys, k) == p + last;
      assert Select(s, p) == Select(s[..n], p);
      assert Select(s, p + last) == Select(s, p) + Select(s, last);
    }
  }

  /** A lookup returns exactly the in-order filter of the flat vector. */
  lemma LookupIsFilter<T, K(!new)>(s: seq<T>, m: map<K, seq<nat>>, keys: seq<K>, k: K)
    requires |s| == |keys| && Buckets(m, keys)
    ensures Lookup(s, m, keys, k) == Matching(s, keys, k)
  {
    SelectPositions(s, keys, k);
    if k !in m {
      PositionsAbsent(keys, k);
    }
  }

  lemma {:induction false} MatchingMember<T, K>(s: seq<T>, keys: seq<K>, k: K, x: T)
    requires |s| == |keys|
    ensures x in Matching(s, keys, k) <==> exists i :: 0 <= i < |s| && s[i] == x && keys[i] == k
  {
    if s == [] {
    } else {
      var n := |s| - 1;
      MatchingMember(s[..n], keys[..n], k, x);
    }
  }

  function Names(s: seq<Symbol>): (ks: seq<string>)
    ensures |ks| == |s|
  {
    seq(|s|, i requires 0 <= i < |s| => s[i].name)
  }

  function Files(s: seq<Symbol>): (ks: seq<Path>)
    ensures |ks| == |s|
  {
    seq(|s|, i requires 0 <= i < |s| => s[i].file)
  }

  function Kinds(s: seq<Symbol>): (ks: seq<SymbolKind>)
    ensures |ks| == |s|
  {
    seq(|s|, i requires 0 <= i < |s| => s[i].kind)
  }

  lemma KeysNext(s: seq<Symbol>, sym: Symbol)
    ensures Names(s + [sym]) == Names(s) + [sym.name]
    ensures Files(s + [sym]) == Files(s) + [sym.file]
    ensures Kinds(s + [sym]) == Kinds(s) + [sym.kind]
  {
  }

  class SymbolIndex {
    var symbols: seq<Symbol>
    var byName: map<string, seq<nat>>
    var byFile: map<Path, seq<nat>>
    var byKind: map<SymbolKind, seq<nat>>

    ghost predicate Valid()
      reads this
    {
      Buckets(byName, Names(symbols)) && Buckets(byFile, Files(symbols)) && Buckets(byKind, Kinds(symbols))
    }

    /** `from_scan`, given the symbol forests of the scanned files in order. */
    constructor FromScan(scan: seq<seq<Symbol>>)
      ensures Valid()
      ensures symbols == Flatten(Concat(scan))
      ensures |symbols| == CountRecursive(Concat(scan))
    {
      symbols, byName, byFile, byKind := [], map[], map[], map[];
      new;
      var i := 0;
      while i < |scan|
        invariant 0 <= i <= |scan|
        invariant Valid()
        invariant symbols == Flatten(Concat(scan[..i]))
      {
        CollectSymbols(scan[i]);
        assert scan[..i + 1][..i] == scan[..i];
        FlattenAppend(Concat(scan[..i]), scan[i]);
        i := i + 1;
      }
      assert scan[..i] == scan;
      FlattenLength(Concat(scan));
    }

    /** Appends a forest in pre-order to the vector and to the three maps. */
    method CollectSymbols(source: seq<Symbol>)
      requires Valid()
      modifies this
      decreases source
      ensures Valid()
      ensures symbols == old(symbols) + Flatten(source)
    {
      var i := 0;
      while i < |source|
        invariant 0 <= i <= |source|
        invariant Valid()
        invariant symbols == old(symbols) + Flatten(source[..i])
      {
        var sym := source[i];
        Add(sym);
        if sym.children != [] {
          CollectSymbols(sym.children);
        }
        FlattenNext(source, i);
        i := i + 1;
      }
      assert source[..i] == source;
    }

    method Add(sym: Symbol)
      requires Valid()
      modifies this
      ensures Valid()
      ensures symbols == old(symbols) + [sym]
    {
      var idx := |symbols|;
      KeysNext(symbols, sym);
      PushKeepsBuckets(byName, Names(symbols), sym.name);
      PushKeepsBuckets(byFile, Files(symbols), sym.file);
      PushKeepsBuckets(byKind, Kinds(symbols), sym.kind);
      symbols := symbols + [sym];
      byName := Push(byName, sym.name, idx);
      byFile := Push(byFile, sym.file, idx);
      byKind := Push(byKind, sym.kind, idx);
    }

    method FindByName(name: string) returns (found: seq<Symbol>)
      requires Valid()
      ensures found == Matching(symbols, Names(symbols), name)
      ensures forall sym :: sym in found <==> sym in symbols && sym.name == name
    {
      forall sym
        ensures sym in Matching(symbols, Names(symbols), name) <==> sym in symbols && sym.name == name
      {
        MatchingMember(symbols, Names(symbols), name, sym);
      }
      LookupIsFilter(symbols, byName, Names(symbols), name);
      found := Lookup(symbols, byName, Names(symbols), name);
    }

    method FindByKind(kind: SymbolKind) returns (found: seq<Symbol>)
      requires Valid()
      ensures found == Matching(symbols, Kinds(symbols), kind)
      ensures forall sym :: sym in found <==> sym in symbols && sym.kind == kind
    {
      forall sym
        ensures sym in Matching(symbols, Kinds(symbols), kind) <==> sym in symbols && sym.kind == kind
      {
        MatchingMember(symbols, Kinds(symbols), kind, sym);
      }
      LookupIsFilter(symbols, byKind, Kinds(symbols), kind);
      found := Lookup(symbols, byKind, Kinds(symbols), kind);
    }

    method SymbolsInFile(file: Path) returns (found: seq<Symbol>)
      requires Valid()
      ensures found == Matching(symbols, Files(symbols), file)
      ensures forall sym :: sym in found <==> sym in symbols && sym.file == file
    {
      forall sym
        ensures sym in Matching(symbols, Files(symbols), file) <==> sym in symbols && sym.file == file
      {
        MatchingMember(symbols, Files(symbols), file, sym);
      }
      LookupIsFilter(symbols, byFile, Files(symbols), file);
      found := Lookup(symbols, byFile, Files(symbols), file);
    }
  }

  function Concat<T>(ss: seq<seq<T>>): seq<T> {
    if ss == [] then [] else Concat(ss[..|ss| - 1]) + ss[|ss| - 1]
  }
}
