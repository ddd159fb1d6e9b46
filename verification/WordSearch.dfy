/** The text pre-filter (crates/codequery-index/src/grep.rs). */
module WordSearch {
  import opened Wrappers
  import opened Bytes

  predicate IsWordChar(b: Byte) {
    48 <= b <= 57 || 65 <= b <= 90 || 97 <= b <= 122 || b == 95
  }

  /** The word bytes are the ASCII letters, the digits, and the underscore. */
  lemma WordCharsExactly(b: Byte)
    ensures IsWordChar(b) <==>
            var c := b as char; 'a' <= c <= 'z' || 'A' <= c <= 'Z' || '0' <= c <= '9' || c == '_'
  {
  }

  predicate IsWordBoundary(data: seq<Byte>, pos: nat, len: nat)
    requires pos + len <= |data|
  {
    !(pos > 0 && IsWordChar(data[pos - 1])) && !(pos + len < |data| && IsWordChar(data[pos + len]))
  }

  /** `data` holds `word` at `pos`. */
  predicate OccursAt(data: seq<Byte>, word: seq<Byte>, pos: nat) {
    pos + |word| <= |data| && data[pos..pos + |word|] == word
  }

  /** `data` is `word` between two texts that do not touch it with a word character. */
  ghost predicate StandsAlone(data: seq<Byte>, word: seq<Byte>) {
    exists before, after :: SetApart(data, before, word, after)
  }

  ghost predicate SetApart(data: seq<Byte>, before: seq<Byte>, word: seq<Byte>, after: seq<Byte>) {
    data == before + word + after
    && (before != [] ==> !IsWordChar(before[|before| - 1]))
    && (after != [] ==> !IsWordChar(after[0]))
  }

  /** `memmem::Finder::find`: the first occurrence of a nonempty needle. */
  function Find(hay: seq<Byte>, needle: seq<Byte>): (r: Option<nat>)
    requires needle != []
    ensures r.Some? ==> OccursAt(hay, needle, r.value) && forall p :: 0 <= p < r.value ==> !OccursAt(hay, needle, p)
    ensures r.None? ==> forall p :: 0 <= p ==> !OccursAt(hay, needle, p)
  {
    FindFrom(hay, needle, 0)
  }

  function FindFrom(hay: seq<Byte>, needle: seq<Byte>, from: nat): (r: Option<nat>)
    requires needle != []
    decreases |hay| - from
    ensures r.Some? ==> from <= r.value && OccursAt(hay, needle, r.value)
                        && forall p :: from <= p < r.value ==> !OccursAt(hay, needle, p)
    ensures r.None? ==> forall p :: from <= p ==> !OccursAt(hay, needle, p)
  {
    if from + |needle| > |hay| then None
    else if hay[from..from + |needle|] == needle then Some(from)
    else FindFrom(hay, needle, from + 1)
  }

  lemma StandsAloneAt(data: seq<Byte>, word: seq<Byte>, pos: nat)
    requires OccursAt(data, word, pos) && IsWordBoundary(data, pos, |word|)
    ensures StandsAlone(data, word)
  {
    var before, after := data[..pos], data[pos + |word|..];
    assert SetApart(data, before, word, after);
  }

  lemma StandsAlonePosition(data: seq<Byte>, word: seq<Byte>) returns (pos: nat)
    requires StandsAlone(data, word)
    ensures OccursAt(data, word, pos) && IsWordBoundary(data, pos, |word|)
  {
    var before, after :| SetApart(data, before, word, after);
    pos := |before|;
    assert data[pos..pos + |word|] == word;
    assert after != [] ==> data[pos + |word|] == after[0];
  }

  lemma OccursInSuffix(data: seq<Byte>, word: seq<Byte>, start: nat, p: nat)
    requires start <= |data|
    ensures OccursAt(data, word, start + p) <==> OccursAt(data[start..], word, p)
  {
    if start + p + |word| <= |data| {
      assert data[start..][p..p + |word|] == data[start + p..start + p + |word|];
    }
  }

  /** No position before `end` is a standalone occurrence. */
  ghost predicate NoneBefore(data: seq<Byte>, word: seq<Byte>, end: nat) {
    forall p :: 0 <= p < end && OccursAt(data, word, p) ==> !IsWordBoundary(data, p, |word|)
  }

  /** Looking past `start` only passes over positions that hold no occurrence at all. */
  lemma SkipAhead(data: seq<Byte>, word: seq<Byte>, start: nat, hit: nat)
    requires start <= |data| && NoneBefore(data, word, start)
    requires forall p :: 0 <= p < hit ==> !OccursAt(data[start..], word, p)
    ensures NoneBefore(data, word, start + hit)
  {
    forall p | start <= p < start + hit
      ensures !OccursAt(data, word, p)
    {
      OccursInSuffix(data, word, start, p - start);
    }
  }

  lemma NoneAnywhere(data: seq<Byte>, word: seq<Byte>)
    requires NoneBefore(data, word, |data| + 1)
    ensures !StandsAlone(data, word)
  {
    if StandsAlone(data, word) {
      var pos := StandsAlonePosition(data, word);
      assert false;
    }
  }

  /** The skip-ahead search finds a standalone occurrence whenever there is one, overlapping
      occurrences included, and nothing else. */
  method DataContainsWord(data: seq<Byte>, word: seq<Byte>) returns (found: bool)
    ensures found <==> word != [] && StandsAlone(data, word)
  {
    if word == [] {
      return false;
    }
    var start := 0;
    while start <= |data|
      invariant start <= |data| + 1 && NoneBefore(data, word, start)
    {
      var hit := Find(data[start..], word);
      if hit.None? {
        SkipAhead(data, word, start, |data| + 1 - start);
        break;
      }
      SkipAhead(data, word, start, hit.value);
      var absolute := start + hit.value;
      OccursInSuffix(data, word, start, hit.value);
      if IsWordBoundary(data, absolute, |word|) {
        StandsAloneAt(data, word, absolute);
        return true;
      }
      start := absolute + 1;
    }
    NoneAnywhere(data, word);
    found := false;
  }

  /** Whether a file, if it can be read, has the word; an empty file is not searched. */
  method FileContainsWord(content: Option<seq<Byte>>, word: seq<Byte>) returns (r: Option<bool>)
    ensures r.None? <==> content.None?
    ensures r.Some? ==> (r.value <==> word != [] && StandsAlone(content.value, word))
  {
    match content {
      case None =>
        r := None;
      case Some(data) =>
        if |data| == 0 {
          if word != [] && StandsAlone(data, word) {
            var pos := StandsAlonePosition(data, word);
            assert false;
          }
          return Some(false);
        }
        var found := DataContainsWord(data, word);
        r := Some(found);
    }
  }
}
