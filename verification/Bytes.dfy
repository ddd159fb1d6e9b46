/** Bytes, and a byte stream with one reading end and one writing end. */
module Bytes {
  import opened Wrappers

  type Byte = b: int | 0 <= b < 256

  const NEWLINE: Byte := 10

  /** The byte of an ASCII character; other characters do not occur in the texts used here. */
  function AsciiByte(c: char): Byte {
    if c < '\U{80}' then c as int else 0
  }

  function Ascii(text: string): (b: seq<Byte>)
    ensures |b| == |text|
  {
    seq(|text|, i requires 0 <= i < |text| => AsciiByte(text[i]))
  }

  /** Length of the first line of `s`, its newline included; all of `s` when it holds none. */
  function LineLength(s: seq<Byte>): (n: nat)
    ensures n <= |s|
    ensures n == 0 <==> s == []
    ensures forall i :: 0 <= i < n - 1 ==> s[i] != NEWLINE
    ensures 0 < n < |s| ==> s[n - 1] == NEWLINE
  {
    if s == [] then 0
    else if s[0] == NEWLINE then 1
    else 1 + LineLength(s[1..])
  }

  lemma {:induction false} LineLengthOf(line: seq<Byte>, rest: seq<Byte>)
    requires NEWLINE !in line
    ensures LineLength(line + [NEWLINE] + rest) == |line| + 1
  {
    var s := line + [NEWLINE] + rest;
    if line == [] {
      assert s[0] == NEWLINE;
    } else {
      LineLengthOf(line[1..], rest);
      assert s[1..] == line[1..] + [NEWLINE] + rest;
      assert s[0] == line[0] && line[0] in line;
    }
  }

  lemma {:induction false} LineLengthUnended(s: seq<Byte>)
    requires NEWLINE !in s
    ensures LineLength(s) == |s|
  {
    if s == [] {
    } else {
      assert s[0] in s;
      LineLengthUnended(s[1..]);
    }
  }

  /** A stream: bytes written and not yet read, after which the writing end is closed. */
  class ByteStream {
    var data: seq<Byte>

    constructor (bytes: seq<Byte>)
      ensures data == bytes
    {
      data := bytes;
    }

    method WriteAll(bytes: seq<Byte>)
      modifies this
      ensures data == old(data) + bytes
    {
      data := data + bytes;
    }

    /** Reads exactly `n` bytes, or fails at the end of the stream having drained it. */
    method ReadExact(n: nat) returns (r: Option<seq<Byte>>)
      modifies this
      ensures n <= |old(data)| ==> r == Some(old(data)[..n]) && data == old(data)[n..]
      ensures n > |old(data)| ==> r == None && data == []
    {
      if n <= |data| {
        r := Some(data[..n]);
        data := data[n..];
      } else {
        r := None;
        data := [];
      }
    }

    /** Reads up to and including the next newline, or to the end of the stream. */
    method ReadLine() returns (line: seq<Byte>)
      modifies this
      ensures line == old(data)[..LineLength(old(data))]
      ensures data == old(data)[LineLength(old(data))..]
    {
      var n := LineLength(data);
      line := data[..n];
      data := data[n..];
    }
  }
}
