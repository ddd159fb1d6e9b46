/** `Content-Length` framing of LSP messages (crates/codequery-lsp/src/transport.rs).

    Text is kept as its UTF-8 bytes: a Rust string is a byte sequence that passes ValidUtf8. */
module LspFraming {
  import opened Sequences
  import opened Wrappers
  import opened Bytes

  const USIZE_LIMIT: nat := 0x1_0000_0000_0000_0000
  const CONTENT_LENGTH: seq<Byte> := Ascii("Content-Length:")
  const SPACE: Byte := 32
  const CRLF: seq<Byte> := [13, 10]

  datatype ReadError = UnexpectedEof | InvalidUtf8 | InvalidLength | MissingLength

  // UTF-8 text.

  predicate Continuation(s: seq<Byte>, i: nat) {
    i < |s| && 0x80 <= s[i] < 0xC0
  }

  /** Length of the character at the front of `s`, 0 when its encoding is malformed. */
  function CharLength(s: seq<Byte>): (n: nat)
    ensures n <= |s| && n <= 4
  {
    if s == [] then 0
    else if s[0] < 0x80 then 1
    else if 0xC2 <= s[0] < 0xE0 && Continuation(s, 1) then 2
    else if 0xE0 <= s[0] < 0xF0 && Continuation(s, 1) && Continuation(s, 2)
            && (s[0] == 0xE0 ==> s[1] >= 0xA0) && (s[0] == 0xED ==> s[1] < 0xA0) then 3
    else if 0xF0 <= s[0] < 0xF5 && Continuation(s, 1) && Continuation(s, 2) && Continuation(s, 3)
            && (s[0] == 0xF0 ==> s[1] >= 0x90) && (s[0] == 0xF4 ==> s[1] < 0x90) then 4
    else 0
  }

  predicate ValidUtf8(s: seq<Byte>) {
    s == [] || (var n := CharLength(s); n > 0 && ValidUtf8(s[n..]))
  }

  // The encodings of the Unicode whitespace characters, by length.

  predicate White1(a: Byte) { 9 <= a <= 13 || a == SPACE }

  predicate White2(a: Byte, b: Byte) { a == 0xC2 && (b == 0x85 || b == 0xA0) }

  predicate White3(a: Byte, b: Byte, c: Byte) {
    (a == 0xE1 && b == 0x9A && c == 0x80) || (a == 0xE3 && b == 0x80 && c == 0x80)
    || (a == 0xE2 && b == 0x81 && c == 0x9F)
    || (a == 0xE2 && b == 0x80 && (0x80 <= c <= 0x8A || c == 0xA8 || c == 0xA9 || c == 0xAF))
  }

  /** Length of the whitespace character at the front of `s`, 0 when there is none. */
  function WhiteLength(s: seq<Byte>): (n: nat)
    ensures n <= |s|
  {
    if |s| >= 1 && White1(s[0]) then 1
    else if |s| >= 2 && White2(s[0], s[1]) then 2
    else if |s| >= 3 && White3(s[0], s[1], s[2]) then 3
    else 0
  }

  /** Length of the whitespace character at the end of `s`, 0 when there is none. */
  function WhiteTail(s: seq<Byte>): (n: nat)
    ensures n <= |s|
  {
    var k := |s|;
    if k >= 1 && White1(s[k - 1]) then 1
    else if k >= 2 && White2(s[k - 2], s[k - 1]) then 2
    else if k >= 3 && White3(s[k - 3], s[k - 2], s[k - 1]) then 3
    else 0
  }

  function TrimStart(s: seq<Byte>): (t: seq<Byte>)
    decreases |s|
    ensures |t| <= |s|
  {
    if WhiteLength(s) == 0 then s else TrimStart(s[WhiteLength(s)..])
  }

  function TrimEnd(s: seq<Byte>): (t: seq<Byte>)
    decreases |s|
    ensures t <= s
  {
    if WhiteTail(s) == 0 then s else TrimEnd(s[..|s| - WhiteTail(s)])
  }

  /** `str::trim`. */
  function Trim(s: seq<Byte>): seq<Byte> {
    TrimEnd(TrimStart(s))
  }

  // Decimal numbers.

  predicate IsDigit(b: Byte) { 48 <= b <= 57 }

  function Decimal(n: nat): (s: seq<Byte>)
    ensures s != [] && forall b :: b in s ==> IsDigit(b)
  {
    if n < 10 then [48 + n] else Decimal(n / 10) + [48 + n % 10]
  }

  /** The value of a nonempty digit string that fits in `usize`. */
  function ParseDigits(s: seq<Byte>): (v: Option<nat>)
    ensures v.Some? ==> v.value < USIZE_LIMIT
  {
    if s == [] || !IsDigit(s[|s| - 1]) then None
    else
      var digit := s[|s| - 1] - 48;
      if |s| == 1 then Some(digit)
      else
        match ParseDigits(s[..|s| - 1])
        case None => None
        case Some(v) => if 10 * v + digit < USIZE_LIMIT then Some(10 * v + digit) else None
  }

  /** `str::parse::<usize>`, which takes a leading plus sign. */
  function ParseUsize(s: seq<Byte>): (v: Option<nat>)
    ensures v.Some? ==> v.value < USIZE_LIMIT
  {
    ParseDigits(if s != [] && s[0] == 43 then s[1..] else s)
  }

  // Writing and reading one message.

  function LengthLine(n: nat): seq<Byte> {
    CONTENT_LENGTH + [SPACE] + Decimal(n) + CRLF
  }

  function Frame(body: seq<Byte>): seq<Byte> {
    LengthLine(|body|) + CRLF + body
  }

  /** The effect of one header line on the length read so far. */
  function TakeHeader(trimmed: seq<Byte>, found: Option<nat>): Result<Option<nat>, ReadError> {
    if CONTENT_LENGTH <= trimmed then
      match ParseUsize(Trim(trimmed[|CONTENT_LENGTH|..]))
      case Some(v) => Ok(Some(v))
      case None => Err(InvalidLength)
    else Ok(found)
  }

  /** Header lines up to the blank one; the last Content-Length wins. */
  function ReadHeaders(s: seq<Byte>, found: Option<nat>): (r: (Result<nat, ReadError>, seq<Byte>))
    decreases |s|
  {
    if s == [] then (Err(UnexpectedEof), [])
    else
      var n := LineLength(s);
      var line, rest := s[..n], s[n..];
      if !ValidUtf8(line) then (Err(InvalidUtf8), rest)
      else if Trim(line) == [] then
        (match found case Some(v) => Ok(v) case None => Err(MissingLength), rest)
      else match TakeHeader(Trim(line), found)
           case Err(e) => (Err(e), rest)
           case Ok(found') => ReadHeaders(rest, found')
  }

  function ReadBody(n: nat, s: seq<Byte>): (Result<seq<Byte>, ReadError>, seq<Byte>) {
    if n > |s| then (Err(UnexpectedEof), [])
    else (if ValidUtf8(s[..n]) then Ok(s[..n]) else Err(InvalidUtf8), s[n..])
  }

  function ReadOne(s: seq<Byte>): (Result<seq<Byte>, ReadError>, seq<Byte>) {
    match ReadHeaders(s, None)
    case (Ok(n), rest) => ReadBody(n, rest)
    case (Err(e), rest) => (Err(e), rest)
  }

  method WriteMessage(writer: ByteStream, json: seq<Byte>)
    modifies writer
    ensures writer.data == old(writer.data) + Frame(json)
  {
    var header := CONTENT_LENGTH + [SPACE] + Decimal(|json|) + CRLF + CRLF;
    writer.WriteAll(header);
    writer.WriteAll(json);
    assert old(writer.data) + header + json == old(writer.data) + Frame(json);
  }

  method ReadHeaderLines(reader: ByteStream) returns (r: Result<nat, ReadError>)
    modifies reader
    ensures (r, reader.data) == ReadHeaders(old(reader.data), None)
  {
    var contentLength: Option<nat> := None;
    while true
      invariant ReadHeaders(reader.data, contentLength) == ReadHeaders(old(reader.data), None)
      decreases |reader.data|
    {
      var line := reader.ReadLine();
      if line == [] {
        return Err(UnexpectedEof);
      }
      if !ValidUtf8(line) {
        return Err(InvalidUtf8);
      }
      var trimmed := Trim(line);
      if trimmed == [] {
        break;
      }
      if CONTENT_LENGTH <= trimmed {
        var value := ParseUsize(Trim(trimmed[|CONTENT_LENGTH|..]));
        if value.None? {
          return Err(InvalidLength);
        }
        contentLength := value;
      }
    }
    match contentLength {
      case Some(n) => r := Ok(n);
      case None => r := Err(MissingLength);
    }
  }

  method ReadMessage(reader: ByteStream) returns (r: Result<seq<Byte>, ReadError>)
    modifies reader
    ensures (r, reader.data) == ReadOne(old(reader.data))
    ensures var (h, rest) := ReadHeaders(old(reader.data), None);
            if h.Err? then r == Err(h.error) && reader.data == rest
            else if h.value > |rest| then r == Err(UnexpectedEof) && reader.data == []
            else
              && reader.data == rest[h.value..]
              && r == if ValidUtf8(rest[..h.value]) then Ok(rest[..h.value]) else Err(InvalidUtf8)
  {
    var contentLength := ReadHeaderLines(reader);
    if contentLength.Err? {
      return Err(contentLength.error);
    }
    var body := reader.ReadExact(contentLength.value);
    match body {
      case None => r := Err(UnexpectedEof);
      case Some(b) => r := if ValidUtf8(b) then Ok(b) else Err(InvalidUtf8);
    }
  }

  // UTF-8 and whitespace, by code points.

  predicate Scalar(cp: nat) { cp < 0xD800 || 0xE000 <= cp < 0x11_0000 }

  /** The UTF-8 encoding of a code point. */
  function EncodeChar(cp: nat): (s: seq<Byte>)
    requires Scalar(cp)
    ensures s != []
  {
    if cp < 0x80 then [cp]
    else if cp < 0x800 then [0xC0 + cp / 0x40, 0x80 + cp % 0x40]
    else if cp < 0x1_0000 then [0xE0 + cp / 0x1000, 0x80 + cp / 0x40 % 0x40, 0x80 + cp % 0x40]
    else [0xF0 + cp / 0x4_0000, 0x80 + cp / 0x1000 % 0x40, 0x80 + cp / 0x40 % 0x40, 0x80 + cp % 0x40]
  }

  predicate AllScalar(cps: seq<nat>) { forall cp :: cp in cps ==> Scalar(cp) }

  function EncodeText(cps: seq<nat>): seq<Byte>
    requires AllScalar(cps)
  {
    if cps == [] then [] else EncodeChar(cps[0]) + EncodeText(cps[1..])
  }

  ghost predicate EncodesText(s: seq<Byte>, cps: seq<nat>) { AllScalar(cps) && s == EncodeText(cps) }

  /** The ranges that the bytes of an encoded code point lie in. */
  lemma EncodedBytes(cp: nat)
    requires Scalar(cp)
    ensures var c := EncodeChar(cp);
            && (|c| == 1 ==> c[0] < 0x80)
            && (|c| == 2 ==> 0xC2 <= c[0] < 0xE0 && 0x80 <= c[1] < 0xC0)
            && (|c| == 3 ==> 0xE0 <= c[0] < 0xF0 && 0x80 <= c[1] < 0xC0 && 0x80 <= c[2] < 0xC0
                             && (c[0] == 0xE0 ==> c[1] >= 0xA0) && (c[0] == 0xED ==> c[1] < 0xA0))
            && (|c| == 4 ==> 0xF0 <= c[0] < 0xF5 && 0x80 <= c[1] < 0xC0 && 0x80 <= c[2] < 0xC0 && 0x80 <= c[3] < 0xC0
                             && (c[0] == 0xF0 ==> c[1] >= 0x90) && (c[0] == 0xF4 ==> c[1] < 0x90))
            && |c| <= 4
  {
    TwelveBits(cp);
  }

  lemma EncodedCharLength(cp: nat, s: seq<Byte>)
    requires Scalar(cp)
    ensures CharLength(EncodeChar(cp) + s) == |EncodeChar(cp)|
  {
    EncodedBytes(cp);
    hide EncodeChar;
    var c := EncodeChar(cp);
    assert forall i :: 0 <= i < |c| ==> (c + s)[i] == c[i];
  }

  lemma SixBits(high: nat, low: nat)
    requires low < 0x40
    ensures (high * 0x40 + low) / 0x40 == high && (high * 0x40 + low) % 0x40 == low
  {
  }

  lemma TwelveBits(cp: nat)
    ensures cp / 0x1000 == cp / 0x40 / 0x40 && cp / 0x4_0000 == cp / 0x40 / 0x40 / 0x40
  {
  }

  lemma TwoBytes(a: nat, b: nat)
    requires 2 <= a < 0x20 && b < 0x40
    ensures EncodeChar(a * 0x40 + b) == [0xC0 + a, 0x80 + b]
  {
    SixBits(a, b);
  }

  lemma ThreeBytes(a: nat, b: nat, c: nat)
    requires a < 0x10 && b < 0x40 && c < 0x40 && (a == 0 ==> b >= 0x20) && (a == 0xD ==> b < 0x20)
    ensures var cp := (a * 0x40 + b) * 0x40 + c;
            Scalar(cp) && EncodeChar(cp) == [0xE0 + a, 0x80 + b, 0x80 + c]
  {
    SixBits(a * 0x40 + b, c);
    SixBits(a, b);
    TwelveBits((a * 0x40 + b) * 0x40 + c);
  }

  lemma FourBytes(a: nat, b: nat, c: nat, d: nat)
    requires a < 5 && b < 0x40 && c < 0x40 && d < 0x40 && (a == 0 ==> b >= 0x10) && (a == 4 ==> b < 0x10)
    ensures var cp := ((a * 0x40 + b) * 0x40 + c) * 0x40 + d;
            Scalar(cp) && EncodeChar(cp) == [0xF0 + a, 0x80 + b, 0x80 + c, 0x80 + d]
  {
    SixBits((a * 0x40 + b) * 0x40 + c, d);
    SixBits(a * 0x40 + b, c);
    SixBits(a, b);
    TwelveBits(((a * 0x40 + b) * 0x40 + c) * 0x40 + d);
  }

  lemma DecodedChar(s: seq<Byte>) returns (cp: nat)
    requires CharLength(s) > 0
    ensures Scalar(cp) && EncodeChar(cp) == s[..CharLength(s)]
  {
    hide EncodeChar;
    var n := CharLength(s);
    if n == 1 {
      cp := s[0];
      OneByte(cp);
    } else {
      var b: nat := s[1] as int - 0x80;
      if n == 2 {
        var a: nat := s[0] as int - 0xC0;
        TwoBytes(a, b);
        cp := a * 0x40 + b;
      } else if n == 3 {
        var a: nat, c: nat := s[0] as int - 0xE0, s[2] as int - 0x80;
        ThreeBytes(a, b, c);
        cp := (a * 0x40 + b) * 0x40 + c;
      } else {
        var a: nat, c: nat, d: nat := s[0] as int - 0xF0, s[2] as int - 0x80, s[3] as int - 0x80;
        FourBytes(a, b, c, d);
        cp := ((a * 0x40 + b) * 0x40 + c) * 0x40 + d;
      }
    }
  }

  lemma OneByte(cp: nat)
    requires cp < 0x80
    ensures EncodeChar(cp) == [cp]
  {
  }

  lemma {:induction false} TextOf(s: seq<Byte>) returns (cps: seq<nat>)
    requires ValidUtf8(s)
    ensures EncodesText(s, cps)
    decreases |s|
  {
    if s == [] {
      cps := [];
    } else {
      var n := CharLength(s);
      var cp := DecodedChar(s);
      var rest := TextOf(s[n..]);
      cps := [cp] + rest;
      assert cps[1..] == rest;
      assert s == s[..n] + s[n..];
    }
  }

  lemma {:induction false} EncodedIsValid(cps: seq<nat>)
    requires AllScalar(cps)
    ensures ValidUtf8(EncodeText(cps))
  {
    if cps == [] {
    } else {
      var c, t := EncodeChar(cps[0]), EncodeText(cps[1..]);
      EncodedIsValid(cps[1..]);
      EncodedCharLength(cps[0], t);
      assert (c + t)[|c|..] == t;
    }
  }

  /** The valid byte sequences are the encodings of texts. */
  lemma ValidUtf8Exactly(s: seq<Byte>)
    ensures ValidUtf8(s) <==> exists cps :: EncodesText(s, cps)
  {
    if ValidUtf8(s) {
      var cps := TextOf(s);
    }
    if exists cps :: EncodesText(s, cps) {
      var cps :| EncodesText(s, cps);
      EncodedIsValid(cps);
    }
  }

  /** The code points with the property White_Space. */
  predicate WhiteSpace(cp: nat) {
    || 9 <= cp <= 13 || cp == 0x20 || cp == 0x85 || cp == 0xA0 || cp == 0x1680 || 0x2000 <= cp <= 0x200A
    || cp == 0x2028 || cp == 0x2029 || cp == 0x202F || cp == 0x205F || cp == 0x3000
  }

  ghost predicate StartsWhite(s: seq<Byte>, cp: nat) { WhiteSpace(cp) && EncodeChar(cp) <= s }

  ghost predicate EndsWhite(s: seq<Byte>, cp: nat) {
    WhiteSpace(cp) && var c := EncodeChar(cp); |c| <= |s| && s[|s| - |c|..] == c
  }

  lemma WhiteBytes(cp: nat)
    requires WhiteSpace(cp)
    ensures var c := EncodeChar(cp);
            || (|c| == 1 && White1(c[0]))
            || (|c| == 2 && White2(c[0], c[1]) && !White1(c[1]))
            || (|c| == 3 && White3(c[0], c[1], c[2]) && !White2(c[1], c[2]) && !White1(c[2]))
  {
  }

  lemma WhiteCode(c: seq<Byte>) returns (cp: nat)
    requires (|c| == 1 && White1(c[0])) || (|c| == 2 && White2(c[0], c[1])) || (|c| == 3 && White3(c[0], c[1], c[2]))
    ensures WhiteSpace(cp) && EncodeChar(cp) == c
  {
    hide EncodeChar;
    if |c| == 1 {
      cp := c[0];
      OneByte(cp);
      assert c == [c[0]];
    } else if |c| == 2 {
      TwoBytes(2, c[1] as int - 0x80);
      cp := c[1];
      assert c == [c[0], c[1]];
    } else {
      ThreeBytes(c[0] as int - 0xE0, c[1] as int - 0x80, c[2] as int - 0x80);
      cp := ((c[0] as int - 0xE0) * 0x40 + (c[1] as int - 0x80)) * 0x40 + (c[2] as int - 0x80);
      assert c == [c[0], c[1], c[2]];
    }
  }

  /** A text starts with whitespace exactly as its first code point says, and by its length. */
  lemma WhiteLengthExactly(s: seq<Byte>)
    ensures WhiteLength(s) > 0 <==> exists cp :: StartsWhite(s, cp)
    ensures forall cp :: StartsWhite(s, cp) ==> WhiteLength(s) == |EncodeChar(cp)|
  {
    hide EncodeChar;
    var n := WhiteLength(s);
    if n > 0 {
      var cp := WhiteCode(s[..n]);
      assert StartsWhite(s, cp);
    }
    forall cp | StartsWhite(s, cp)
      ensures n == |EncodeChar(cp)|
    {
      WhiteBytes(cp);
    }
  }

  lemma WhiteTailExactly(s: seq<Byte>)
    ensures WhiteTail(s) > 0 <==> exists cp :: EndsWhite(s, cp)
    ensures forall cp :: EndsWhite(s, cp) ==> WhiteTail(s) == |EncodeChar(cp)|
  {
    hide EncodeChar;
    var n := WhiteTail(s);
    if n > 0 {
      var cp := WhiteCode(s[|s| - n..]);
      assert EndsWhite(s, cp);
    }
    forall cp | EndsWhite(s, cp)
      ensures n == |EncodeChar(cp)|
    {
      WhiteBytes(cp);
      var c := EncodeChar(cp);
      assert forall i :: 0 <= i < |c| ==> s[|s| - |c| + i] == c[i];
    }
  }

  predicate AllWhite(cps: seq<nat>) { forall cp :: cp in cps ==> WhiteSpace(cp) }

  lemma EncodeTextFirst(cp: nat, rest: seq<nat>)
    requires Scalar(cp) && AllScalar(rest)
    ensures AllScalar([cp] + rest) && EncodeText([cp] + rest) == EncodeChar(cp) + EncodeText(rest)
  {
    hide EncodeChar;
    assert ([cp] + rest)[1..] == rest;
  }

  lemma {:induction false} EncodeTextNext(cps: seq<nat>, cp: nat)
    requires AllScalar(cps) && Scalar(cp)
    ensures AllScalar(cps + [cp]) && EncodeText(cps + [cp]) == EncodeText(cps) + EncodeChar(cp)
  {
    if cps == [] {
      hide EncodeChar;
      assert EncodeText([cp]) == EncodeChar(cp) + EncodeText([cp][1..]);
      assert cps + [cp] == [cp];
    } else {
      hide EncodeChar;
      hide EncodeText;
      var first, rest := cps[0], cps[1..];
      EncodeTextNext(rest, cp);
      EncodeTextFirst(first, rest);
      EncodeTextFirst(first, rest + [cp]);
      assert cps == [first] + rest;
      Associative([first], rest, [cp]);
      Associative(EncodeChar(first), EncodeText(rest), EncodeChar(cp));
    }
  }

  lemma NoText()
    ensures EncodeText([]) == []
  {
  }

  /** Whitespace at the front is one white code point, and likewise at the back. */
  lemma WhiteFront(s: seq<Byte>) returns (cp: nat)
    requires WhiteLength(s) > 0
    ensures WhiteSpace(cp) && EncodeChar(cp) == s[..WhiteLength(s)]
  {
    hide EncodeChar;
    cp := WhiteCode(s[..WhiteLength(s)]);
  }

  lemma WhiteBack(s: seq<Byte>) returns (cp: nat)
    requires WhiteTail(s) > 0
    ensures WhiteSpace(cp) && EncodeChar(cp) == s[|s| - WhiteTail(s)..]
  {
    hide EncodeChar;
    cp := WhiteCode(s[|s| - WhiteTail(s)..]);
  }

  lemma {:induction false} TrimmedStart(s: seq<Byte>) returns (before: seq<nat>)
    ensures AllWhite(before) && AllScalar(before) && s == EncodeText(before) + TrimStart(s)
    ensures WhiteLength(TrimStart(s)) == 0
    decreases |s|
  {
    hide EncodeChar;
    hide EncodeText;
    hide WhiteLength;
    var n := WhiteLength(s);
    if n == 0 {
      before := [];
      NoText();
    } else {
      var cp := WhiteFront(s);
      var front, back := s[..n], s[n..];
      assert s == front + back;
      var rest := TrimmedStart(back);
      before := [cp] + rest;
      EncodeTextFirst(cp, rest);
      Associative(front, EncodeText(rest), TrimStart(s));
    }
  }

  lemma {:induction false} TrimmedEnd(s: seq<Byte>) returns (after: seq<nat>)
    ensures AllWhite(after) && AllScalar(after) && s == TrimEnd(s) + EncodeText(after)
    ensures WhiteTail(TrimEnd(s)) == 0
    decreases |s|
  {
    hide EncodeChar;
    hide EncodeText;
    hide WhiteTail;
    var n := WhiteTail(s);
    if n == 0 {
      after := [];
      NoText();
    } else {
      var cp := WhiteBack(s);
      var front, back := s[..|s| - n], s[|s| - n..];
      assert s == front + back;
      var rest := TrimmedEnd(front);
      after := rest + [cp];
      EncodeTextNext(rest, cp);
      Associative(TrimEnd(s), EncodeText(rest), back);
    }
  }

  /** The text is what is left of `s` between whitespace. */
  ghost predicate Between(s: seq<Byte>, before: seq<nat>, text: seq<Byte>, after: seq<nat>) {
    AllWhite(before) && AllWhite(after) && AllScalar(before) && AllScalar(after)
    && s == EncodeText(before) + text + EncodeText(after)
  }

  /** What is cut off at the back starts with no whitespace where the whole did not. */
  lemma PrefixNotWhite(t: seq<Byte>, s: seq<Byte>)
    requires t <= s && WhiteLength(s) == 0
    ensures WhiteLength(t) == 0
  {
  }

  lemma TrimmedBetween(s: seq<Byte>) returns (before: seq<nat>, after: seq<nat>)
    ensures Between(s, before, Trim(s), after)
    ensures WhiteLength(Trim(s)) == 0 && WhiteTail(Trim(s)) == 0
  {
    hide EncodeText;
    hide WhiteLength;
    hide WhiteTail;
    hide TrimStart;
    hide TrimEnd;
    before := TrimmedStart(s);
    after := TrimmedEnd(TrimStart(s));
    Associative(EncodeText(before), Trim(s), EncodeText(after));
    PrefixNotWhite(Trim(s), TrimStart(s));
  }

  /** Trimming takes whitespace off both ends, and all of it. */
  lemma TrimExactly(s: seq<Byte>)
    ensures exists before, after :: Between(s, before, Trim(s), after)
    ensures forall cp :: !StartsWhite(Trim(s), cp) && !EndsWhite(Trim(s), cp)
  {
    hide Between;
    hide StartsWhite;
    hide EndsWhite;
    hide Trim;
    hide WhiteLength;
    hide WhiteTail;
    var before, after := TrimmedBetween(s);
    WhiteLengthExactly(Trim(s));
    WhiteTailExactly(Trim(s));
  }

  // Numbers, by the values of their digits.

  function Power10(n: nat): nat { if n == 0 then 1 else 10 * Power10(n - 1) }

  /** The value of decimal digits, each at its place. */
  function Value(digits: seq<Byte>): int {
    if digits == [] then 0 else (digits[0] as int - '0' as int) * Power10(|digits| - 1) + Value(digits[1..])
  }

  predicate AreDigits(s: seq<Byte>) { s != [] && forall b :: b in s ==> '0' as int <= b <= '9' as int }

  lemma {:induction false} ValueNext(digits: seq<Byte>, last: Byte)
    ensures Value(digits + [last]) == 10 * Value(digits) + (last as int - '0' as int)
  {
    var all := digits + [last];
    if digits == [] {
      assert all[1..] == [];
    } else {
      var first: int := digits[0] as int - '0' as int;
      assert all[1..] == digits[1..] + [last];
      ValueNext(digits[1..], last);
      Tens(first, |digits| - 1);
    }
  }

  lemma Tens(first: int, n: nat)
    ensures first * Power10(n + 1) == 10 * (first * Power10(n))
  {
  }

  lemma DigitsNext(front: seq<Byte>, last: Byte)
    ensures AreDigits(front + [last]) <==> IsDigit(last) && (front == [] || AreDigits(front))
  {
    var s := front + [last];
    assert last in s;
    assert forall b :: b in s <==> b in front || b == last;
  }

  lemma {:induction false} ParseDigitsExactly(s: seq<Byte>)
    ensures ParseDigits(s).Some? <==> AreDigits(s) && Value(s) < USIZE_LIMIT
    ensures ParseDigits(s).Some? ==> ParseDigits(s).value == Value(s)
  {
    if s == [] {
    } else {
      hide AreDigits;
      var front, last := s[..|s| - 1], s[|s| - 1];
      assert s == front + [last];
      DigitsNext(front, last);
      ValueNext(front, last);
      if front == [] {
        NoDigits();
      } else {
        ParseDigitsExactly(front);
      }
    }
  }

  lemma NoDigits()
    ensures Value([]) == 0
  {
  }

  /** A text is read as a length exactly when it is a number below 2^64 in decimal digits, with or
      without a plus sign, and then as that number. */
  lemma ParseUsizeExactly(s: seq<Byte>, n: nat)
    ensures ParseUsize(s) == Some(n)
       <==> var digits := if s != [] && s[0] == '+' as int then s[1..] else s;
            AreDigits(digits) && Value(digits) == n && n < 0x1_0000_0000_0000_0000
  {
    ParseDigitsExactly(if s != [] && s[0] == 43 then s[1..] else s);
  }

  // Printing and parsing lengths.

  lemma {:induction false} DecimalParses(n: nat)
    requires n < USIZE_LIMIT
    ensures ParseUsize(Decimal(n)) == Some(n)
  {
    DigitsParse(n);
    assert Decimal(n)[0] in Decimal(n);
  }

  lemma {:induction false} DigitsParse(n: nat)
    requires n < USIZE_LIMIT
    ensures ParseDigits(Decimal(n)) == Some(n)
  {
    if n < 10 {
    } else {
      DigitsParse(n / 10);
      var s := Decimal(n);
      assert s[..|s| - 1] == Decimal(n / 10);
    }
  }

  lemma {:induction false} AsciiIsValid(s: seq<Byte>)
    requires forall b :: b in s ==> b < 0x80
    ensures ValidUtf8(s)
  {
    if s == [] {
    } else {
      assert s[0] in s;
      assert forall b :: b in s[1..] ==> b in s;
      AsciiIsValid(s[1..]);
    }
  }

  // The effect of single header lines.

  /** A complete line that is neither blank nor a Content-Length header. */
  predicate HarmlessLine(l: seq<Byte>) {
    l != [] && l[|l| - 1] == NEWLINE && NEWLINE !in l[..|l| - 1]
    && ValidUtf8(l) && Trim(l) != [] && !(CONTENT_LENGTH <= Trim(l))
  }

  lemma FirstLine(l: seq<Byte>, s: seq<Byte>)
    requires l != [] && l[|l| - 1] == NEWLINE && NEWLINE !in l[..|l| - 1]
    ensures LineLength(l + s) == |l| && (l + s)[..|l|] == l && (l + s)[|l|..] == s
  {
    LineLengthOf(l[..|l| - 1], s);
    assert l[..|l| - 1] + [NEWLINE] + s == l + s;
  }

  /** A printable byte: neither whitespace nor part of a longer character. */
  predicate Visible(b: Byte) { 33 <= b < 0x80 }

  lemma HeaderLineShape(key: seq<Byte>, d: seq<Byte>)
    requires key != [] && d != [] && (forall b :: b in key || b in d ==> Visible(b))
    ensures var l := key + [SPACE] + d + CRLF;
            l != [] && l[|l| - 1] == NEWLINE && NEWLINE !in l[..|l| - 1]
            && ValidUtf8(l) && Trim(l) == key + [SPACE] + d
    ensures Trim([SPACE] + d) == d
  {
    var core := key + [SPACE] + d;
    assert key + [SPACE] + d + CRLF == core + CRLF;
    forall b | b in core + CRLF
      ensures b < 0x80
    {
      assert b in key || b == SPACE || b in d || b in CRLF;
    }
    AsciiIsValid(core + CRLF);
    assert (core + CRLF)[..|core| + 1] == core + [13];
    assert core[0] == key[0] && key[0] in key && core[|core| - 1] == d[|d| - 1] && d[|d| - 1] in d;
    TrimVisible(core, CRLF);
    TrimAfterSpace(d);
  }

  lemma TrimAfterSpace(d: seq<Byte>)
    requires d != [] && (forall b :: b in d ==> Visible(b))
    ensures Trim([SPACE] + d) == d
  {
    assert d[0] in d && d[|d| - 1] in d;
    assert ([SPACE] + d)[1..] == d;
    assert TrimStart([SPACE] + d) == TrimStart(d);
    TrimEndVisible(d, []);
    assert d + [] == d;
  }

  lemma TrimVisible(core: seq<Byte>, white: seq<Byte>)
    requires core != [] && Visible(core[0]) && Visible(core[|core| - 1])
    requires forall b :: b in white ==> 9 <= b <= 13
    ensures Trim(core + white) == core
  {
    assert (core + white)[0] == core[0];
    TrimEndVisible(core, white);
  }

  lemma {:induction false} TrimEndVisible(core: seq<Byte>, white: seq<Byte>)
    requires core != [] && Visible(core[|core| - 1])
    requires forall b :: b in white ==> 9 <= b <= 13
    ensures TrimEnd(core + white) == core
  {
    var s := core + white;
    if white == [] {
      assert s == core;
    } else {
      var less := white[..|white| - 1];
      assert white[|white| - 1] in white;
      assert forall b :: b in less ==> b in white;
      assert s[..|s| - 1] == core + less;
      TrimEndVisible(core, less);
    }
  }

  lemma LabelVisible()
    ensures forall b :: b in CONTENT_LENGTH ==> Visible(b)
  {
  }

  lemma LengthLineShape(n: nat)
    ensures var l := LengthLine(n);
            l != [] && l[|l| - 1] == NEWLINE && NEWLINE !in l[..|l| - 1]
            && ValidUtf8(l) && Trim(l) == CONTENT_LENGTH + [SPACE] + Decimal(n)
    ensures Trim([SPACE] + Decimal(n)) == Decimal(n)
  {
    LabelVisible();
    HeaderLineShape(CONTENT_LENGTH, Decimal(n));
  }

  lemma LengthLineTaken(n: nat, s: seq<Byte>, found: Option<nat>)
    requires n < USIZE_LIMIT
    ensures ReadHeaders(LengthLine(n) + s, found) == ReadHeaders(s, Some(n))
  {
    var l, d := LengthLine(n), Decimal(n);
    LengthLineShape(n);
    FirstLine(l, s);
    var t := CONTENT_LENGTH + [SPACE] + d;
    assert t[|CONTENT_LENGTH|..] == [SPACE] + d;
    DecimalParses(n);
  }

  lemma BlankLineEnds(n: nat, s: seq<Byte>)
    ensures ReadHeaders(CRLF + s, Some(n)) == (Ok(n), s)
  {
    FirstLine(CRLF, s);
    AsciiIsValid(CRLF);
    BlankTrims();
  }

  lemma BlankTrims()
    ensures Trim(CRLF) == [] && Trim([13]) == []
  {
    assert TrimStart([13]) == TrimStart([13][1..]);
    assert CRLF[1..] == [10];
    assert TrimStart([10]) == TrimStart([10][1..]);
  }

  function Lines(ls: seq<seq<Byte>>): seq<Byte> {
    if ls == [] then [] else ls[0] + Lines(ls[1..])
  }

  lemma {:induction false} HarmlessLinesSkipped(ls: seq<seq<Byte>>, s: seq<Byte>, found: Option<nat>)
    requires forall l :: l in ls ==> HarmlessLine(l)
    ensures ReadHeaders(Lines(ls) + s, found) == ReadHeaders(s, found)
  {
    if ls == [] {
      assert Lines(ls) + s == s;
    } else {
      var s' := Lines(ls[1..]) + s;
      assert Lines(ls) + s == ls[0] + s';
      assert ls[0] in ls && (forall l :: l in ls[1..] ==> l in ls);
      FirstLine(ls[0], s');
      HarmlessLinesSkipped(ls[1..], s, found);
    }
  }

  // Header blocks.

  predicate IsLine(l: seq<Byte>) { l != [] && l[|l| - 1] == NEWLINE && NEWLINE !in l[..|l| - 1] }

  predicate NamesLength(l: seq<Byte>) { Ascii("Content-Length:") <= Trim(l) }

  /** The line says that the length is `n`. */
  predicate SaysLength(l: seq<Byte>, n: nat) {
    NamesLength(l) && ParseUsize(Trim(Trim(l)[|"Content-Length:"|..])) == Some(n)
  }

  /** A header line that can be read: a length that is a number, or any other nonblank line. */
  predicate IsHeader(l: seq<Byte>) {
    IsLine(l) && ValidUtf8(l) && Trim(l) != []
    && (NamesLength(l) ==> ParseUsize(Trim(Trim(l)[|"Content-Length:"|..])).Some?)
  }

  predicate AreHeaders(ls: seq<seq<Byte>>) { forall l :: l in ls ==> IsHeader(l) }

  /** The length in force after some lines: the one named last. */
  ghost predicate LengthAfter(ls: seq<seq<Byte>>, n: nat) {
    exists i :: 0 <= i < |ls| && SaysLength(ls[i], n) && forall j :: i < j < |ls| ==> !NamesLength(ls[j])
  }

  ghost predicate NoLength(ls: seq<seq<Byte>>) { forall l :: l in ls ==> !NamesLength(l) }

  lemma HeaderTaken(l: seq<Byte>, s: seq<Byte>, found: Option<nat>)
    requires IsHeader(l)
    ensures NamesLength(l) ==> exists n :: SaysLength(l, n) && ReadHeaders(l + s, found) == ReadHeaders(s, Some(n))
    ensures !NamesLength(l) ==> ReadHeaders(l + s, found) == ReadHeaders(s, found)
  {
    FirstLine(l, s);
    if NamesLength(l) {
      var n := ParseUsize(Trim(Trim(l)[|"Content-Length:"|..])).value;
      assert SaysLength(l, n);
    }
  }

  /** Reading some header lines leaves the length named last in force. */
  lemma {:induction false} HeadersTaken(ls: seq<seq<Byte>>, s: seq<Byte>, found: Option<nat>) returns (now: Option<nat>)
    requires AreHeaders(ls)
    ensures ReadHeaders(Lines(ls) + s, found) == ReadHeaders(s, now)
    ensures NoLength(ls) ==> now == found
    ensures !NoLength(ls) ==> now.Some? && LengthAfter(ls, now.value)
    decreases |ls|
  {
    if ls == [] {
      now := found;
      assert Lines(ls) + s == s;
    } else {
      var rest := ls[1..];
      assert ls[0] in ls && forall l :: l in rest ==> l in ls;
      Associative(ls[0], Lines(rest), s);
      HeaderTaken(ls[0], Lines(rest) + s, found);
      if NamesLength(ls[0]) {
        var n :| SaysLength(ls[0], n) && ReadHeaders(ls[0] + (Lines(rest) + s), found)
                                         == ReadHeaders(Lines(rest) + s, Some(n));
        now := HeadersTaken(rest, s, Some(n));
        if NoLength(rest) {
          assert forall j :: 0 < j < |ls| ==> ls[j] == rest[j - 1] && rest[j - 1] in rest;
          assert LengthAfter(ls, n);
        } else {
          LengthLater(ls, now.value);
        }
      } else {
        now := HeadersTaken(rest, s, found);
        if !NoLength(rest) {
          LengthLater(ls, now.value);
        }
      }
    }
  }

  lemma LengthLater(ls: seq<seq<Byte>>, n: nat)
    requires ls != [] && LengthAfter(ls[1..], n)
    ensures LengthAfter(ls, n) && !NoLength(ls)
  {
    var rest := ls[1..];
    var i :| 0 <= i < |rest| && SaysLength(rest[i], n) && forall j :: i < j < |rest| ==> !NamesLength(rest[j]);
    assert ls[i + 1] == rest[i] && ls[i + 1] in ls;
    assert forall j :: i + 1 < j < |ls| ==> ls[j] == rest[j - 1];
  }

  lemma OneLengthAfter(ls: seq<seq<Byte>>, m: nat, n: nat)
    requires LengthAfter(ls, m) && LengthAfter(ls, n)
    ensures m == n
  {
    var i :| 0 <= i < |ls| && SaysLength(ls[i], m) && forall j :: i < j < |ls| ==> !NamesLength(ls[j]);
    var k :| 0 <= k < |ls| && SaysLength(ls[k], n) && forall j :: k < j < |ls| ==> !NamesLength(ls[j]);
    assert i == k;
  }

  /** A header block ends at the blank line with the length named last, or none; it is an error when the
      stream ends before, or when the next line names something else than a number as length or is not UTF-8. */
  lemma HeadersExactly(ls: seq<seq<Byte>>, l: seq<Byte>, rest: seq<Byte>)
    requires AreHeaders(ls)
    ensures NoLength(ls) ==> ReadHeaders(Lines(ls) + (CRLF + rest), None) == (Err(MissingLength), rest)
    ensures forall n: nat :: LengthAfter(ls, n) ==> ReadHeaders(Lines(ls) + (CRLF + rest), None) == (Ok(n), rest)
    ensures ReadHeaders(Lines(ls), None) == (Err(UnexpectedEof), [])
    ensures IsLine(l) && !ValidUtf8(l) ==> ReadHeaders(Lines(ls) + (l + rest), None) == (Err(InvalidUtf8), rest)
    ensures IsLine(l) && ValidUtf8(l) && NamesLength(l) && !IsHeader(l) ==>
              ReadHeaders(Lines(ls) + (l + rest), None) == (Err(InvalidLength), rest)
  {
    var found := HeadersTaken(ls, CRLF + rest, None);
    BlankRead(rest, found);
    forall n: nat | LengthAfter(ls, n)
      ensures found == Some(n)
    {
      var i :| 0 <= i < |ls| && SaysLength(ls[i], n) && forall j :: i < j < |ls| ==> !NamesLength(ls[j]);
      assert ls[i] in ls;
      OneLengthAfter(ls, n, found.value);
    }
    var before := HeadersTaken(ls, [], None);
    assert Lines(ls) + [] == Lines(ls);
    if IsLine(l) {
      var now := HeadersTaken(ls, l + rest, None);
      BadLineRead(l, rest, now);
    }
  }

  lemma BlankRead(rest: seq<Byte>, found: Option<nat>)
    ensures ReadHeaders(CRLF + rest, found) == (match found case Some(n) => Ok(n) case None => Err(MissingLength), rest)
  {
    FirstLine(CRLF, rest);
    AsciiIsValid(CRLF);
    BlankTrims();
  }

  lemma BadLineRead(l: seq<Byte>, rest: seq<Byte>, found: Option<nat>)
    requires IsLine(l)
    ensures !ValidUtf8(l) ==> ReadHeaders(l + rest, found) == (Err(InvalidUtf8), rest)
    ensures ValidUtf8(l) && NamesLength(l) && !IsHeader(l) ==>
              ReadHeaders(l + rest, found) == (Err(InvalidLength), rest)
  {
    FirstLine(l, rest);
  }

  /** The bytes of a frame: the label, the length of the body in decimal digits, a blank line, and the body. */
  lemma FrameText(body: seq<Byte>)
    ensures Frame(body) == CONTENT_LENGTH + [SPACE] + Decimal(|body|) + (CRLF + CRLF) + body
    ensures AreDigits(Decimal(|body|)) && Value(Decimal(|body|)) == |body|
  {
    hide AreDigits;
    hide Decimal;
    Doubled(CONTENT_LENGTH + [SPACE] + Decimal(|body|), CRLF, body);
    DecimalValue(|body|);
  }

  lemma Doubled(a: seq<Byte>, b: seq<Byte>, c: seq<Byte>)
    ensures (a + b) + b + c == a + (b + b) + c
  {
    Associative(a, b, b);
  }

  lemma {:induction false} DecimalValue(n: nat)
    ensures AreDigits(Decimal(n)) && Value(Decimal(n)) == n
  {
    if n < 10 {
      assert Decimal(n)[1..] == [];
    } else {
      DecimalValue(n / 10);
      ValueNext(Decimal(n / 10), 48 + n % 10);
    }
  }

  // Main results.

  lemma Regroup(a: seq<Byte>, b: seq<Byte>, c: seq<Byte>, d: seq<Byte>, e: seq<Byte>, f: seq<Byte>)
    ensures a + b + c + d + e + f == a + (b + (c + (d + (e + f))))
  {
    Associative(a + b + c + d, e, f);
    Associative(a + b + c, d, e + f);
    Associative(a + b, c, d + (e + f));
    Associative(a, b, c + (d + (e + f)));
  }

  /** Extra header lines around the length line do not change the decoded message. */
  lemma ExtraHeadersIgnored(before: seq<seq<Byte>>, after: seq<seq<Byte>>, body: seq<Byte>, rest: seq<Byte>)
    requires forall l :: l in before + after ==> HarmlessLine(l)
    requires ValidUtf8(body) && |body| < USIZE_LIMIT
    ensures ReadOne(Lines(before) + LengthLine(|body|) + Lines(after) + CRLF + body + rest) == (Ok(body), rest)
  {
    var n := |body|;
    var s3 := CRLF + (body + rest);
    var s2 := Lines(after) + s3;
    var s1 := LengthLine(n) + s2;
    Regroup(Lines(before), LengthLine(n), Lines(after), CRLF, body, rest);
    HarmlessLinesSkipped(before, s1, None);
    LengthLineTaken(n, s2, None);
    HarmlessLinesSkipped(after, s3, Some(n));
    BlankLineEnds(n, body + rest);
    assert (body + rest)[..n] == body && (body + rest)[n..] == rest;
  }

  lemma NoExtraLines(l: seq<Byte>)
    ensures Lines([]) + l + Lines([]) == l
  {
  }

  lemma FrameRead(body: seq<Byte>, rest: seq<Byte>)
    requires ValidUtf8(body) && |body| < USIZE_LIMIT
    ensures ReadOne(Frame(body) + rest) == (Ok(body), rest)
  {
    ExtraHeadersIgnored([], [], body, rest);
    NoExtraLines(LengthLine(|body|));
  }

  function Frames(bodies: seq<seq<Byte>>): seq<Byte> {
    if bodies == [] then [] else Frame(bodies[0]) + Frames(bodies[1..])
  }

  /** The results of `n` reads in a row, and the bytes they leave. */
  function ReadMany(s: seq<Byte>, n: nat): (seq<Result<seq<Byte>, ReadError>>, seq<Byte>)
    decreases n
  {
    if n == 0 then ([], s)
    else
      var (r, rest) := ReadOne(s);
      var (rs, left) := ReadMany(rest, n - 1);
      ([r] + rs, left)
  }

  function Oks(bodies: seq<seq<Byte>>): seq<Result<seq<Byte>, ReadError>> {
    if bodies == [] then [] else [Ok(bodies[0])] + Oks(bodies[1..])
  }

  /** Reading back any list of bodies returns exactly them and leaves what follows,
      whatever bytes the bodies hold. */
  lemma {:induction false} FramesRoundTrip(bodies: seq<seq<Byte>>, rest: seq<Byte>)
    requires forall b :: b in bodies ==> ValidUtf8(b) && |b| < USIZE_LIMIT
    ensures ReadMany(Frames(bodies) + rest, |bodies|) == (Oks(bodies), rest)
  {
    if bodies == [] {
      assert Frames(bodies) + rest == rest;
    } else {
      var tail := Frames(bodies[1..]) + rest;
      assert Frames(bodies) + rest == Frame(bodies[0]) + tail;
      FrameRead(bodies[0], tail);
      FramesRoundTrip(bodies[1..], rest);
    }
  }

  /** A cut inside the length line is an error. */
  lemma CutLengthLine(n: nat, k: nat)
    requires k <= |LengthLine(n)|
    ensures ReadHeaders(LengthLine(n)[..k], None).0.Err?
  {
    var l := LengthLine(n);
    var s := l[..k];
    LengthLineShape(n);
    if k == 0 {
    } else {
      if k < |l| {
        assert s == l[..|l| - 1][..k];
        LineLengthUnended(s);
      } else {
        LineLengthOf(l[..|l| - 1], []);
        assert s == l[..|l| - 1] + [NEWLINE] + [];
      }
      LabelVisible();
      assert s[0] == CONTENT_LENGTH[0] && CONTENT_LENGTH[0] in CONTENT_LENGTH;
      LoneLine(s);
    }
  }

  /** A line that is not blank, since it starts with a visible byte, does not end the headers. */
  lemma LoneLine(s: seq<Byte>)
    requires s != [] && Visible(s[0]) && LineLength(s) == |s|
    ensures ReadHeaders(s, None).0.Err?
  {
    hide Trim;
    hide ValidUtf8;
    hide TakeHeader;
    NotBlank(s);
    assert s[..LineLength(s)] == s && s[LineLength(s)..] == [];
  }

  lemma NotBlank(s: seq<Byte>)
    requires s != [] && Visible(s[0])
    ensures Trim(s) != []
  {
    NothingToTrim(s);
    FirstByteSurvives(s);
  }

  lemma NothingToTrim(s: seq<Byte>)
    requires s != [] && Visible(s[0])
    ensures TrimStart(s) == s
  {
  }

  lemma {:induction false} FirstByteSurvives(s: seq<Byte>)
    requires s != [] && Visible(s[0])
    decreases |s|
    ensures TrimEnd(s) != []
  {
    var n := WhiteTail(s);
    if n == 0 {
    } else {
      FirstByteSurvives(s[..|s| - n]);
    }
  }

  /** A strict prefix of a frame decodes exactly when the body is empty and only the last newline
      is missing; so no strict prefix of the frame of a nonempty body decodes. */
  lemma StrictPrefixDecodesIff(body: seq<Byte>, k: nat)
    requires |body| < USIZE_LIMIT
    requires k < |Frame(body)|
    ensures ReadOne(Frame(body)[..k]).0.Ok? <==> body == [] && k == |Frame([])| - 1
  {
    var n := |body|;
    var l := LengthLine(n);
    var s := Frame(body)[..k];
    if k <= |l| {
      assert s == l[..k];
      CutLengthLine(n, k);
    } else if k == |l| + 1 {
      assert s == l + [13];
      LengthLineTaken(n, [13], None);
      LineLengthUnended([13]);
      AsciiIsValid([13]);
      BlankTrims();
    } else {
      var part := body[..k - |l| - 2];
      assert s == l + (CRLF + part);
      LengthLineTaken(n, CRLF + part, None);
      BlankLineEnds(n, part);
    }
  }
}
