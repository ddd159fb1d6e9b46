/** Length-prefixed daemon messages (crates/codequery-lsp/src/socket.rs). */
module DaemonFraming {
  import opened Wrappers
  import opened Bytes

  const MAX_MESSAGE_SIZE: nat := 16 * 1024 * 1024
  const TWO_32: nat := 0x1_0000_0000

  datatype ReadError = ConnectionClosed | Truncated | TooLarge(len: nat) | BadJson

  /** The JSON encoder and decoder of one message type. */
  datatype Codec<!T> = Codec(encode: T -> seq<Byte>, decode: seq<Byte> -> Option<T>)

  ghost predicate Lossless<T(!new)>(c: Codec<T>) {
    forall m: T {:trigger c.encode(m)} :: c.decode(c.encode(m)) == Some(m)
  }

  /** `u32::to_be_bytes`. */
  function ToBigEndian(n: nat): (b: seq<Byte>)
    requires n < TWO_32
    ensures |b| == 4
  {
    [n / 0x100_0000, n / 0x1_0000 % 0x100, n / 0x100 % 0x100, n % 0x100]
  }

  /** `u32::from_be_bytes`. */
  function FromBigEndian(b: seq<Byte>): (n: nat)
    requires |b| == 4
    ensures n < TWO_32
  {
    (b[0] as int) * 0x100_0000 + (b[1] as int) * 0x1_0000 + (b[2] as int) * 0x100 + b[3]
  }

  /** The bytes written for one payload; the length is cast to 32 bits, wrapping. */
  function Frame(payload: seq<Byte>): seq<Byte> {
    ToBigEndian(|payload| % TWO_32) + payload
  }

  /** What one read yields on a stream, and the bytes it leaves. */
  function ReadFrame<T>(c: Codec<T>, s: seq<Byte>): (Result<T, ReadError>, seq<Byte>) {
    if |s| < 4 then (Err(ConnectionClosed), [])
    else
      var len := FromBigEndian(s[..4]);
      var rest := s[4..];
      if len > MAX_MESSAGE_SIZE then (Err(TooLarge(len)), rest)
      else if len > |rest| then (Err(Truncated), [])
      else
        var r := match c.decode(rest[..len]) case Some(m) => Ok(m) case None => Err(BadJson);
        (r, rest[len..])
  }

  method WriteMessage<T>(c: Codec<T>, writer: ByteStream, message: T)
    modifies writer
    ensures writer.data == old(writer.data) + Frame(c.encode(message))
  {
    var json := c.encode(message);
    var lenBytes := ToBigEndian(|json| % TWO_32);
    writer.WriteAll(lenBytes);
    writer.WriteAll(json);
    assert old(writer.data) + lenBytes + json == old(writer.data) + Frame(json);
  }

  method ReadMessage<T>(c: Codec<T>, reader: ByteStream) returns (r: Result<T, ReadError>)
    modifies reader
    ensures (r, reader.data) == ReadFrame(c, old(reader.data))
  {
    var lenBytes := reader.ReadExact(4);
    if lenBytes.None? {
      return Err(ConnectionClosed);
    }
    var len := FromBigEndian(lenBytes.value);
    if len > MAX_MESSAGE_SIZE {
      return Err(TooLarge(len));
    }
    var buf := reader.ReadExact(len);
    if buf.None? {
      return Err(Truncated);
    }
    match c.decode(buf.value) {
      case Some(m) => r := Ok(m);
      case None => r := Err(BadJson);
    }
  }

  // The 32-bit length field.

  lemma BigEndianInverse(n: nat)
    requires n < TWO_32
    ensures FromBigEndian(ToBigEndian(n)) == n
  {
    var a, b, c := n / 0x100_0000, n / 0x1_0000, n / 0x100;
    assert b / 0x100 == a && c / 0x100 == b;
    assert n == c * 0x100 + n % 0x100 && c == b * 0x100 + c % 0x100 && b == a * 0x100 + b % 0x100;
  }

  /** The most significant byte comes first: numbers are ordered as their encodings read from the left. */
  lemma BigEndianOrder(m: nat, n: nat)
    requires m < TWO_32 && n < TWO_32
    ensures m < n <==> exists k ::
                         0 <= k < 4 && ToBigEndian(m)[..k] == ToBigEndian(n)[..k]
                         && ToBigEndian(m)[k] < ToBigEndian(n)[k]
  {
    var a, b := ToBigEndian(m), ToBigEndian(n);
    BigEndianInverse(m);
    BigEndianInverse(n);
    if m < n {
      var k := FirstDifference(a, b, 0);
      DifferenceDecides(a, b, k);
    }
    if exists k :: 0 <= k < 4 && a[..k] == b[..k] && a[k] < b[k] {
      var k :| 0 <= k < 4 && a[..k] == b[..k] && a[k] < b[k];
      DifferenceDecides(a, b, k);
    }
  }

  lemma FirstDifference(a: seq<Byte>, b: seq<Byte>, from: nat) returns (k: nat)
    requires |a| == |b| && a != b && from <= |a| && a[..from] == b[..from]
    ensures k < |a| && a[..k] == b[..k] && a[k] != b[k]
    decreases |a| - from
  {
    assert a[..|a|] == a && b[..|b|] == b;
    if a[from] != b[from] {
      k := from;
    } else {
      assert a[..from + 1] == a[..from] + [a[from]] && b[..from + 1] == b[..from] + [b[from]];
      k := FirstDifference(a, b, from + 1);
    }
  }

  lemma DifferenceDecides(a: seq<Byte>, b: seq<Byte>, k: nat)
    requires |a| == |b| == 4 && k < 4 && a[..k] == b[..k] && a[k] != b[k]
    ensures FromBigEndian(a) < FromBigEndian(b) <==> a[k] < b[k]
  {
    assert forall i :: 0 <= i < k ==> a[i] == a[..k][i] && b[i] == b[..k][i];
  }

  /** The header carries the true length exactly below 2^32 bytes. */
  lemma LengthCastLossless(n: nat)
    ensures FromBigEndian(ToBigEndian(n % TWO_32)) == n <==> n < 0x1_0000_0000
  {
    BigEndianInverse(n % TWO_32);
  }

  /** The length that the reader sees in front of a written payload. */
  lemma ReadOfFrame<T>(c: Codec<T>, payload: seq<Byte>, rest: seq<Byte>)
    ensures var len := |payload| % TWO_32;
            ReadFrame(c, Frame(payload) + rest) ==
            if len > MAX_MESSAGE_SIZE then (Err(TooLarge(len)), payload + rest)
            else (match c.decode(payload[..len]) case Some(m) => Ok(m) case None => Err(BadJson),
                  payload[len..] + rest)
  {
    var len := |payload| % TWO_32;
    BigEndianInverse(len);
    var s := Frame(payload) + rest;
    assert s[..4] == ToBigEndian(len);
    assert s[4..] == payload + rest;
    assert (payload + rest)[..len] == payload[..len];
    assert (payload + rest)[len..] == payload[len..] + rest;
  }

  /** Payloads above the limit and below 2^32 bytes are always refused. */
  lemma OversizedRefused<T>(c: Codec<T>, payload: seq<Byte>, rest: seq<Byte>)
    requires MAX_MESSAGE_SIZE < |payload| < TWO_32
    ensures ReadFrame(c, Frame(payload) + rest).0 == Err(TooLarge(|payload|))
  {
    ReadOfFrame(c, payload, rest);
  }

  /** One message survives the trip, and the following bytes are untouched, exactly up to 16 MiB. */
  lemma FrameRoundTripIff<T(!new)>(c: Codec<T>, m: T, rest: seq<Byte>)
    requires Lossless(c)
    ensures ReadFrame(c, Frame(c.encode(m)) + rest) == (Ok(m), rest) <==> |c.encode(m)| <= 16 * 1024 * 1024
  {
    var p := c.encode(m);
    ReadOfFrame(c, p, rest);
    var len := |p| % TWO_32;
    if |p| <= MAX_MESSAGE_SIZE {
      assert p[..len] == p && p[len..] + rest == rest;
    } else if len <= MAX_MESSAGE_SIZE {
      // The length wrapped: at least 2^32 bytes of the payload stay in the stream.
      assert |p[len..] + rest| > |rest|;
    }
  }

  /** A cut frame is never read: without its header the connection counts as closed, and without all of
      its payload as cut short. */
  lemma CutFrameRefused<T>(c: Codec<T>, payload: seq<Byte>, k: nat)
    requires |payload| <= 16 * 1024 * 1024 && k < |Frame(payload)|
    ensures ReadFrame(c, Frame(payload)[..k]) == (Err(if k < 4 then ConnectionClosed else Truncated), [])
  {
    hide ToBigEndian;
    hide FromBigEndian;
    BigEndianInverse(|payload|);
    if k >= 4 {
      assert Frame(payload)[..k][..4] == ToBigEndian(|payload|);
    }
  }

  /** A payload that is not a message is refused as such, and the bytes after it are untouched. */
  lemma BadPayloadRefused<T>(c: Codec<T>, payload: seq<Byte>, rest: seq<Byte>)
    requires |payload| <= 16 * 1024 * 1024 && c.decode(payload) == None
    ensures ReadFrame(c, Frame(payload) + rest) == (Err(BadJson), rest)
  {
    ReadOfFrame(c, payload, rest);
    assert payload[..|payload|] == payload && payload[|payload|..] + rest == rest;
  }

  function Frames<T>(c: Codec<T>, ms: seq<T>): seq<Byte> {
    if ms == [] then [] else Frame(c.encode(ms[0])) + Frames(c, ms[1..])
  }

  /** The outcome of `n` reads in a row. */
  function ReadFrames<T>(c: Codec<T>, s: seq<Byte>, n: nat): (seq<Result<T, ReadError>>, seq<Byte>)
    decreases n
  {
    if n == 0 then ([], s)
    else
      var (r, rest) := ReadFrame(c, s);
      var (rs, left) := ReadFrames(c, rest, n - 1);
      ([r] + rs, left)
  }

  function Oks<T>(ms: seq<T>): seq<Result<T, ReadError>> {
    seq(|ms|, i requires 0 <= i < |ms| => Ok(ms[i]))
  }

  /** Reading inverts writing for any sequence of messages within the limit. */
  lemma {:induction false} FramesRoundTrip<T(!new)>(c: Codec<T>, ms: seq<T>, rest: seq<Byte>)
    requires Lossless(c)
    requires forall m :: m in ms ==> |c.encode(m)| <= MAX_MESSAGE_SIZE
    ensures ReadFrames(c, Frames(c, ms) + rest, |ms|) == (Oks(ms), rest)
  {
    if ms == [] {
      assert Frames(c, ms) + rest == rest;
    } else {
      var tail := Frames(c, ms[1..]) + rest;
      assert Frames(c, ms) + rest == Frame(c.encode(ms[0])) + tail;
      FrameRoundTripIff(c, ms[0], tail);
      FramesRoundTrip(c, ms[1..], rest);
      assert Oks(ms) == [Ok(ms[0])] + Oks(ms[1..]);
    }
  }
}
