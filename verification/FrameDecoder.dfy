/**
 The length-prefixed frames of scripts/release/platform-capability-probe.ts: the streaming decoder
 `readWindowsRunnerReceipt` and the encoder `encodeProbeFrame`.

 JSON parsing is the parameter `parse`: it says of a payload whether it fails to parse, is an exit frame
 with an integer exit code, or is any other frame.
 */
module FrameDecoder {
  import opened Basics
  import opened Encoding

  datatype Frame = Malformed | Exit(code: int) | Other

  const MAX_FRAME := 16 * 1024 * 1024

  /** readUInt32LE at offset 0. */
  function ReadLength(b: Bytes): nat
    requires |b| >= 4
  {
    (b[0] as int) + 0x100 * (b[1] as int) + 0x1_0000 * (b[2] as int) + 0x100_0000 * (b[3] as int)
  }

  /** setUint32 at offset 0, little-endian; a larger length wraps. */
  function WriteLength(n: nat): (r: Bytes)
    ensures |r| == 4
  {
    [n % 0x100, n / 0x100 % 0x100, n / 0x1_0000 % 0x100, n / 0x100_0000 % 0x100]
  }

  lemma LengthRoundTrip(n: nat)
    requires n < 0x1_0000_0000
    ensures ReadLength(WriteLength(n)) == n
  {
    var q := n / 0x100;
    assert n == 0x100 * q + n % 0x100;
    assert q / 0x100 == n / 0x1_0000 && q / 0x1_0000 == n / 0x100_0000;
    assert q == 0x100 * (q / 0x100) + q % 0x100 && q / 0x100 == 0x100 * (q / 0x1_0000) + q / 0x100 % 0x100;
    assert q / 0x1_0000 < 0x100;
  }

  // ---------------------------------------------------------------- decoding a whole stream

  /** What a buffer yields: an answer, or the bytes of a frame still incomplete. */
  datatype Outcome = Answer(code: Option<int>) | Incomplete(rest: Bytes)

  function Drain(parse: Bytes -> Frame, buffer: Bytes): Outcome
    decreases |buffer|
  {
    if |buffer| < 4 then Incomplete(buffer)
    else
      var length := ReadLength(buffer);
      if length > MAX_FRAME then Answer(None)
      else if |buffer| < 4 + length then Incomplete(buffer)
      else match parse(buffer[4..4 + length])
        case Malformed => Answer(None)
        case Exit(code) => Answer(Some(code))
        case Other => Drain(parse, buffer[4 + length..])
  }

  /** The decoder's answer for a stream: that of its bytes, and none if the stream ends undecided. */
  function Decode(parse: Bytes -> Frame, stream: Bytes): Option<int> {
    match Drain(parse, stream) case Answer(r) => r case Incomplete(_) => None
  }

  /** An answer stands whatever follows; an incomplete buffer can be drained later with what follows. */
  lemma {:induction false} DrainMore(parse: Bytes -> Frame, a: Bytes, b: Bytes)
    ensures Drain(parse, a).Answer? ==> Drain(parse, a + b) == Drain(parse, a)
    ensures Drain(parse, a).Incomplete? ==> Drain(parse, a + b) == Drain(parse, Drain(parse, a).rest + b)
    decreases |a|
  {
    if |a| >= 4 {
      var length := ReadLength(a);
      SameLength(a, b);
      if length <= MAX_FRAME && 4 + length <= |a| {
        var payload, rest := a[4..4 + length], a[4 + length..];
        SameFrame(a, b, length);
        DrainMore(parse, rest, b);
        DrainStep(parse, a, length);
        DrainStep(parse, a + b, length);
      }
    }
  }

  lemma SameLength(a: Bytes, b: Bytes)
    requires |a| >= 4
    ensures ReadLength(a + b) == ReadLength(a)
  {
  }

  lemma SameFrame(a: Bytes, b: Bytes, length: nat)
    requires 4 + length <= |a|
    ensures (a + b)[4..4 + length] == a[4..4 + length] && (a + b)[4 + length..] == a[4 + length..] + b
  {
  }

  lemma DrainStep(parse: Bytes -> Frame, buffer: Bytes, length: nat)
    requires 4 + length <= |buffer| && ReadLength(buffer) == length <= MAX_FRAME
    ensures Drain(parse, buffer) == match parse(buffer[4..4 + length])
                                    case Malformed => Answer(None)
                                    case Exit(code) => Answer(Some(code))
                                    case Other => Drain(parse, buffer[4 + length..])
  {
  }

  function Concat(chunks: seq<Bytes>): Bytes {
    if chunks == [] then [] else Concat(chunks[..|chunks| - 1]) + chunks[|chunks| - 1]
  }

  lemma {:induction false} ConcatTail(chunks: seq<Bytes>, i: nat)
    requires i <= |chunks|
    ensures Concat(chunks) == Concat(chunks[..i]) + Concat(chunks[i..])
    decreases |chunks|
  {
    if i == |chunks| {
      assert chunks[..i] == chunks && chunks[i..] == [];
    } else {
      var n := |chunks| - 1;
      ConcatTail(chunks[..n], i);
      assert chunks[..n][..i] == chunks[..i] && chunks[..n][i..] == chunks[i..][..n - i];
      assert chunks[i..][n - i] == chunks[n];
    }
  }

  /** readWindowsRunnerReceipt: the answer depends on the bytes alone, not on where the chunks were cut. */
  method ReadReceipt(parse: Bytes -> Frame, chunks: seq<Bytes>) returns (code: Option<int>)
    ensures code == Decode(parse, Concat(chunks))
  {
    var buffer: Bytes := [];
    for i := 0 to |chunks|
      invariant Drain(parse, Concat(chunks[..i])) == Drain(parse, buffer) == Incomplete(buffer)
    {
      assert chunks[..i + 1][..i] == chunks[..i];
      DrainMore(parse, Concat(chunks[..i]), chunks[i]);
      buffer := buffer + chunks[i];
      ghost var arrived := buffer;
      while |buffer| >= 4
        invariant Drain(parse, buffer) == Drain(parse, arrived)
        decreases |buffer|
      {
        var length := ReadLength(buffer);
        if length > MAX_FRAME {
          Settled(parse, chunks, i, None);
          return None;
        }
        if |buffer| < 4 + length {
          break;
        }
        var payload := buffer[4..4 + length];
        match parse(payload) {
          case Malformed =>
            Settled(parse, chunks, i, None);
            return None;
          case Exit(c) =>
            Settled(parse, chunks, i, Some(c));
            return Some(c);
          case Other =>
        }
        buffer := buffer[4 + length..];
      }
    }
    assert chunks[..|chunks|] == chunks;
    return None;
  }

  /** An answer reached after chunk `i` is the answer of the whole stream. */
  lemma Settled(parse: Bytes -> Frame, chunks: seq<Bytes>, i: nat, code: Option<int>)
    requires i < |chunks| && Drain(parse, Concat(chunks[..i + 1])) == Answer(code)
    ensures Decode(parse, Concat(chunks)) == code
  {
    ConcatTail(chunks, i + 1);
    DrainMore(parse, Concat(chunks[..i + 1]), Concat(chunks[i + 1..]));
  }

  // ---------------------------------------------------------------- encoding

  function Encoded(payload: Bytes): Bytes {
    WriteLength(|payload|) + payload
  }

  /** encodeProbeFrame, for a payload already rendered to bytes. */
  method EncodeProbeFrame(payload: Bytes) returns (frame: array<Byte>)
    ensures fresh(frame) && frame[..] == Encoded(payload)
  {
    var header := WriteLength(|payload|);
    frame := new Byte[4 + |payload|](_ => 0);
    for i := 0 to 4
      invariant frame[..i] == header[..i]
    {
      frame[i] := header[i];
    }
    for i := 0 to |payload|
      invariant frame[..4] == header && frame[4..4 + i] == payload[..i]
    {
      frame[4 + i] := payload[i];
    }
    assert frame[..] == frame[..4] + frame[4..4 + |payload|];
  }

  function EncodedAll(payloads: seq<Bytes>): Bytes {
    if payloads == [] then [] else Encoded(payloads[0]) + EncodedAll(payloads[1..])
  }

  /** Draining an encoded frame looks at exactly its payload, unless it exceeds the limit. */
  lemma DrainEncoded(parse: Bytes -> Frame, payload: Bytes, rest: Bytes)
    requires |payload| < 0x1_0000_0000
    ensures Drain(parse, Encoded(payload) + rest)
            == if |payload| > MAX_FRAME then Answer(None)
               else match parse(payload)
                 case Malformed => Answer(None)
                 case Exit(code) => Answer(Some(code))
                 case Other => Drain(parse, rest)
  {
    var s, n := Encoded(payload) + rest, |payload|;
    LengthRoundTrip(n);
    assert s[..4] == WriteLength(n) && ReadLength(s) == ReadLength(s[..4]);
    if n <= MAX_FRAME {
      assert s[4..4 + n] == payload && s[4 + n..] == rest;
    }
  }

  /** Non-exit frames followed by an exit frame decode to its code exactly when no frame exceeds the limit. */
  lemma {:induction false} FramesDecode(parse: Bytes -> Frame, payloads: seq<Bytes>, exit: Bytes, code: int,
                                        tail: Bytes)
    requires forall p | p in payloads :: parse(p) == Other && |p| < 0x1_0000_0000
    requires parse(exit) == Exit(code) && |exit| < 0x1_0000_0000
    ensures Decode(parse, EncodedAll(payloads) + Encoded(exit) + tail)
            == if |exit| <= MAX_FRAME && forall p | p in payloads :: |p| <= MAX_FRAME then Some(code) else None
    decreases |payloads|
  {
    if payloads == [] {
      DrainEncoded(parse, exit, tail);
      assert EncodedAll(payloads) + Encoded(exit) + tail == Encoded(exit) + tail;
    } else {
      var rest := EncodedAll(payloads[1..]) + Encoded(exit) + tail;
      assert EncodedAll(payloads) + Encoded(exit) + tail == Encoded(payloads[0]) + rest;
      assert payloads[0] in payloads;
      DrainEncoded(parse, payloads[0], rest);
      FramesDecode(parse, payloads[1..], exit, code, tail);
      assert forall p :: p in payloads <==> p == payloads[0] || p in payloads[1..];
    }
  }
}
