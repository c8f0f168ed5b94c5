/**
 The tar code of the release scripts: the in-place header normaliser and the lax lister of
 scripts/release/oss-candidate.ts and the strict reader of scripts/release/verify-production-supply-chain.ts.
 The format is the ustar interchange format of the pax utility, IEEE Std 1003.1-2017.

 Text is a sequence of UTF-16 code units; UTF-8 decoding is the parameter `utf8`, of which at most is
 assumed that it leaves ASCII alone.
 */
module Tar {
  import opened Basics
  import opened Encoding

  type Decoder = Bytes -> Text

  const BLOCK := 512
  const MAX_SAFE_INTEGER := 0x1F_FFFF_FFFF_FFFF

  const SLASH: Unit := 0x2F
  const DOT: Unit := 0x2E
  const BACKSLASH: Unit := 0x5C
  const REPLACEMENT: Unit := 0xFFFD

  predicate IsAscii(b: Bytes) {
    forall i | 0 <= i < |b| :: b[i] < 0x80
  }

  /** Decoding leaves ASCII alone. */
  ghost predicate KeepsAscii(utf8: Decoder) {
    forall b | IsAscii(b) :: utf8(b) == b
  }

  predicate AllZero(b: Bytes) {
    forall i | 0 <= i < |b| :: b[i] == 0
  }

  function Zeros(n: nat): (r: Bytes)
    ensures |r| == n && AllZero(r)
  {
    seq(n, _ => 0)
  }

  // ---------------------------------------------------------------- fields

  function UpToNul(b: Bytes): (r: Bytes)
    ensures r <= b && (forall i | 0 <= i < |r| :: r[i] != 0) && (|r| < |b| ==> b[|r|] == 0)
  {
    if b == [] || b[0] == 0 then [] else [b[0]] + UpToNul(b[1..])
  }

  /** tarString and tarText. */
  function FieldText(utf8: Decoder, b: Bytes): Text {
    utf8(UpToNul(b))
  }

  /** What String.prototype.trim removes. */
  predicate IsSpace(u: Unit) {
    || 0x09 <= u <= 0x0D || u == 0x20 || u == 0xA0 || u == 0x1680 || 0x2000 <= u <= 0x200A
    || u == 0x2028 || u == 0x2029 || u == 0x202F || u == 0x205F || u == 0x3000 || u == 0xFEFF
  }

  function Trim(t: Text): Text {
    if t == [] then []
    else if IsSpace(t[0]) then Trim(t[1..])
    else if IsSpace(t[|t| - 1]) then Trim(t[..|t| - 1])
    else t
  }

  predicate IsOctal(t: Text) {
    t != [] && forall i | 0 <= i < |t| :: 0x30 <= t[i] <= 0x37
  }

  function OctalValue(t: Text): nat
    requires forall i | 0 <= i < |t| :: 0x30 <= t[i] <= 0x37
  {
    if t == [] then 0 else 8 * OctalValue(t[..|t| - 1]) + (t[|t| - 1] - 0x30)
  }

  function OctalField(utf8: Decoder, b: Bytes): Option<nat> {
    var t := Trim(FieldText(utf8, b));
    if IsOctal(t) then Some(OctalValue(t)) else None
  }

  /** parseTarOctal. */
  function ParseOctal(utf8: Decoder, b: Bytes): Option<nat> {
    match OctalField(utf8, b)
    case Some(n) => if n <= MAX_SAFE_INTEGER then Some(n) else None
    case None => None
  }

  /** Math.ceil(size / 512) * 512. */
  function Padded(size: nat): (r: nat)
    ensures size <= r < size + BLOCK
  {
    (size + 511) / 512 * 512
  }

  function Sum(b: Bytes): nat {
    if b == [] then 0 else Sum(b[..|b| - 1]) + b[|b| - 1]
  }

  lemma {:induction false} SumBound(b: Bytes)
    ensures Sum(b) <= 255 * |b|
    decreases |b|
  {
    if b != [] {
      SumBound(b[..|b| - 1]);
    }
  }

  // ---------------------------------------------------------------- header checksums

  const BLANKS: Bytes := [0x20, 0x20, 0x20, 0x20, 0x20, 0x20, 0x20, 0x20]

  /** The byte sum of a header whose checksum field counts as blanks. */
  function Checksum(h: Bytes): nat
    requires |h| == BLOCK
  {
    Sum(h[..148] + BLANKS + h[156..])
  }

  lemma ChecksumBound(h: Bytes)
    requires |h| == BLOCK
    ensures Checksum(h) <= 130560 < 0x4_0000
  {
    SumBound(h[..148] + BLANKS + h[156..]);
  }

  /** Number.prototype.toString(8). */
  function ToOctal(n: nat): (r: Bytes)
    ensures r != [] && forall i | 0 <= i < |r| :: 0x30 <= r[i] <= 0x37
  {
    if n < 8 then [0x30 + n] else ToOctal(n / 8) + [0x30 + n % 8]
  }

  function PadStart(b: Bytes, n: nat): Bytes
    decreases n - |b|
  {
    if |b| >= n then b else PadStart([0x30] + b, n)
  }

  lemma {:induction false} OctalLength(n: nat, k: nat)
    requires k > 0 && n < Pow8(k)
    ensures |ToOctal(n)| <= k
    decreases k
  {
    if n >= 8 {
      OctalLength(n / 8, k - 1);
    }
  }

  function Pow8(k: nat): nat {
    if k == 0 then 1 else 8 * Pow8(k - 1)
  }

  lemma {:induction false} OctalRoundTrip(n: nat)
    ensures OctalValue(ToOctal(n)) == n
  {
    if n >= 8 {
      OctalRoundTrip(n / 8);
      assert ToOctal(n)[..|ToOctal(n)| - 1] == ToOctal(n / 8);
    }
  }

  predicate OctalBytes(b: Bytes) {
    forall i | 0 <= i < |b| :: 0x30 <= b[i] <= 0x37
  }

  lemma {:induction false} LeadingZero(b: Bytes)
    requires OctalBytes(b)
    ensures OctalValue([0x30] + b) == OctalValue(b)
    decreases |b|
  {
    if b != [] {
      LeadingZero(b[..|b| - 1]);
      assert ([0x30] + b)[..|b|] == [0x30] + b[..|b| - 1];
    }
  }

  lemma {:induction false} PadKeepsValue(b: Bytes, n: nat)
    requires OctalBytes(b)
    ensures OctalBytes(PadStart(b, n)) && OctalValue(PadStart(b, n)) == OctalValue(b)
    ensures |PadStart(b, n)| == if |b| < n then n else |b|
    decreases n - |b|
  {
    if |b| < n {
      LeadingZero(b);
      PadKeepsValue([0x30] + b, n);
    }
  }

  /** The eight bytes the normaliser writes: six octal digits, a NUL and a blank. */
  function ChecksumField(n: nat): Bytes {
    PadStart(ToOctal(n), 6) + [0, 0x20]
  }

  lemma {:induction false} OctalTextIsTrimmed(t: Text)
    requires IsOctal(t)
    ensures Trim(t) == t
  {
  }

  /** Six digits always suffice, and reading the field back gives the sum. */
  lemma ChecksumFieldRoundTrip(utf8: Decoder, n: nat)
    requires KeepsAscii(utf8) && n < 0x4_0000
    ensures |ChecksumField(n)| == 8 && ParseOctal(utf8, ChecksumField(n)) == Some(n)
  {
    var digits := PadStart(ToOctal(n), 6);
    assert Pow8(6) == 0x4_0000 by {
      assert Pow8(1) == 8 && Pow8(2) == 64 && Pow8(3) == 512 && Pow8(4) == 4096 && Pow8(5) == 32768;
    }
    OctalLength(n, 6);
    OctalRoundTrip(n);
    PadKeepsValue(ToOctal(n), 6);
    DigitsBeforeNul(digits, [0x20]);
    assert ChecksumField(n) == digits + [0] + [0x20];
    assert IsAscii(digits) && IsOctal(digits);
    OctalTextIsTrimmed(digits);
  }

  lemma {:induction false} DigitsBeforeNul(digits: Bytes, rest: Bytes)
    requires OctalBytes(digits)
    ensures UpToNul(digits + [0] + rest) == digits
    decreases |digits|
  {
    var b := digits + [0] + rest;
    if digits != [] {
      assert b[0] == digits[0] && b[1..] == digits[1..] + [0] + rest;
      DigitsBeforeNul(digits[1..], rest);
    }
  }
}
