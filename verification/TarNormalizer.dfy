/** normalizeTarMetadata of scripts/release/oss-candidate.ts: every header gets time zero and a fresh checksum. */
module TarNormalizer {
  import opened Basics
  import opened Encoding
  import opened Tar

  const EPOCH: Bytes := [0x30, 0x30, 0x30, 0x30, 0x30, 0x30, 0x30, 0x30, 0x30, 0x30, 0x30, 0]

  /** A header with its modification time cleared and its checksum field blank. */
  function Blanked(h: Bytes): (r: Bytes)
    requires |h| == BLOCK
    ensures |r| == BLOCK
  {
    h[..136] + EPOCH + BLANKS + h[156..]
  }

  function NormalHeader(h: Bytes): (r: Bytes)
    requires |h| == BLOCK
  {
    h[..136] + EPOCH + ChecksumField(Sum(Blanked(h))) + h[156..]
  }

  lemma NormalHeaderShape(utf8: Decoder, h: Bytes)
    requires KeepsAscii(utf8) && |h| == BLOCK
    ensures |NormalHeader(h)| == BLOCK
    ensures NormalHeader(h)[..136] == h[..136] && NormalHeader(h)[136..148] == EPOCH
            && NormalHeader(h)[156..] == h[156..]
    ensures Blanked(NormalHeader(h)) == Blanked(h)
    ensures NormalHeader(h)[148..156] == ChecksumField(Sum(Blanked(h)))
  {
    SumBound(Blanked(h));
    ChecksumFieldRoundTrip(utf8, Sum(Blanked(h)));
    assert NormalHeader(h)[..136] == h[..136];
    assert NormalHeader(h)[156..] == h[156..];
  }

  /** Every header the normaliser writes passes the strict reader's checksum test. */
  lemma NormalHeaderChecks(utf8: Decoder, h: Bytes)
    requires KeepsAscii(utf8) && |h| == BLOCK
    ensures |NormalHeader(h)| == BLOCK
    ensures ParseOctal(utf8, NormalHeader(h)[148..156]) == Some(Checksum(NormalHeader(h)))
  {
    var r := NormalHeader(h);
    NormalHeaderShape(utf8, h);
    SumBound(Blanked(h));
    ChecksumFieldRoundTrip(utf8, Sum(Blanked(h)));
    assert r[..148] == h[..136] + EPOCH;
    assert r[..148] + BLANKS + r[156..] == Blanked(h);
  }

  /** The length of an entry, header and padded body, or none when its size is not octal. */
  function Extent(utf8: Decoder, h: Bytes): Option<nat>
    requires |h| == BLOCK
  {
    match OctalField(utf8, h[124..136]) case Some(size) => Some(BLOCK + Padded(size)) case None => None
  }

  /** The normalised archive, or none when an entry's size is not octal. */
  function Normalized(utf8: Decoder, s: Bytes): Option<Bytes>
    decreases |s|
  {
    if |s| < BLOCK || AllZero(s[..BLOCK]) then Some(s)
    else match Extent(utf8, s[..BLOCK])
      case None => None
      case Some(n) =>
        if n >= |s| then Some(NormalHeader(s[..BLOCK]) + s[BLOCK..])
        else match Normalized(utf8, s[n..])
          case None => None
          case Some(r) => Some(NormalHeader(s[..BLOCK]) + s[BLOCK..n] + r)
  }

  /** The bytes normalisation may change: 136 to 155 of each header it walks. */
  predicate IsMetadata(utf8: Decoder, s: Bytes, i: nat)
    decreases |s|
  {
    |s| >= BLOCK && !AllZero(s[..BLOCK])
    && match Extent(utf8, s[..BLOCK])
       case None => false
       case Some(n) => 136 <= i < 156 || (n < |s| && i >= n && IsMetadata(utf8, s[n..], i - n))
  }

  predicate SameButMetadata(utf8: Decoder, a: Bytes, b: Bytes) {
    |a| == |b| && forall i | 0 <= i < |a| && !IsMetadata(utf8, a, i) :: a[i] == b[i]
  }

  /** Normalisation keeps the length and changes metadata bytes only. */
  lemma {:induction false} ChangesMetadataOnly(utf8: Decoder, s: Bytes, r: Bytes)
    requires KeepsAscii(utf8) && Normalized(utf8, s) == Some(r)
    ensures SameButMetadata(utf8, s, r)
    decreases |s|
  {
    if |s| >= BLOCK && !AllZero(s[..BLOCK]) {
      var h, n := s[..BLOCK], Extent(utf8, s[..BLOCK]).value;
      HeaderBytes(utf8, h);
      if n < |s| {
        var tail := Normalized(utf8, s[n..]).value;
        ChangesMetadataOnly(utf8, s[n..], tail);
        JoinAgrees(utf8, s, r, n, tail);
      }
    }
  }

  lemma JoinAgrees(utf8: Decoder, s: Bytes, r: Bytes, n: nat, tail: Bytes)
    requires |s| >= BLOCK && !AllZero(s[..BLOCK]) && Extent(utf8, s[..BLOCK]) == Some(n) && n < |s|
    requires |NormalHeader(s[..BLOCK])| == BLOCK && r == NormalHeader(s[..BLOCK]) + s[BLOCK..n] + tail
    requires forall i | 0 <= i < BLOCK && !(136 <= i < 156) :: NormalHeader(s[..BLOCK])[i] == s[i]
    requires SameButMetadata(utf8, s[n..], tail)
    ensures SameButMetadata(utf8, s, r)
  {
    assert BLOCK <= n;
    forall i | 0 <= i < |s| && !IsMetadata(utf8, s, i)
      ensures s[i] == r[i]
    {
      if i >= n {
        assert !IsMetadata(utf8, s[n..], i - n);
        assert s[n..][i - n] == tail[i - n];
      }
    }
  }

  lemma HeaderBytes(utf8: Decoder, h: Bytes)
    requires KeepsAscii(utf8) && |h| == BLOCK
    ensures |NormalHeader(h)| == BLOCK
    ensures forall i | 0 <= i < BLOCK && !(136 <= i < 156) :: NormalHeader(h)[i] == h[i]
  {
    NormalHeaderShape(utf8, h);
    var r := NormalHeader(h);
    assert forall i | 0 <= i < 136 :: r[i] == r[..136][i] == h[..136][i];
    assert forall i | 156 <= i < BLOCK :: r[i] == r[156..][i - 156] == h[156..][i - 156];
  }

  /** Headers that agree outside their metadata normalise alike. */
  lemma SameNormalHeader(a: Bytes, b: Bytes)
    requires |a| == BLOCK && |b| == BLOCK && forall i | 0 <= i < BLOCK && !(136 <= i < 156) :: a[i] == b[i]
    ensures NormalHeader(a) == NormalHeader(b) && a[124..136] == b[124..136]
  {
    assert a[..136] == b[..136] && a[156..] == b[156..];
  }

  lemma ZeroFieldIsNotOctal(utf8: Decoder, b: Bytes)
    requires KeepsAscii(utf8) && AllZero(b)
    ensures OctalField(utf8, b).None?
  {
    assert UpToNul(b) == [];
    assert IsAscii([]) && utf8([]) == [];
  }

  lemma OctalIsNotZero(utf8: Decoder, h: Bytes)
    requires KeepsAscii(utf8) && |h| == BLOCK && Extent(utf8, h).Some?
    ensures !AllZero(h)
  {
    var field := h[124..136];
    assert AllZero(h) ==> AllZero(field);
    if AllZero(field) {
      ZeroFieldIsNotOctal(utf8, field);
    }
  }

  /** Archives that differ in metadata only are accepted alike and normalise to the same bytes. */
  lemma {:induction false} MetadataIsErased(utf8: Decoder, a: Bytes, b: Bytes)
    requires KeepsAscii(utf8) && Normalized(utf8, a).Some? && SameButMetadata(utf8, a, b)
    ensures Normalized(utf8, b) == Normalized(utf8, a)
    decreases |a|
  {
    if |a| < BLOCK || AllZero(a[..BLOCK]) {
      assert forall i | 0 <= i < |a| :: !IsMetadata(utf8, a, i);
      assert a == b;
    } else {
      var h, g, n := a[..BLOCK], b[..BLOCK], Extent(utf8, a[..BLOCK]).value;
      OuterBytes(utf8, a, b);
      SameNormalHeader(h, g);
      OctalIsNotZero(utf8, g);
      if n < |a| {
        TailAgrees(utf8, a, b, n);
        MetadataIsErased(utf8, a[n..], b[n..]);
        assert a[BLOCK..n] == b[BLOCK..n];
      } else {
        assert a[BLOCK..] == b[BLOCK..];
      }
    }
  }

  lemma OuterBytes(utf8: Decoder, a: Bytes, b: Bytes)
    requires SameButMetadata(utf8, a, b) && |a| >= BLOCK && !AllZero(a[..BLOCK]) && Extent(utf8, a[..BLOCK]).Some?
    ensures forall i | 0 <= i < BLOCK && !(136 <= i < 156) :: a[..BLOCK][i] == b[..BLOCK][i]
    ensures var n := Extent(utf8, a[..BLOCK]).value; forall i | BLOCK <= i < n && i < |a| :: a[i] == b[i]
  {
  }

  lemma TailAgrees(utf8: Decoder, a: Bytes, b: Bytes, n: nat)
    requires SameButMetadata(utf8, a, b) && |a| >= BLOCK && !AllZero(a[..BLOCK])
    requires Extent(utf8, a[..BLOCK]) == Some(n) && n < |a|
    ensures SameButMetadata(utf8, a[n..], b[n..])
  {
    forall i | 0 <= i < |a| - n && !IsMetadata(utf8, a[n..], i)
      ensures a[n..][i] == b[n..][i]
    {
      assert !IsMetadata(utf8, a, i + n);
    }
  }

  /** Normalising twice is normalising once. */
  lemma NormalizeIsIdempotent(utf8: Decoder, s: Bytes, r: Bytes)
    requires KeepsAscii(utf8) && Normalized(utf8, s) == Some(r)
    ensures Normalized(utf8, r) == Some(r)
  {
    ChangesMetadataOnly(utf8, s, r);
    MetadataIsErased(utf8, s, r);
  }

  // ---------------------------------------------------------------- the loop over the byte array

  /** The sequence with the bytes from `at` on replaced by `b`. */
  function Overlay(s: Bytes, at: nat, b: Bytes): (r: Bytes)
    requires at + |b| <= |s|
    ensures |r| == |s|
  {
    s[..at] + b + s[at + |b|..]
  }

  lemma OverlayInside(front: Bytes, h: Bytes, back: Bytes, at: nat, b: Bytes)
    requires at + |b| <= |h|
    ensures Overlay(front + h + back, |front| + at, b) == front + Overlay(h, at, b) + back
  {
    var s := front + h + back;
    assert s[..|front| + at] == front + h[..at];
    assert s[|front| + at + |b|..] == h[at + |b|..] + back;
  }

  lemma HeaderOverlays(h: Bytes, field: Bytes)
    requires |h| == BLOCK && |field| == 8
    ensures Overlay(Overlay(h, 136, EPOCH), 148, BLANKS) == Blanked(h)
    ensures Overlay(Blanked(h), 148, field) == h[..136] + EPOCH + field + h[156..]
  {
    assert Overlay(h, 136, EPOCH)[..148] == h[..136] + EPOCH;
    assert Overlay(h, 136, EPOCH)[156..] == h[156..];
    assert Blanked(h)[..148] == h[..136] + EPOCH && Blanked(h)[156..] == h[156..];
  }

  method Overwrite(tar: array<Byte>, at: nat, b: Bytes)
    requires at + |b| <= tar.Length
    modifies tar
    ensures tar[..] == Overlay(old(tar[..]), at, b)
  {
    for i := 0 to |b|
      invariant tar[..at] == old(tar[..at]) && tar[at..at + i] == b[..i] && tar[at + i..] == old(tar[at + i..])
    {
      tar[at + i] := b[i];
    }
    assert tar[..] == tar[..at] + tar[at..at + |b|] + tar[at + |b|..];
  }

  method SumOf(tar: array<Byte>, from: nat, to: nat) returns (sum: nat)
    requires from <= to <= tar.Length
    ensures sum == Sum(tar[from..to])
  {
    sum := 0;
    for i := from to to
      invariant sum == Sum(tar[from..i])
    {
      assert tar[from..i + 1][..i - from] == tar[from..i];
      sum := sum + tar[i];
    }
  }

  /** Rewrites one header in place. */
  method NormalizeHeader(ghost utf8: Decoder, tar: array<Byte>, at: nat, ghost front: Bytes, ghost h: Bytes,
                         ghost back: Bytes)
    requires KeepsAscii(utf8) && at + BLOCK <= tar.Length
    requires |front| == at && |h| == BLOCK && tar[..] == front + h + back
    modifies tar
    ensures |NormalHeader(h)| == BLOCK && tar[..] == front + NormalHeader(h) + back
  {
    NormalHeaderShape(utf8, h);
    OverlayInside(front, h, back, 136, EPOCH);
    OverlayInside(front, Overlay(h, 136, EPOCH), back, 148, BLANKS);
    HeaderOverlays(h, ChecksumField(Sum(Blanked(h))));
    OverlayInside(front, Blanked(h), back, 148, ChecksumField(Sum(Blanked(h))));
    Overwrite(tar, at + 136, EPOCH);
    Overwrite(tar, at + 148, BLANKS);
    assert tar[at..at + BLOCK] == tar[..][at..at + BLOCK] == Blanked(h);
    var checksum := SumOf(tar, at, at + BLOCK);
    var field := PadStart(ToOctal(checksum), 6) + [0, 0x20];
    assert field == ChecksumField(Sum(Blanked(h))) == NormalHeader(h)[148..156];
    Overwrite(tar, at + 148, field);
  }

  /** What the loop at `offset` still makes of the array: nothing before it changes any more. */
  function Rest(utf8: Decoder, s: Bytes, offset: nat): Option<Bytes> {
    if offset <= |s| then Prepend(s[..offset], Normalized(utf8, s[offset..])) else Some(s)
  }

  lemma RestAtStart(utf8: Decoder, s: Bytes)
    ensures Rest(utf8, s, 0) == Normalized(utf8, s)
  {
    assert s[0..] == s && s[..0] == [];
    if Normalized(utf8, s).Some? {
      assert [] + Normalized(utf8, s).value == Normalized(utf8, s).value;
    }
  }

  lemma RestAtEnd(utf8: Decoder, s: Bytes, offset: nat)
    requires offset + BLOCK > |s| || AllZero(s[offset..offset + BLOCK])
    ensures Rest(utf8, s, offset) == Some(s)
  {
    if offset <= |s| {
      assert s[..offset] + s[offset..] == s;
      if offset + BLOCK <= |s| {
        assert s[offset..][..BLOCK] == s[offset..offset + BLOCK];
      }
    }
  }

  lemma RestOfMalformed(utf8: Decoder, s: Bytes, offset: nat)
    requires offset + BLOCK <= |s| && !AllZero(s[offset..offset + BLOCK])
             && Extent(utf8, s[offset..offset + BLOCK]).None?
    ensures Rest(utf8, s, offset).None?
  {
    assert s[offset..][..BLOCK] == s[offset..offset + BLOCK];
  }

  /** Unfolding `Normalized` once. */
  lemma NormalizedStep(utf8: Decoder, h: Bytes, back: Bytes, n: nat, g: Bytes)
    requires |h| == BLOCK && !AllZero(h) && Extent(utf8, h) == Some(n) && g == NormalHeader(h)
    ensures BLOCK <= n
    ensures n >= |h + back| ==> Normalized(utf8, h + back) == Some(g + back)
    ensures n < |h + back| ==>
              Normalized(utf8, h + back) == Prepend(g + back[..n - BLOCK], Normalized(utf8, back[n - BLOCK..]))
  {
    var s := h + back;
    assert s[..BLOCK] == h && s[BLOCK..] == back;
    if n < |s| {
      assert s[BLOCK..n] == back[..n - BLOCK] && s[n..] == back[n - BLOCK..];
    }
  }

  lemma RestSplits(utf8: Decoder, front: Bytes, s: Bytes)
    ensures Rest(utf8, front + s, |front|) == Prepend(front, Normalized(utf8, s))
  {
    assert (front + s)[..|front|] == front && (front + s)[|front|..] == s;
  }

  lemma Reassociate(a: Bytes, b: Bytes, c: Bytes, d: Bytes)
    ensures a + b + (c + d) == (a + (b + c)) + d
  {
  }

  lemma RestGoesOn(utf8: Decoder, front: Bytes, s: Bytes, g: Bytes, kept: Bytes, rest: Bytes)
    requires Normalized(utf8, s) == Prepend(g + kept, Normalized(utf8, rest))
    ensures Rest(utf8, front + s, |front|) == Rest(utf8, front + g + (kept + rest), |front| + |g| + |kept|)
  {
    RestSplits(utf8, front, s);
    var done := front + (g + kept);
    Reassociate(front, g, kept, rest);
    RestSplits(utf8, done, rest);
    PrependTwice(front, g + kept, Normalized(utf8, rest));
  }

  lemma RestEnds(utf8: Decoder, front: Bytes, s: Bytes, whole: Bytes, offset: nat)
    requires Normalized(utf8, s) == Some(whole) && offset >= |front + whole|
    ensures Rest(utf8, front + s, |front|) == Rest(utf8, front + whole, offset)
  {
    RestSplits(utf8, front, s);
    RestAtEnd(utf8, front + whole, offset);
  }

  /** One turn of the loop: the header is replaced and the walk goes on after the body. */
  lemma RestStep(utf8: Decoder, front: Bytes, h: Bytes, back: Bytes, n: nat, g: Bytes)
    requires |h| == BLOCK && !AllZero(h) && Extent(utf8, h) == Some(n) && g == NormalHeader(h) && |g| == BLOCK
    ensures Rest(utf8, front + h + back, |front|) == Rest(utf8, front + g + back, |front| + n)
  {
    NormalizedStep(utf8, h, back, n, g);
    assert front + h + back == front + (h + back);
    if n < BLOCK + |back| {
      var kept, rest := back[..n - BLOCK], back[n - BLOCK..];
      assert back == kept + rest;
      RestGoesOn(utf8, front, h + back, g, kept, rest);
    } else {
      assert front + (g + back) == front + g + back;
      RestEnds(utf8, front, h + back, g + back, |front| + n);
    }
  }

  /** The body of the loop for a header that is not all zero: the extent of its entry, or none for a bad size. */
  method NormalizeEntry(utf8: Decoder, tar: array<Byte>, offset: nat) returns (extent: Option<nat>)
    requires KeepsAscii(utf8) && offset + BLOCK <= tar.Length && !AllZero(tar[offset..offset + BLOCK])
    modifies tar
    ensures extent.None? ==> Rest(utf8, old(tar[..]), offset).None?
    ensures extent.Some? ==> extent.value >= BLOCK
                             && Rest(utf8, old(tar[..]), offset) == Rest(utf8, tar[..], offset + extent.value)
  {
    var header := tar[offset..offset + BLOCK];
    ghost var front, back := tar[..offset], tar[offset + BLOCK..];
    assert tar[..] == front + header + back;
    var size := OctalField(utf8, header[124..136]);
    if size.None? {
      assert tar[..][offset..offset + BLOCK] == header;
      RestOfMalformed(utf8, tar[..], offset);
      return None;
    }
    RewriteEntry(utf8, tar, offset, front, header, back, BLOCK + Padded(size.value));
    return Some(BLOCK + Padded(size.value));
  }

  /** The part of the body that rewrites the header. */
  method RewriteEntry(ghost utf8: Decoder, tar: array<Byte>, offset: nat, ghost front: Bytes, ghost h: Bytes,
                      ghost back: Bytes, ghost n: nat)
    requires KeepsAscii(utf8) && offset + BLOCK <= tar.Length
    requires |front| == offset && |h| == BLOCK && !AllZero(h) && Extent(utf8, h) == Some(n)
             && tar[..] == front + h + back
    modifies tar
    ensures Rest(utf8, old(tar[..]), offset) == Rest(utf8, tar[..], offset + n)
  {
    ghost var g := NormalHeader(h);
    NormalizeHeader(utf8, tar, offset, front, h, back);
    RestStep(utf8, front, h, back, n, g);
  }

  /** normalizeTarMetadata on its copy of the archive; false stands for its exception. */
  method NormalizeTarMetadata(utf8: Decoder, tar: array<Byte>) returns (ok: bool)
    requires KeepsAscii(utf8)
    modifies tar
    ensures Normalized(utf8, old(tar[..])) == if ok then Some(tar[..]) else None
  {
    var offset: nat := 0;
    RestAtStart(utf8, tar[..]);
    ghost var goal := Rest(utf8, tar[..], offset);
    while offset + BLOCK <= tar.Length && !AllZero(tar[offset..offset + BLOCK])
      invariant Rest(utf8, tar[..], offset) == goal
      decreases tar.Length - offset
    {
      var extent := NormalizeEntry(utf8, tar, offset);
      if extent.None? {
        return false;
      }
      offset := offset + extent.value;
    }
    assert offset + BLOCK <= tar.Length ==> tar[..][offset..offset + BLOCK] == tar[offset..offset + BLOCK];
    RestAtEnd(utf8, tar[..], offset);
    return true;
  }
}
