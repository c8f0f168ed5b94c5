/** The normaliser of the candidate builder does not change what the strict reader reads. */
module TarMeaning {
  import opened Basics
  import opened Encoding
  import opened Tar
  import opened TarNormalizer
  import opened TarReader

  /** Headers that pass the checksum test and agree in the fields that are read parse alike. */
  lemma SameParse(utf8: Decoder, h: Bytes, r: Bytes)
    requires |h| == |r| == BLOCK && HeaderParser(utf8)(h).Some?
    requires ParseOctal(utf8, r[148..156]) == Some(Checksum(r))
    requires r[..100] == h[..100] && r[100..108] == h[100..108] && r[124..136] == h[124..136]
    requires r[156] == h[156] && r[257..263] == h[257..263] && r[263..265] == h[263..265] && r[345..500] == h[345..500]
    ensures HeaderParser(utf8)(r) == HeaderParser(utf8)(h)
  {
    assert HeadPath(utf8, r) == HeadPath(utf8, h);
  }

  lemma ParsedExtent(utf8: Decoder, h: Bytes)
    requires |h| == BLOCK && HeaderParser(utf8)(h).Some?
    ensures Extent(utf8, h) == Some(BLOCK + Padded(HeaderParser(utf8)(h).value.size))
  {
  }

  lemma SameFields(h: Bytes, r: Bytes)
    requires |h| == |r| == BLOCK && r[..136] == h[..136] && r[156..] == h[156..]
    ensures r[..100] == h[..100] && r[100..108] == h[100..108] && r[124..136] == h[124..136]
    ensures r[156] == h[156] && r[257..263] == h[257..263] && r[263..265] == h[263..265] && r[345..500] == h[345..500]
  {
    Sub(r[..136], h[..136], r, h, 0);
    Sub(r[156..], h[156..], r, h, 156);
  }

  lemma Sub(a: Bytes, b: Bytes, r: Bytes, h: Bytes, at: nat)
    requires a == b && at + |a| <= |r| && |r| == |h| && a == r[at..at + |a|] && b == h[at..at + |b|]
    ensures forall i | at <= i < at + |a| :: r[i] == h[i]
  {
    forall i | at <= i < at + |a|
      ensures r[i] == h[i]
    {
      assert a[i - at] == r[i] && b[i - at] == h[i];
    }
  }

  lemma NormalIsNotZero(utf8: Decoder, h: Bytes)
    requires KeepsAscii(utf8) && |h| == BLOCK && Extent(utf8, h).Some?
    ensures |NormalHeader(h)| == BLOCK && !AllZero(NormalHeader(h))
  {
    var r := NormalHeader(h);
    NormalHeaderShape(utf8, h);
    assert r[..136][124..136] == r[124..136] && h[..136][124..136] == h[124..136];
    OctalIsNotZero(utf8, r);
  }

  type Rewriter = Bytes -> Bytes

  type Measure = Bytes -> Option<nat>

  function HeaderRewriter(): Rewriter {
    (h: Bytes) => if |h| == BLOCK then NormalHeader(h) else h
  }

  function HeaderExtent(utf8: Decoder): Measure {
    (h: Bytes) => if |h| == BLOCK then Extent(utf8, h) else None
  }

  /** Rewriting every header on the way and nothing else; `Normalized` is this with the normaliser's own rewriting. */
  function Rewritten(norm: Rewriter, extent: Measure, s: Bytes): Option<Bytes>
    decreases |s|
  {
    if |s| < BLOCK || AllZero(s[..BLOCK]) then Some(s)
    else match extent(s[..BLOCK])
      case None => None
      case Some(n) =>
        if n >= |s| || n < BLOCK then Some(norm(s[..BLOCK]) + s[BLOCK..])
        else match Rewritten(norm, extent, s[n..])
          case None => None
          case Some(r) => Some(norm(s[..BLOCK]) + s[BLOCK..n] + r)
  }

  lemma {:induction false} NormalizedIsRewritten(utf8: Decoder, s: Bytes)
    ensures Normalized(utf8, s) == Rewritten(HeaderRewriter(), HeaderExtent(utf8), s)
    decreases |s|
  {
    if |s| >= BLOCK && !AllZero(s[..BLOCK]) {
      var extent := Extent(utf8, s[..BLOCK]);
      if extent.Some? && extent.value < |s| {
        NormalizedIsRewritten(utf8, s[extent.value..]);
      }
    }
  }

  predicate Unseen(parse: Parser, h: Bytes, r: Bytes, extent: Option<nat>)
    requires parse(h).Some?
  {
    |r| == BLOCK && parse(r) == parse(h) && !AllZero(r) && extent == Some(BLOCK + Padded(parse(h).value.size))
  }

  /** A rewriting that the reader cannot see. */
  ghost predicate Invisible(parse: Parser, norm: Rewriter, extent: Measure) {
    forall h: Bytes | parse(h).Some? :: Unseen(parse, h, norm(h), extent(h))
  }

  lemma NormalHeaderIsUnseen(utf8: Decoder, parse: Parser, h: Bytes, r: Bytes, extent: Option<nat>)
    requires KeepsAscii(utf8) && |h| == BLOCK && parse == HeaderParser(utf8) && parse(h).Some?
    requires r == NormalHeader(h) && extent == Extent(utf8, h)
    ensures Unseen(parse, h, r, extent)
  {
    ParsedExtent(utf8, h);
    NormalHeaderChecks(utf8, h);
    NormalHeaderShape(utf8, h);
    SameFields(h, r);
    SameParse(utf8, h, r);
    NormalIsNotZero(utf8, h);
  }

  lemma NormalizingIsInvisible(utf8: Decoder)
    requires KeepsAscii(utf8)
    ensures Invisible(HeaderParser(utf8), HeaderRewriter(), HeaderExtent(utf8))
  {
    forall h: Bytes | HeaderParser(utf8)(h).Some?
      ensures Unseen(HeaderParser(utf8), h, HeaderRewriter()(h), HeaderExtent(utf8)(h))
    {
      NormalHeaderIsUnseen(utf8, HeaderParser(utf8), h, NormalHeader(h), Extent(utf8, h));
    }
  }

  /** Rewriting a tile and what follows it. */
  lemma RewrittenTile(parse: Parser, norm: Rewriter, extent: Measure, e: Entry, s: Bytes, rest: Bytes, r: Bytes)
    requires Genuine(parse, e) && Invisible(parse, norm, extent)
    requires s == Tile(e) + rest && rest != [] && Rewritten(norm, extent, rest) == Some(r)
    ensures Rewritten(norm, extent, s) == Some(Tile(e.(header := norm(e.header))) + r)
  {
    var n, h, padding := BLOCK + Padded(e.head.size), norm(e.header), Zeros(Padded(|e.body|) - |e.body|);
    TileIsFirstEntry(parse, e, rest);
    assert s[BLOCK..n] == e.body + padding;
    assert h + (e.body + padding) + r == (h + e.body + padding) + r;
  }

  predicate SameContents(a: seq<Entry>, b: seq<Entry>) {
    |a| == |b| && forall i | 0 <= i < |a| :: a[i].head == b[i].head && a[i].body == b[i].body
  }

  lemma SameJoin(e: Entry, f: Entry, es: seq<Entry>, fs: seq<Entry>)
    requires e.head == f.head && e.body == f.body && SameContents(es, fs)
    ensures SameContents([e] + es, [f] + fs)
  {
  }

  lemma RewrittenEntry(parse: Parser, e: Entry, h: Bytes, tail: Bytes, others: seq<Entry>)
        returns (r: Bytes, rs: seq<Entry>)
    requires Genuine(parse, e) && Genuine(parse, e.(header := h)) && Read(parse, tail) == Some(others)
    ensures r == Tile(e.(header := h)) + tail && r != [] && Read(parse, r) == Some(rs)
    ensures rs == [e.(header := h)] + others
  {
    var e' := e.(header := h);
    r, rs := Tile(e') + tail, [e'] + others;
    ReadStep(parse, e', tail, r);
  }

  lemma {:induction false} RewrittenReadsAlike(parse: Parser, norm: Rewriter, extent: Measure, s: Bytes, es: seq<Entry>)
      returns (r: Bytes, rs: seq<Entry>)
    requires Invisible(parse, norm, extent) && Read(parse, s) == Some(es)
    ensures Rewritten(norm, extent, s) == Some(r) && r != [] && Read(parse, r) == Some(rs) && SameContents(es, rs)
    decreases |s|
  {
    if AllZero(s[..BLOCK]) {
      r, rs := s, [];
    } else {
      var e, rest := ReadFirst(parse, s);
      var more := Read(parse, rest).value;
      var tail, others := RewrittenReadsAlike(parse, norm, extent, rest, more);
      RewrittenTile(parse, norm, extent, e, s, rest, tail);
      assert Unseen(parse, e.header, norm(e.header), extent(e.header));
      r, rs := RewrittenEntry(parse, e, norm(e.header), tail, others);
      SameJoin(e, e.(header := norm(e.header)), more, others);
    }
  }

  /** An archive the strict reader walks is normalised without error, and the result holds the same entries: same
      paths, kinds, sizes, modes and bodies, in the same order. */
  lemma NormalizedReadsAlike(utf8: Decoder, s: Bytes)
    requires KeepsAscii(utf8) && Read(HeaderParser(utf8), s).Some?
    ensures Normalized(utf8, s).Some? && Read(HeaderParser(utf8), Normalized(utf8, s).value).Some?
    ensures SameContents(Read(HeaderParser(utf8), s).value, Read(HeaderParser(utf8), Normalized(utf8, s).value).value)
  {
    var parse := HeaderParser(utf8);
    NormalizingIsInvisible(utf8);
    NormalizedIsRewritten(utf8, s);
    var r, rs := RewrittenReadsAlike(parse, HeaderRewriter(), HeaderExtent(utf8), s, Read(parse, s).value);
  }

  lemma {:induction false} SameLauncher(a: seq<Entry>, b: seq<Entry>, launcher: Text)
    requires SameContents(a, b)
    ensures LauncherBody(a, launcher) == LauncherBody(b, launcher) && PathsOf(a) == PathsOf(b)
    decreases |a|
  {
    if a != [] {
      SameLauncher(a[..|a| - 1], b[..|b| - 1], launcher);
    }
  }

  /** An accepted archive still yields the same launcher bytes once it is normalised. */
  lemma NormalizedLayout(utf8: Decoder, s: Bytes, launcher: Text)
    requires KeepsAscii(utf8) && Layout(HeaderParser(utf8), s, launcher).Some?
    ensures Normalized(utf8, s).Some?
    ensures Layout(HeaderParser(utf8), Normalized(utf8, s).value, launcher) == Layout(HeaderParser(utf8), s, launcher)
  {
    var parse := HeaderParser(utf8);
    NormalizedReadsAlike(utf8, s);
    SameLauncher(Read(parse, s).value, Read(parse, Normalized(utf8, s).value).value, launcher);
  }
}
