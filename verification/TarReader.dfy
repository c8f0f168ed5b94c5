/**
 Two readers of the same format: the strict one of verify-production-supply-chain.ts
 (`verifyArchiveLayout`) and the lax one of oss-candidate.ts (`listRegularTarPaths`).
 */
module TarReader {
  import opened Basics
  import opened Encoding
  import opened Tar

  // ---------------------------------------------------------------- paths

  /** tarPathText: NUL-padded and free of the replacement character. */
  function PathText(utf8: Decoder, b: Bytes): Option<Text> {
    if AllZero(b[|UpToNul(b)|..]) && REPLACEMENT !in FieldText(utf8, b) then Some(FieldText(utf8, b)) else None
  }

  function RawPath(prefix: Text, name: Text): Text {
    if prefix != [] then prefix + [SLASH] + name else name
  }

  function Split(t: Text): (r: seq<Text>)
    ensures r != []
  {
    if t == [] then [[]]
    else if t[0] == SLASH then [[]] + Split(t[1..])
    else var rest := Split(t[1..]); [[t[0]] + rest[0]] + rest[1..]
  }

  predicate SafePath(t: Text) {
    && t != [] && t[0] != SLASH && BACKSLASH !in t
    && forall part | part in Split(t) :: part != [] && part != [DOT] && part != [DOT, DOT]
  }

  /** Parts put together again with slashes between them. */
  function Joined(parts: seq<Text>): Text
    requires parts != []
  {
    if |parts| == 1 then parts[0] else parts[0] + [SLASH] + Joined(parts[1..])
  }

  /** Splitting loses nothing, and no part holds a slash. */
  lemma {:induction false} SplitRoundTrip(t: Text)
    ensures Joined(Split(t)) == t && forall part | part in Split(t) :: SLASH !in part
    decreases |t|
  {
    if t != [] {
      var rest := Split(t[1..]);
      SplitRoundTrip(t[1..]);
      if t[0] == SLASH {
        assert ([[]] + rest)[1..] == rest;
      } else {
        var parts := [[t[0]] + rest[0]] + rest[1..];
        assert parts[1..] == rest[1..];
        assert forall part | part in parts :: part == parts[0] || part in rest;
      }
    }
  }

  /** Where a path leads below a directory: empty and single-dot parts stay, a double dot goes up. */
  function Resolve(base: seq<Text>, parts: seq<Text>): seq<Text>
    decreases |parts|
  {
    if parts == [] then base
    else if parts[0] == [] || parts[0] == [DOT] then Resolve(base, parts[1..])
    else if parts[0] == [DOT, DOT] then Resolve(if base == [] then [] else base[..|base| - 1], parts[1..])
    else Resolve(base + [parts[0]], parts[1..])
  }

  lemma {:induction false} PlainPartsResolve(base: seq<Text>, parts: seq<Text>)
    requires forall part | part in parts :: part != [] && part != [DOT] && part != [DOT, DOT]
    ensures Resolve(base, parts) == base + parts
    decreases |parts|
  {
    if parts != [] {
      assert parts[0] in parts && forall part | part in parts[1..] :: part in parts;
      PlainPartsResolve(base + [parts[0]], parts[1..]);
      assert base + [parts[0]] + parts[1..] == base + parts;
    }
  }

  /** A safe path names a place strictly below whatever directory it is extracted to, and names it in one way only. */
  lemma SafePathStaysInside(base: seq<Text>, t: Text)
    requires SafePath(t)
    ensures Resolve(base, Split(t)) == base + Split(t) && BACKSLASH !in t
  {
    PlainPartsResolve(base, Split(t));
  }

  predicate IsRegular(kind: Byte) { kind == 0 || kind == 0x30 }

  predicate IsDirectory(kind: Byte) { kind == 0x35 }

  /** The path of an entry: a directory may end in one slash, which is dropped. */
  function EntryPath(kind: Byte, raw: Text): Option<Text> {
    var n := |raw|;
    if !IsDirectory(kind) || n == 0 || raw[n - 1] != SLASH then Some(raw)
    else if n >= 2 && raw[n - 2] == SLASH then None
    else Some(raw[..n - 1])
  }

  // ---------------------------------------------------------------- the strict reader

  const MAGIC: Bytes := [0x75, 0x73, 0x74, 0x61, 0x72, 0]
  const VERSION: Bytes := [0x30, 0x30]

  datatype Head = Head(path: Text, kind: Byte, size: nat, mode: nat)

  function HeadPath(utf8: Decoder, h: Bytes): Option<Text>
    requires |h| == BLOCK
  {
    match (PathText(utf8, h[..100]), PathText(utf8, h[345..500]))
    case (Some(name), Some(prefix)) => EntryPath(h[156], RawPath(prefix, name))
    case _ => None
  }

  /** Every check the strict reader makes on a header alone. */
  function ParseHeader(utf8: Decoder, h: Bytes): Option<Head>
    requires |h| == BLOCK
  {
    if ParseOctal(utf8, h[148..156]) != Some(Checksum(h)) then None
    else if h[257..263] != MAGIC || h[263..265] != VERSION then None
    else match (HeadPath(utf8, h), ParseOctal(utf8, h[124..136]), ParseOctal(utf8, h[100..108]))
      case (Some(path), Some(size), Some(mode)) =>
        if (IsRegular(h[156]) || IsDirectory(h[156])) && SafePath(path) && (IsDirectory(h[156]) ==> size == 0)
        then Some(Head(path, h[156], size, mode)) else None
      case _ => None
  }

  /** A header check; the strict reader's own is `HeaderParser`. */
  type Parser = Bytes -> Option<Head>

  function HeaderParser(utf8: Decoder): Parser {
    (h: Bytes) => if |h| == BLOCK then ParseHeader(utf8, h) else None
  }

  datatype Entry = Entry(head: Head, header: Bytes, body: Bytes)

  /** A header with the body and zero padding it announces. */
  function Tile(e: Entry): Bytes {
    e.header + e.body + Zeros(Padded(|e.body|) - |e.body|)
  }

  function Tiles(es: seq<Entry>): Bytes {
    if es == [] then [] else Tile(es[0]) + Tiles(es[1..])
  }

  predicate Genuine(parse: Parser, e: Entry) {
    |e.header| == BLOCK && !AllZero(e.header) && parse(e.header) == Some(e.head) && |e.body| == e.head.size
  }

  ghost predicate AllGenuine(parse: Parser, es: seq<Entry>) {
    forall e | e in es :: Genuine(parse, e)
  }

  /** The first entry of the bytes, when they start with one that is complete and zero-padded. */
  function FirstEntry(parse: Parser, s: Bytes): Option<Entry>
    requires |s| >= BLOCK
  {
    match parse(s[..BLOCK])
    case None => None
    case Some(head) =>
      if BLOCK + Padded(head.size) <= |s| && AllZero(s[BLOCK + head.size..BLOCK + Padded(head.size)])
      then Some(Entry(head, s[..BLOCK], s[BLOCK..BLOCK + head.size])) else None
  }

  /** The entries the strict reader walks, up to a canonical terminator. */
  function Read(parse: Parser, s: Bytes): Option<seq<Entry>>
    decreases |s|
  {
    if |s| < BLOCK then None
    else if AllZero(s[..BLOCK]) then if |s| >= 2 * BLOCK && AllZero(s) then Some([]) else None
    else match FirstEntry(parse, s)
      case None => None
      case Some(e) => Prepend([e], Read(parse, s[BLOCK + Padded(e.head.size)..]))
  }

  lemma FirstEntryIsTile(parse: Parser, s: Bytes)
    requires |s| >= BLOCK && FirstEntry(parse, s).Some? && !AllZero(s[..BLOCK])
    ensures var e := FirstEntry(parse, s).value;
            Genuine(parse, e) && s == Tile(e) + s[BLOCK + Padded(e.head.size)..]
              && |Tile(e)| == BLOCK + Padded(e.head.size)
  {
    var e := FirstEntry(parse, s).value;
    var n, m := BLOCK + e.head.size, BLOCK + Padded(e.head.size);
    assert s[n..m] == Zeros(m - n);
    assert s == s[..BLOCK] + s[BLOCK..n] + s[n..m] + s[m..];
  }

  lemma TileIsFirstEntry(parse: Parser, e: Entry, rest: Bytes)
    requires Genuine(parse, e)
    ensures |Tile(e) + rest| >= BLOCK && (Tile(e) + rest)[..BLOCK] == e.header
    ensures FirstEntry(parse, Tile(e) + rest) == Some(e)
    ensures |Tile(e)| == BLOCK + Padded(e.head.size) && (Tile(e) + rest)[BLOCK + Padded(e.head.size)..] == rest
  {
    var s, n, m := Tile(e) + rest, BLOCK + e.head.size, BLOCK + Padded(e.head.size);
    assert s[..BLOCK] == e.header && s[BLOCK..n] == e.body;
    assert s[n..m] == Zeros(m - n);
  }

  /** Reading bytes that start with a genuine tile. */
  lemma ReadStep(parse: Parser, e: Entry, rest: Bytes, s: Bytes)
    requires Genuine(parse, e) && s == Tile(e) + rest
    ensures Read(parse, s) == Prepend([e], Read(parse, rest)) && |rest| < |s|
  {
    TileIsFirstEntry(parse, e, rest);
  }

  /** Reading bytes that start with anything but a zero block. */
  lemma ReadFirst(parse: Parser, s: Bytes) returns (e: Entry, rest: Bytes)
    requires |s| >= BLOCK && !AllZero(s[..BLOCK]) && Read(parse, s).Some?
    ensures Genuine(parse, e) && s == Tile(e) + rest && |rest| < |s|
            && Read(parse, s) == Prepend([e], Read(parse, rest))
    ensures s[..BLOCK] == e.header && BLOCK + Padded(e.head.size) <= |s| && rest == s[BLOCK + Padded(e.head.size)..]
  {
    e := FirstEntry(parse, s).value;
    rest := s[BLOCK + Padded(e.head.size)..];
    FirstEntryIsTile(parse, s);
  }

  lemma JoinTiles(e: Entry, es: seq<Entry>, tail: Bytes)
    ensures Tiles([e] + es) == Tile(e) + Tiles(es)
    ensures Tiles([e] + es) + tail == Tile(e) + (Tiles(es) + tail)
  {
    assert ([e] + es)[1..] == es;
    var t, ts := Tile(e), Tiles(es);
    assert (t + ts) + tail == t + (ts + tail);
  }

  /** What the reader accepts is tiled by its entries, from the first byte to an all-zero tail of two blocks or more. */
  lemma {:induction false} ReadIsTiled(parse: Parser, s: Bytes, es: seq<Entry>) returns (n: nat)
    requires Read(parse, s) == Some(es)
    ensures AllGenuine(parse, es)
    ensures n >= 2 * BLOCK && s == Tiles(es) + Zeros(n)
    decreases |s|
  {
    if AllZero(s[..BLOCK]) {
      n := |s|;
      assert s == Zeros(n);
    } else {
      var e, rest := ReadFirst(parse, s);
      var more := Read(parse, rest).value;
      n := ReadIsTiled(parse, rest, more);
      JoinTiles(e, more, Zeros(n));
    }
  }

  /** Reading past a run of genuine tiles gives their entries. */
  lemma {:induction false} ReadPastTiles(parse: Parser, es: seq<Entry>, rest: Bytes)
    requires AllGenuine(parse, es)
    ensures Read(parse, Tiles(es) + rest) == Prepend(es, Read(parse, rest))
    decreases |es|
  {
    if es == [] {
      assert Tiles(es) + rest == rest;
      PrependNothing(Read(parse, rest));
    } else {
      var e, more := es[0], es[1..];
      assert e in es && es == [e] + more;
      JoinTiles(e, more, rest);
      ReadStep(parse, e, Tiles(more) + rest, Tiles(es) + rest);
      ReadPastTiles(parse, more, rest);
      PrependTwice([e], more, Read(parse, rest));
    }
  }

  /** Conversely, genuine tiles before two or more zero blocks are accepted, with exactly those entries. */
  lemma TiledIsRead(parse: Parser, es: seq<Entry>, n: nat)
    requires AllGenuine(parse, es) && n >= 2 * BLOCK
    ensures Read(parse, Tiles(es) + Zeros(n)) == Some(es)
  {
    ReadPastTiles(parse, es, Zeros(n));
    assert es + [] == es;
  }

  lemma TilesAreRead(parse: Parser, es: seq<Entry>, s: Bytes)
    requires AllGenuine(parse, es) && exists n :: n >= 2 * BLOCK && s == Tiles(es) + Zeros(n)
    ensures Read(parse, s) == Some(es)
  {
    var n :| n >= 2 * BLOCK && s == Tiles(es) + Zeros(n);
    TiledIsRead(parse, es, n);
  }

  function PathsOf(es: seq<Entry>): (r: seq<Text>)
    ensures |r| == |es|
  {
    seq(|es|, i requires 0 <= i < |es| => es[i].head.path)
  }

  /** The body of the last entry with the launcher's path, which must be a regular file. */
  function LauncherBody(es: seq<Entry>, launcher: Text): Option<Bytes> {
    if es == [] then None
    else if es[|es| - 1].head.path == launcher then
      if IsRegular(es[|es| - 1].head.kind) then Some(es[|es| - 1].body) else None
    else LauncherBody(es[..|es| - 1], launcher)
  }

  /** What verifyArchiveLayout makes of the archive: the launcher's bytes, or a refusal. */
  function Layout(parse: Parser, s: Bytes, launcher: Text): Option<Bytes> {
    match Read(parse, s)
    case None => None
    case Some(es) => if Distinct(PathsOf(es)) then LauncherBody(es, launcher) else None
  }

  lemma {:induction false} LauncherIsTheEntry(es: seq<Entry>, launcher: Text, i: nat)
    requires Distinct(PathsOf(es)) && i < |es| && es[i].head.path == launcher
    ensures LauncherBody(es, launcher) == if IsRegular(es[i].head.kind) then Some(es[i].body) else None
    decreases |es|
  {
    var n := |es| - 1;
    if i < n {
      assert PathsOf(es)[i] != PathsOf(es)[n];
      assert PathsOf(es[..n]) == PathsOf(es)[..n];
      LauncherIsTheEntry(es[..n], launcher, i);
    }
  }

  lemma {:induction false} LauncherIsAnEntry(es: seq<Entry>, launcher: Text)
    requires LauncherBody(es, launcher).Some?
    ensures exists e ::
              && e in es && e.head.path == launcher && IsRegular(e.head.kind)
              && e.body == LauncherBody(es, launcher).value
    decreases |es|
  {
    var n := |es| - 1;
    if es[n].head.path != launcher {
      LauncherIsAnEntry(es[..n], launcher);
      var e :| e in es[..n] && e.head.path == launcher && IsRegular(e.head.kind)
        && e.body == LauncherBody(es[..n], launcher).value;
      assert e in es;
    } else {
      assert es[n] in es;
    }
  }

  /** The whole promise of the strict reader: what the archive is made of and where the launcher's bytes come from. */
  ghost predicate IsLayout(utf8: Decoder, s: Bytes, launcher: Text, es: seq<Entry>, bytes: Bytes) {
    && AllGenuine(HeaderParser(utf8), es) && (forall e | e in es :: SafePath(e.head.path))
    && (exists n :: n >= 2 * BLOCK && s == Tiles(es) + Zeros(n))
    && Distinct(PathsOf(es))
    && exists e :: e in es && e.head.path == launcher && IsRegular(e.head.kind) && e.body == bytes
  }

  lemma LauncherIsUnique(es: seq<Entry>, launcher: Text, bytes: Bytes)
    requires Distinct(PathsOf(es))
    requires exists e :: e in es && e.head.path == launcher && IsRegular(e.head.kind) && e.body == bytes
    ensures LauncherBody(es, launcher) == Some(bytes)
  {
    var e :| e in es && e.head.path == launcher && IsRegular(e.head.kind) && e.body == bytes;
    var i :| 0 <= i < |es| && es[i] == e;
    LauncherIsTheEntry(es, launcher, i);
  }

  lemma GenuineIsSafe(utf8: Decoder, e: Entry)
    requires Genuine(HeaderParser(utf8), e)
    ensures SafePath(e.head.path) && (IsRegular(e.head.kind) || IsDirectory(e.head.kind))
    ensures IsDirectory(e.head.kind) ==> e.body == []
  {
  }

  /** An accepted archive is tiled by genuine entries with distinct safe paths, one of which is the launcher. */
  lemma AcceptedIsLayout(utf8: Decoder, s: Bytes, launcher: Text, bytes: Bytes)
    requires Layout(HeaderParser(utf8), s, launcher) == Some(bytes)
    ensures exists es :: IsLayout(utf8, s, launcher, es, bytes)
  {
    var parse := HeaderParser(utf8);
    var es := Read(parse, s).value;
    var _ := ReadIsTiled(parse, s, es);
    LauncherIsAnEntry(es, launcher);
    forall e | e in es
      ensures SafePath(e.head.path)
    {
      GenuineIsSafe(utf8, e);
    }
    assert IsLayout(utf8, s, launcher, es, bytes);
  }

  /** Every archive of that make is accepted, and its decomposition is the only one. */
  lemma LayoutIsAccepted(utf8: Decoder, s: Bytes, launcher: Text, es: seq<Entry>, bytes: Bytes)
    requires IsLayout(utf8, s, launcher, es, bytes)
    ensures Read(HeaderParser(utf8), s) == Some(es) && Layout(HeaderParser(utf8), s, launcher) == Some(bytes)
  {
    TilesAreRead(HeaderParser(utf8), es, s);
    LauncherIsUnique(es, launcher, bytes);
  }

  // ---------------------------------------------------------------- the strict loop

  /** The checks on the entry at an offset, its body and its padding. */
  method ReadEntry(parse: Parser, tar: Bytes, offset: nat) returns (r: Option<Entry>)
    requires offset + BLOCK <= |tar|
    ensures r == FirstEntry(parse, tar[offset..])
  {
    var header := tar[offset..offset + BLOCK];
    ghost var s := tar[offset..];
    assert s[..BLOCK] == header;
    var parsed := parse(header);
    if parsed.None? {
      return None;
    }
    var start := offset + BLOCK;
    var end := start + parsed.value.size;
    if end > |tar| {
      return None;
    }
    var padded := start + Padded(parsed.value.size);
    if padded > |tar| {
      return None;
    }
    SliceOfRest(tar, offset, end, padded);
    SliceOfRest(tar, offset, start, end);
    if !AllZero(tar[end..padded]) {
      return None;
    }
    return Some(Entry(parsed.value, header, tar[start..end]));
  }

  lemma SliceOfRest(tar: Bytes, offset: nat, i: nat, j: nat)
    requires offset <= i <= j <= |tar|
    ensures tar[offset..][i - offset..j - offset] == tar[i..j]
  {
  }

  /** What the loop knows of the part it has walked. */
  ghost predicate Walked(parse: Parser, tar: Bytes, launcher: Text, offset: nat, entries: set<Text>,
                         found: Option<Bytes>, done: seq<Entry>) {
    && offset <= |tar| && Read(parse, tar) == Prepend(done, Read(parse, tar[offset..]))
    && Distinct(PathsOf(done)) && (forall p :: p in entries <==> p in PathsOf(done))
    && found == LauncherBody(done, launcher)
  }

  lemma PathsAppend(es: seq<Entry>, e: Entry)
    ensures PathsOf(es + [e]) == PathsOf(es) + [e.head.path]
  {
  }

  lemma WalkOn(parse: Parser, tar: Bytes, launcher: Text, offset: nat, entries: set<Text>, found: Option<Bytes>,
               done: seq<Entry>, e: Entry)
    requires Walked(parse, tar, launcher, offset, entries, found, done)
    requires offset + BLOCK <= |tar| && !AllZero(tar[offset..][..BLOCK]) && FirstEntry(parse, tar[offset..]) == Some(e)
    requires e.head.path !in entries
    ensures Walked(parse, tar, launcher, offset + BLOCK + Padded(e.head.size), entries + {e.head.path},
                   LauncherBody(done + [e], launcher), done + [e])
  {
    var next := offset + BLOCK + Padded(e.head.size);
    assert tar[offset..][BLOCK + Padded(e.head.size)..] == tar[next..];
    PathsAppend(done, e);
    PrependTwice(done, [e], Read(parse, tar[next..]));
  }

  /** A second entry of a path, or a launcher that is not a regular file, cannot be part of an accepted archive. */
  lemma RefusedEntry(parse: Parser, tar: Bytes, launcher: Text, done: seq<Entry>, e: Entry, rest: Bytes)
    requires Read(parse, tar) == Prepend(done, Prepend([e], Read(parse, rest)))
    requires e.head.path in PathsOf(done) || (e.head.path == launcher && !IsRegular(e.head.kind))
    ensures Layout(parse, tar, launcher).None?
  {
    if Read(parse, tar).Some? {
      var es := Read(parse, tar).value;
      var n := |done|;
      assert es == done + ([e] + Read(parse, rest).value);
      assert es[n] == e && forall i | 0 <= i < n :: es[i] == done[i];
      if Distinct(PathsOf(es)) {
        assert forall i | 0 <= i < n :: PathsOf(es)[i] == PathsOf(done)[i] && PathsOf(es)[i] != PathsOf(es)[n];
        LauncherIsTheEntry(es, launcher, n);
      }
    }
  }

  lemma AtTerminator(parse: Parser, tar: Bytes, launcher: Text, offset: nat, entries: set<Text>, found: Option<Bytes>,
                     done: seq<Entry>)
    requires Walked(parse, tar, launcher, offset, entries, found, done)
    requires offset + BLOCK <= |tar| && AllZero(tar[offset..][..BLOCK])
    ensures Layout(parse, tar, launcher) ==
            if offset + 2 * BLOCK <= |tar| && AllZero(tar[offset..]) then found else None
  {
    assert done + [] == done;
  }

  lemma WalkStarts(parse: Parser, tar: Bytes, launcher: Text)
    ensures Walked(parse, tar, launcher, 0, {}, None, [])
  {
    assert tar[0..] == tar;
    PrependNothing(Read(parse, tar));
  }

  lemma NoEntryHere(parse: Parser, tar: Bytes, launcher: Text, offset: nat, entries: set<Text>, found: Option<Bytes>,
                    done: seq<Entry>)
    requires Walked(parse, tar, launcher, offset, entries, found, done)
    requires offset + BLOCK <= |tar| && !AllZero(tar[offset..][..BLOCK]) && FirstEntry(parse, tar[offset..]).None?
    ensures Layout(parse, tar, launcher).None?
  {
  }

  lemma NoTerminator(parse: Parser, tar: Bytes, launcher: Text, offset: nat, entries: set<Text>, found: Option<Bytes>,
                     done: seq<Entry>)
    requires Walked(parse, tar, launcher, offset, entries, found, done) && offset + BLOCK > |tar|
    ensures Layout(parse, tar, launcher).None?
  {
  }

  lemma EntryIsRefused(parse: Parser, tar: Bytes, launcher: Text, offset: nat, entries: set<Text>, found: Option<Bytes>,
                       done: seq<Entry>, e: Entry)
    requires Walked(parse, tar, launcher, offset, entries, found, done)
    requires offset + BLOCK <= |tar| && !AllZero(tar[offset..][..BLOCK]) && FirstEntry(parse, tar[offset..]) == Some(e)
    requires e.head.path in entries || (e.head.path == launcher && !IsRegular(e.head.kind))
    ensures Layout(parse, tar, launcher).None?
  {
    RefusedEntry(parse, tar, launcher, done, e, tar[offset..][BLOCK + Padded(e.head.size)..]);
  }

  lemma LauncherSoFar(done: seq<Entry>, e: Entry, launcher: Text)
    requires e.head.path == launcher ==> IsRegular(e.head.kind)
    ensures LauncherBody(done + [e], launcher) == if e.head.path == launcher then Some(e.body)
            else LauncherBody(done, launcher)
  {
    assert (done + [e])[..|done|] == done;
  }

  /** The loop of verifyArchiveLayout over the bytes of the archive. */
  method VerifyArchiveLayout(utf8: Decoder, tar: Bytes, launcher: Text) returns (r: Option<Bytes>)
    ensures r == Layout(HeaderParser(utf8), tar, launcher)
  {
    r := WalkArchive(HeaderParser(utf8), tar, launcher);
  }

  method WalkArchive(parse: Parser, tar: Bytes, launcher: Text) returns (r: Option<Bytes>)
    ensures r == Layout(parse, tar, launcher)
  {
    var offset, found, terminated, entries := 0, None, false, {};
    ghost var done: seq<Entry> := [];
    WalkStarts(parse, tar, launcher);
    while offset + BLOCK <= |tar|
      invariant Walked(parse, tar, launcher, offset, entries, found, done) && !terminated
      decreases |tar| - offset
    {
      ghost var s := tar[offset..];
      assert s[..BLOCK] == tar[offset..offset + BLOCK];
      if AllZero(tar[offset..offset + BLOCK]) {
        AtTerminator(parse, tar, launcher, offset, entries, found, done);
        if offset + 2 * BLOCK > |tar| || !AllZero(tar[offset..]) {
          return None;
        }
        terminated := true;
        break;
      }
      var next := ReadEntry(parse, tar, offset);
      if next.None? {
        NoEntryHere(parse, tar, launcher, offset, entries, found, done);
        return None;
      }
      var e := next.value;
      if e.head.path in entries || (e.head.path == launcher && !IsRegular(e.head.kind)) {
        EntryIsRefused(parse, tar, launcher, offset, entries, found, done, e);
        return None;
      }
      WalkOn(parse, tar, launcher, offset, entries, found, done, e);
      LauncherSoFar(done, e, launcher);
      if e.head.path == launcher {
        found := Some(e.body);
      }
      entries, offset, done := entries + {e.head.path}, offset + BLOCK + Padded(e.head.size), done + [e];
    }
    if !terminated {
      NoTerminator(parse, tar, launcher, offset, entries, found, done);
      return None;
    }
    return found;
  }

  // ---------------------------------------------------------------- the lax lister

  datatype Listing = Listing(path: Text, size: nat)

  type Lister = Bytes -> Option<Listing>

  /** What listRegularTarPaths asks of a header. */
  function LaxHeader(utf8: Decoder, h: Bytes): Option<Listing>
    requires |h| == BLOCK
  {
    var path := RawPath(FieldText(utf8, h[345..500]), FieldText(utf8, h[..100]));
    if !IsRegular(h[156]) || |path| > 240 || !SafePath(path) then None
    else match ParseOctal(utf8, h[124..136]) case Some(size) => Some(Listing(path, size)) case None => None
  }

  function HeaderLister(utf8: Decoder): Lister {
    (h: Bytes) => if |h| == BLOCK then LaxHeader(utf8, h) else None
  }

  /** The paths on the lister's way, which ends at a zero block or at the end of the bytes. */
  function Visited(lax: Lister, s: Bytes): Option<seq<Text>>
    decreases |s|
  {
    if |s| < BLOCK || AllZero(s[..BLOCK]) then Some([])
    else match lax(s[..BLOCK])
      case None => None
      case Some(l) =>
        var n := BLOCK + Padded(l.size);
        Prepend([l.path], if n <= |s| then Visited(lax, s[n..]) else Some([]))
  }

  function Listed(lax: Lister, s: Bytes): Option<seq<Text>> {
    match Visited(lax, s)
    case None => None
    case Some(paths) => if Distinct(paths) then Some(paths) else None
  }

  /** What the lister at an offset still makes of the bytes. */
  function VisitedFrom(lax: Lister, s: Bytes, offset: nat): Option<seq<Text>> {
    if offset <= |s| then Visited(lax, s[offset..]) else Some([])
  }

  lemma VisitedStep(lax: Lister, s: Bytes, offset: nat)
    requires offset + BLOCK <= |s| && !AllZero(s[offset..offset + BLOCK])
    ensures lax(s[offset..offset + BLOCK]).None? ==> VisitedFrom(lax, s, offset).None?
    ensures lax(s[offset..offset + BLOCK]).Some? ==>
              var l := lax(s[offset..offset + BLOCK]).value;
              VisitedFrom(lax, s, offset) == Prepend([l.path], VisitedFrom(lax, s, offset + BLOCK + Padded(l.size)))
  {
    assert s[offset..][..BLOCK] == s[offset..offset + BLOCK];
    if lax(s[offset..offset + BLOCK]).Some? {
      var n := BLOCK + Padded(lax(s[offset..offset + BLOCK]).value.size);
      if offset + n <= |s| {
        assert s[offset..][n..] == s[offset + n..];
      }
    }
  }

  lemma VisitedEnd(lax: Lister, s: Bytes, offset: nat)
    requires offset + BLOCK > |s| || AllZero(s[offset..offset + BLOCK])
    ensures VisitedFrom(lax, s, offset) == Some([])
  {
    assert offset + BLOCK <= |s| ==> s[offset..][..BLOCK] == s[offset..offset + BLOCK];
  }

  lemma RepeatedPath(paths: seq<Text>, path: Text, rest: Option<seq<Text>>)
    requires path in paths
    ensures Prepend(paths + [path], rest).Some? ==> !Distinct(Prepend(paths + [path], rest).value)
  {
    if rest.Some? {
      var all := paths + [path] + rest.value;
      var i :| 0 <= i < |paths| && paths[i] == path;
      assert all[i] == all[|paths|];
    }
  }

  method ListPaths(lax: Lister, tar: Bytes) returns (r: Option<seq<Text>>)
    ensures r == Listed(lax, tar)
  {
    var offset, paths := 0, [];
    assert tar[0..] == tar;
    PrependNothing(Visited(lax, tar));
    while offset + BLOCK <= |tar| && !AllZero(tar[offset..offset + BLOCK])
      invariant Distinct(paths) && Visited(lax, tar) == Prepend(paths, VisitedFrom(lax, tar, offset))
      decreases |tar| - offset
    {
      VisitedStep(lax, tar, offset);
      var next := lax(tar[offset..offset + BLOCK]);
      if next.None? {
        return None;
      }
      var l := next.value;
      ghost var rest := VisitedFrom(lax, tar, offset + BLOCK + Padded(l.size));
      PrependTwice(paths, [l.path], rest);
      if l.path in paths {
        RepeatedPath(paths, l.path, rest);
        return None;
      }
      paths, offset := paths + [l.path], offset + BLOCK + Padded(l.size);
    }
    VisitedEnd(lax, tar, offset);
    assert paths + [] == paths;
    return Some(paths);
  }

  /** listRegularTarPaths on the bytes of an archive. */
  method ListRegularTarPaths(utf8: Decoder, tar: Bytes) returns (r: Option<seq<Text>>)
    ensures r == Listed(HeaderLister(utf8), tar)
  {
    r := ListPaths(HeaderLister(utf8), tar);
  }

  // ---------------------------------------------------------------- the two readers agree

  /** An entry the lister takes as well. */
  predicate Listable(head: Head) {
    IsRegular(head.kind) && |head.path| <= 240
  }

  ghost predicate Agree(parse: Parser, lax: Lister) {
    forall h: Bytes | parse(h).Some? ::
      lax(h) == if Listable(parse(h).value) then Some(Listing(parse(h).value.path, parse(h).value.size)) else None
  }

  lemma HeadersAgree(utf8: Decoder)
    ensures Agree(HeaderParser(utf8), HeaderLister(utf8))
  {
    forall h: Bytes | HeaderParser(utf8)(h).Some?
      ensures var head := HeaderParser(utf8)(h).value;
              HeaderLister(utf8)(h) == if Listable(head) then Some(Listing(head.path, head.size)) else None
    {
      HeaderAgrees(utf8, h);
    }
  }

  lemma HeaderAgrees(utf8: Decoder, h: Bytes)
    requires |h| == BLOCK && ParseHeader(utf8, h).Some?
    ensures var head := ParseHeader(utf8, h).value;
            LaxHeader(utf8, h) == if Listable(head) then Some(Listing(head.path, head.size)) else None
  {
  }

  lemma SameStep(parse: Parser, lax: Lister, s: Bytes, e: Entry, rest: Bytes)
    requires Agree(parse, lax) && Genuine(parse, e) && |s| >= BLOCK && s[..BLOCK] == e.header
    requires BLOCK + Padded(e.head.size) <= |s| && rest == s[BLOCK + Padded(e.head.size)..]
    ensures Visited(lax, s) == if Listable(e.head) then Prepend([e.head.path], Visited(lax, rest)) else None
  {
  }

  predicate AllListable(es: seq<Entry>) {
    forall e | e in es :: Listable(e.head)
  }

  lemma ListableJoin(e: Entry, es: seq<Entry>)
    ensures AllListable([e] + es) <==> Listable(e.head) && AllListable(es)
    ensures PathsOf([e] + es) == [e.head.path] + PathsOf(es)
  {
    assert e in [e] + es && forall x | x in es :: x in [e] + es;
  }

  /** On an archive the strict reader walks, the lister walks the same entries or meets one it cannot list. */
  lemma {:induction false} SameWalk(parse: Parser, lax: Lister, s: Bytes, es: seq<Entry>)
    requires Agree(parse, lax) && Read(parse, s) == Some(es)
    ensures Visited(lax, s) == if AllListable(es) then Some(PathsOf(es)) else None
    decreases |s|
  {
    if AllZero(s[..BLOCK]) {
      assert es == [] && PathsOf(es) == [];
    } else {
      var e, rest := ReadFirst(parse, s);
      var more := Read(parse, rest).value;
      SameWalk(parse, lax, rest, more);
      SameStep(parse, lax, s, e, rest);
      ListableJoin(e, more);
    }
  }

  /** When the strict reader accepts, the lister succeeds exactly on regular entries with paths of at most 240 units,
      and then lists the same paths in the same order. */
  lemma ReadersAgree(utf8: Decoder, s: Bytes, es: seq<Entry>)
    requires Read(HeaderParser(utf8), s) == Some(es) && Distinct(PathsOf(es))
    ensures Listed(HeaderLister(utf8), s) == if AllListable(es) then Some(PathsOf(es)) else None
  {
    HeadersAgree(utf8);
    SameWalk(HeaderParser(utf8), HeaderLister(utf8), s, es);
  }
}
