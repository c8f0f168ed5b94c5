/**
 The canonical JSON printer of scripts/runtime/fault-soak-report.ts (`canonicalRuntimeFaultSoakJson`).

 Text is a sequence of UTF-16 code units.  A number is represented by the text JSON.stringify gives it.
 Objects list their members in insertion order; `Object.entries` gives those whose key is an array index first, in
 ascending order, and the printer sorts what it gives by key with `before`, which stands for
 `left.localeCompare(right) < 0`.
 */
module CanonicalJson {
  import opened Basics
  import opened Encoding
  import opened Sorting

  datatype Json =
    | Null
    | Bool(value: bool)
    | Number(text: Text)
    | Str(content: Text)
    | Array(items: seq<Json>)
    | Object(members: seq<Member>)

  datatype Member = Member(key: Text, value: Json)

  const QUOTE: Unit := 0x22
  const COMMA: Unit := 0x2C
  const COLON: Unit := 0x3A
  const OPEN_BRACKET: Unit := 0x5B
  const BACKSLASH: Unit := 0x5C
  const CLOSE_BRACKET: Unit := 0x5D
  const OPEN_BRACE: Unit := 0x7B
  const CLOSE_BRACE: Unit := 0x7D

  /** Digits, sign, point and exponent mark: what the text of a finite number is made of. */
  predicate IsNumberUnit(u: Unit) {
    0x30 <= u <= 0x39 || u == 0x2B || u == 0x2D || u == 0x2E || u == 0x45 || u == 0x65
  }

  predicate DistinctKeys(members: seq<Member>) {
    forall i, j | 0 <= i < j < |members| :: members[i].key != members[j].key
  }

  /** A finite JSON value without undefined. */
  predicate IsJson(v: Json) {
    match v
    case Null => true
    case Bool(_) => true
    case Number(t) => t != [] && forall i | 0 <= i < |t| :: IsNumberUnit(t[i])
    case Str(_) => true
    case Array(items) => forall x | x in items :: IsJson(x)
    case Object(members) => DistinctKeys(members) && forall m | m in members :: IsJson(m.value)
  }

  // ---------------------------------------------------------------- JSON.stringify of strings

  predicate IsHigh(u: Unit) { 0xD800 <= u < 0xDC00 }

  predicate IsLow(u: Unit) { 0xDC00 <= u < 0xE000 }

  function HexDigit(d: nat): Unit
    requires d < 16
  {
    if d < 10 then 0x30 + d else 0x57 + d
  }

  function UnicodeEscape(u: Unit): Text {
    [BACKSLASH, 0x75, HexDigit(u / 0x1000), HexDigit(u / 0x100 % 0x10), HexDigit(u / 0x10 % 0x10), HexDigit(u % 0x10)]
  }

  /** One code unit that is not half of a surrogate pair. */
  function Escape(u: Unit): Text {
    if u == QUOTE || u == BACKSLASH then [BACKSLASH, u]
    else if u == 0x08 then [BACKSLASH, 0x62]
    else if u == 0x09 then [BACKSLASH, 0x74]
    else if u == 0x0A then [BACKSLASH, 0x6E]
    else if u == 0x0C then [BACKSLASH, 0x66]
    else if u == 0x0D then [BACKSLASH, 0x72]
    else if u < 0x20 || IsHigh(u) || IsLow(u) then UnicodeEscape(u)
    else [u]
  }

  function Escaped(t: Text): Text {
    if t == [] then []
    else if |t| >= 2 && IsHigh(t[0]) && IsLow(t[1]) then t[..2] + Escaped(t[2..])
    else Escape(t[0]) + Escaped(t[1..])
  }

  function Quoted(t: Text): Text {
    [QUOTE] + Escaped(t) + [QUOTE]
  }

  lemma HexDigitDecodes(d: nat, e: nat)
    requires d < 16 && e < 16 && HexDigit(d) == HexDigit(e)
    ensures d == e
  {
  }

  lemma HexDigits(u: Unit)
    ensures u == 0x1000 * (u / 0x1000) + 0x100 * (u / 0x100 % 0x10) + 0x10 * (u / 0x10 % 0x10) + u % 0x10
  {
    var v: int := u;
    assert v / 0x100 == (v / 0x10) / 0x10 && v / 0x1000 == (v / 0x100) / 0x10;
  }

  lemma HexDecodes(u: Unit, w: Unit)
    requires forall k | 2 <= k < 6 :: UnicodeEscape(u)[k] == UnicodeEscape(w)[k]
    ensures u == w
  {
    var x, y := UnicodeEscape(u), UnicodeEscape(w);
    assert x[2] == y[2] && x[3] == y[3] && x[4] == y[4] && x[5] == y[5];
    HexDigitDecodes(u / 0x1000, w / 0x1000);
    HexDigitDecodes(u / 0x100 % 0x10, w / 0x100 % 0x10);
    HexDigitDecodes(u / 0x10 % 0x10, w / 0x10 % 0x10);
    HexDigitDecodes(u % 0x10, w % 0x10);
    HexDigits(u);
    HexDigits(w);
  }

  /** The escapes form a prefix code. */
  lemma EscapeDecodes(u: Unit, w: Unit, s: Text, t: Text)
    requires Escape(u) + s == Escape(w) + t
    ensures u == w && s == t
  {
    var a, b := Escape(u) + s, Escape(w) + t;
    assert a[0] == Escape(u)[0] && b[0] == Escape(w)[0];
    if a[0] == BACKSLASH {
      assert a[1] == Escape(u)[1] && b[1] == Escape(w)[1];
      if a[1] == 0x75 {
        assert forall k | 2 <= k < 6 :: a[k] == Escape(u)[k] && b[k] == Escape(w)[k];
        HexDecodes(u, w);
      }
    }
    assert s == a[|Escape(u)|..] && t == b[|Escape(w)|..];
  }

  lemma EscapeStart(u: Unit)
    ensures Escape(u)[0] != QUOTE && !IsHigh(Escape(u)[0]) && !IsLow(Escape(u)[0])
  {
  }

  /** The rest of a quoted string from inside it. */
  function Inside(x: Text, s: Text): Text {
    Escaped(x) + [QUOTE] + s
  }

  predicate IsPair(t: Text) {
    |t| >= 2 && IsHigh(t[0]) && IsLow(t[1])
  }

  lemma InsideStarts(x: Text, s: Text)
    ensures x == [] ==> Inside(x, s) == [QUOTE] + s
    ensures IsPair(x) ==> Inside(x, s) == x[..2] + Inside(x[2..], s)
    ensures x != [] && !IsPair(x) ==> Inside(x, s) == Escape(x[0]) + Inside(x[1..], s)
    ensures x != [] ==> Inside(x, s)[0] != QUOTE
    ensures x != [] ==> (IsPair(x) <==> IsHigh(Inside(x, s)[0]))
  {
    if IsPair(x) {
      assert Escaped(x) == x[..2] + Escaped(x[2..]);
      Regrouped(x[..2], Escaped(x[2..]), s);
    } else if x != [] {
      assert Escaped(x) == Escape(x[0]) + Escaped(x[1..]);
      Regrouped(Escape(x[0]), Escaped(x[1..]), s);
      EscapeStart(x[0]);
    }
  }

  lemma Regrouped(a: Text, b: Text, s: Text)
    requires a != []
    ensures (a + b) + [QUOTE] + s == a + (b + [QUOTE] + s) && ((a + b) + [QUOTE] + s)[0] == a[0]
  {
  }

  lemma PairDecodes(x: Text, y: Text, s: Text, t: Text)
    requires |x| >= 2 && |y| >= 2 && x[..2] + s == y[..2] + t
    ensures x[..2] == y[..2] && s == t
  {
    var a, b := x[..2] + s, y[..2] + t;
    assert a[..2] == x[..2] && b[..2] == y[..2] && a[2..] == s && b[2..] == t;
  }

  /** A quoted string ends at its first bare quote and determines its content. */
  lemma {:induction false} InsideDecodes(x: Text, y: Text, s: Text, t: Text)
    requires Inside(x, s) == Inside(y, t)
    ensures x == y && s == t
    decreases |x|
  {
    InsideStarts(x, s);
    InsideStarts(y, t);
    if x == [] || y == [] {
      assert s == Inside(x, s)[1..] && t == Inside(y, t)[1..];
    } else if IsPair(x) {
      PairDecodes(x, y, Inside(x[2..], s), Inside(y[2..], t));
      InsideDecodes(x[2..], y[2..], s, t);
      assert x == x[..2] + x[2..] && y == y[..2] + y[2..];
    } else {
      EscapeDecodes(x[0], y[0], Inside(x[1..], s), Inside(y[1..], t));
      InsideDecodes(x[1..], y[1..], s, t);
      assert x == [x[0]] + x[1..] && y == [y[0]] + y[1..];
    }
  }

  lemma QuotedDecodes(x: Text, y: Text, s: Text, t: Text)
    requires Quoted(x) + s == Quoted(y) + t
    ensures x == y && s == t
  {
    assert (Quoted(x) + s)[1..] == Inside(x, s);
    assert (Quoted(y) + t)[1..] == Inside(y, t);
    InsideDecodes(x, y, s, t);
  }

  // ---------------------------------------------------------------- the printer

  type Order = (Text, Text) -> bool

  function ByKey(before: Order): (Member, Member) -> bool {
    (x: Member, y: Member) => !before(y.key, x.key)
  }

  function Decimal(t: Text): nat
    requires forall i | 0 <= i < |t| :: 0x30 <= t[i] <= 0x39
  {
    if t == [] then 0 else 10 * Decimal(t[..|t| - 1]) + (t[|t| - 1] - 0x30)
  }

  predicate IsDecimal(t: Text) {
    t != [] && (forall i | 0 <= i < |t| :: 0x30 <= t[i] <= 0x39) && (|t| > 1 ==> t[0] != 0x30)
  }

  /** The number an array index stands for: a canonical decimal below 2^32 - 1. */
  function ArrayIndex(key: Text): Option<nat> {
    if IsDecimal(key) && Decimal(key) < 0xFFFF_FFFF then Some(Decimal(key)) else None
  }

  /** The order of own properties: array indices ascending, before all other keys. */
  predicate OwnOrder(a: Text, b: Text) {
    ArrayIndex(a).Some? && (ArrayIndex(b).Some? ==> ArrayIndex(a).value < ArrayIndex(b).value)
  }

  /** Object.entries. */
  function EntriesOf(ms: seq<Member>): (r: seq<Member>)
    ensures |r| == |ms|
  {
    Sort(ByKey(OwnOrder), ms)
  }

  function Sorted(before: Order, ms: seq<Member>): (r: seq<Member>)
    ensures |r| == |ms|
    ensures forall x :: x in r <==> x in ms
  {
    SortMembers(ByKey(OwnOrder), ms);
    SortMembers(ByKey(before), EntriesOf(ms));
    Sort(ByKey(before), EntriesOf(ms))
  }

  function Print(before: Order, v: Json): Text
    decreases v, 1, 0
  {
    match v
    case Null => [0x6E, 0x75, 0x6C, 0x6C]
    case Bool(b) => if b then [0x74, 0x72, 0x75, 0x65] else [0x66, 0x61, 0x6C, 0x73, 0x65]
    case Number(t) => t
    case Str(t) => Quoted(t)
    case Array(items) => [OPEN_BRACKET] + PrintItems(before, v, items) + [CLOSE_BRACKET]
    case Object(members) =>
      SortedMembersOf(before, v);
      [OPEN_BRACE] + PrintMembers(before, v, Sorted(before, members)) + [CLOSE_BRACE]
  }

  /** The items are parts of the whole, so that printing them ends. */
  ghost predicate ItemsOf(whole: Json, items: seq<Json>) {
    forall i | 0 <= i < |items| :: items[i] < whole
  }

  ghost predicate MembersOf(whole: Json, members: seq<Member>) {
    forall i | 0 <= i < |members| :: members[i].value < whole
  }

  lemma SortedMembersOf(before: Order, v: Json)
    requires v.Object?
    ensures MembersOf(v, Sorted(before, v.members))
  {
    var r := Sorted(before, v.members);
    forall i | 0 <= i < |r|
      ensures r[i].value < v
    {
      assert r[i] in v.members;
    }
  }

  function PrintItems(before: Order, whole: Json, items: seq<Json>): Text
    requires ItemsOf(whole, items)
    decreases whole, 0, |items|
  {
    if items == [] then []
    else if |items| == 1 then Print(before, items[0])
    else Print(before, items[0]) + [COMMA] + PrintItems(before, whole, items[1..])
  }

  function PrintMembers(before: Order, whole: Json, members: seq<Member>): Text
    requires MembersOf(whole, members)
    decreases whole, 0, |members|
  {
    if members == [] then []
    else
      var first := Quoted(members[0].key) + [COLON] + Print(before, members[0].value);
      if |members| == 1 then first else first + [COMMA] + PrintMembers(before, whole, members[1..])
  }

  /** Equality of JSON values with the order of object members ignored. */
  ghost predicate SameValue(v: Json, w: Json) {
    match (v, w)
    case (Array(a), Array(b)) => |a| == |b| && forall i | 0 <= i < |a| :: SameValue(a[i], b[i])
    case (Object(a), Object(b)) =>
      |a| == |b| && forall x | x in a :: exists y :: y in b && y.key == x.key && SameValue(x.value, y.value)
    case _ => v == w
  }

  // ---------------------------------------------------------------- printed text determines the value

  /** Nothing follows a printed value but the end, a comma or a closing bracket. */
  predicate Delimited(s: Text) {
    s == [] || s[0] == COMMA || s[0] == CLOSE_BRACKET || s[0] == CLOSE_BRACE
  }

  lemma PrintStarts(before: Order, v: Json)
    requires IsJson(v)
    ensures Print(before, v) != []
    ensures var u := Print(before, v)[0];
            match v
            case Null => u == 0x6E
            case Bool(b) => u == if b then 0x74 else 0x66
            case Number(_) => IsNumberUnit(u)
            case Str(_) => u == QUOTE
            case Array(_) => u == OPEN_BRACKET
            case Object(_) => u == OPEN_BRACE
  {
  }

  lemma {:induction false} NumberDecodes(x: Text, y: Text, s: Text, t: Text)
    requires forall i | 0 <= i < |x| :: IsNumberUnit(x[i])
    requires forall i | 0 <= i < |y| :: IsNumberUnit(y[i])
    requires Delimited(s) && Delimited(t) && x + s == y + t
    ensures x == y && s == t
    decreases |x|
  {
    var a, b := x + s, y + t;
    assert x == [] ==> a == s;
    assert y == [] ==> b == t;
    assert x != [] ==> a[0] == x[0];
    assert y != [] ==> b[0] == y[0];
    if x != [] && y != [] {
      assert a[1..] == x[1..] + s && b[1..] == y[1..] + t;
      NumberDecodes(x[1..], y[1..], s, t);
      assert x == [x[0]] + x[1..] && y == [y[0]] + y[1..];
    }
  }

  function ItemsThen(before: Order, v: Json, xs: seq<Json>, s: Text): Text
    requires ItemsOf(v, xs)
  {
    PrintItems(before, v, xs) + [CLOSE_BRACKET] + s
  }

  /** What follows the first item. */
  function AfterItem(before: Order, v: Json, xs: seq<Json>, s: Text): (r: Text)
    requires ItemsOf(v, xs)
    ensures Delimited(r)
  {
    if xs == [] then [CLOSE_BRACKET] + s else [COMMA] + ItemsThen(before, v, xs, s)
  }

  lemma ItemsUnfold(before: Order, v: Json, xs: seq<Json>, s: Text)
    requires ItemsOf(v, xs) && xs != []
    ensures ItemsThen(before, v, xs, s) == Print(before, xs[0]) + AfterItem(before, v, xs[1..], s)
  {
  }

  function MembersThen(before: Order, v: Json, ms: seq<Member>, s: Text): Text
    requires MembersOf(v, ms)
  {
    PrintMembers(before, v, ms) + [CLOSE_BRACE] + s
  }

  function AfterMember(before: Order, v: Json, ms: seq<Member>, s: Text): (r: Text)
    requires MembersOf(v, ms)
    ensures Delimited(r)
  {
    if ms == [] then [CLOSE_BRACE] + s else [COMMA] + MembersThen(before, v, ms, s)
  }

  function MemberText(before: Order, m: Member): Text {
    Quoted(m.key) + [COLON] + Print(before, m.value)
  }

  lemma PrintMembersStep(before: Order, v: Json, ms: seq<Member>)
    requires MembersOf(v, ms) && ms != []
    ensures PrintMembers(before, v, ms) ==
            if |ms| == 1 then MemberText(before, ms[0])
              else MemberText(before, ms[0]) + [COMMA] + PrintMembers(before, v, ms[1..])
  {
  }

  lemma Nested(a: Text, b: Text, c: Text, d: Text, s: Text)
    ensures (a + b + c) + d + s == a + (b + (c + d + s)) && a + d + s == a + (d + s)
  {
  }

  lemma MembersUnfold(before: Order, v: Json, ms: seq<Member>, s: Text)
    requires MembersOf(v, ms) && ms != []
    ensures MembersThen(before, v, ms, s) == MemberText(before, ms[0]) + AfterMember(before, v, ms[1..], s)
  {
    PrintMembersStep(before, v, ms);
    Nested(MemberText(before, ms[0]), [COMMA], PrintMembers(before, v, ms[1..]), [CLOSE_BRACE], s);
  }

  lemma MemberTextSplits(before: Order, m: Member, s: Text)
    ensures MemberText(before, m) + s == Quoted(m.key) + ([COLON] + (Print(before, m.value) + s))
  {
  }

  /** Equal printed texts, up to what follows them, come from equal values. */
  lemma {:induction false} PrintDecodes(before: Order, v: Json, w: Json, s: Text, t: Text)
    requires IsJson(v) && IsJson(w) && Delimited(s) && Delimited(t)
    requires Print(before, v) + s == Print(before, w) + t
    ensures SameValue(v, w) && s == t
    decreases v, 2, 0
  {
    PrintStarts(before, v);
    PrintStarts(before, w);
    assert (Print(before, v) + s)[0] == Print(before, v)[0] && (Print(before, w) + t)[0] == Print(before, w)[0];
    if v.Array? {
      ArrayDecodes(before, v, w, s, t);
    } else if v.Object? {
      ObjectDecodes(before, v, w, s, t);
    } else {
      LeafDecodes(before, v, w, s, t);
    }
  }

  lemma LeafDecodes(before: Order, v: Json, w: Json, s: Text, t: Text)
    requires IsJson(v) && IsJson(w) && Delimited(s) && Delimited(t)
    requires !v.Array? && !v.Object? && Print(before, v) + s == Print(before, w) + t
    requires Print(before, w) != [] && (v.Null? <==> w.Null?) && (v.Bool? <==> w.Bool?) && (v.Number? <==> w.Number?)
    requires (v.Str? <==> w.Str?) && (v.Bool? ==> v == w)
    ensures v == w && s == t
  {
    var a, b := Print(before, v) + s, Print(before, w) + t;
    if v.Number? {
      NumberDecodes(v.text, w.text, s, t);
    } else if v.Str? {
      QuotedDecodes(v.content, w.content, s, t);
    } else {
      assert s == a[|Print(before, v)|..] && t == b[|Print(before, v)|..];
    }
  }

  lemma {:induction false} ArrayDecodes(before: Order, v: Json, w: Json, s: Text, t: Text)
    requires IsJson(v) && IsJson(w) && v.Array? && w.Array? && Print(before, v) + s == Print(before, w) + t
    ensures SameValue(v, w) && s == t
    decreases v, 1, 0
  {
    assert (Print(before, v) + s)[1..] == ItemsThen(before, v, v.items, s);
    assert (Print(before, w) + t)[1..] == ItemsThen(before, w, w.items, t);
    ItemsDecode(before, v, w, v.items, w.items, s, t);
  }

  lemma {:induction false} ObjectDecodes(before: Order, v: Json, w: Json, s: Text, t: Text)
    requires IsJson(v) && IsJson(w) && v.Object? && w.Object? && Print(before, v) + s == Print(before, w) + t
    ensures SameValue(v, w) && s == t
    decreases v, 1, 0
  {
    var x, y := Sorted(before, v.members), Sorted(before, w.members);
    ObjectText(before, v, s);
    ObjectText(before, w, t);
    assert (forall m | m in x :: IsJson(m.value)) && (forall m | m in y :: IsJson(m.value));
    MembersDecode(before, v, w, x, y, s, t);
    SameMembers(v, w, x, y);
  }

  lemma ObjectText(before: Order, v: Json, s: Text)
    requires v.Object?
    ensures MembersOf(v, Sorted(before, v.members))
    ensures (Print(before, v) + s)[1..] == MembersThen(before, v, Sorted(before, v.members), s)
  {
    SortedMembersOf(before, v);
    ObjectIs(before, v, Sorted(before, v.members));
    Framed(OPEN_BRACE, PrintMembers(before, v, Sorted(before, v.members)), CLOSE_BRACE, s);
  }

  lemma ObjectIs(before: Order, v: Json, ms: seq<Member>)
    requires v.Object? && ms == Sorted(before, v.members) && MembersOf(v, ms)
    ensures Print(before, v) == [OPEN_BRACE] + PrintMembers(before, v, ms) + [CLOSE_BRACE]
  {
  }

  lemma Framed(open: Unit, p: Text, close: Unit, s: Text)
    ensures ([open] + p + [close] + s)[1..] == p + [close] + s
  {
    assert [open] + p + [close] + s == [open] + (p + [close] + s);
  }

  lemma SameMembers(v: Json, w: Json, x: seq<Member>, y: seq<Member>)
    requires v.Object? && w.Object? && |x| == |y| && |v.members| == |x| && |w.members| == |y|
    requires (forall m :: m in x <==> m in v.members) && (forall m :: m in y <==> m in w.members)
    requires forall i | 0 <= i < |x| :: x[i].key == y[i].key && SameValue(x[i].value, y[i].value)
    ensures SameValue(v, w)
  {
    forall m | m in v.members
      ensures exists n :: n in w.members && n.key == m.key && SameValue(m.value, n.value)
    {
      assert m in x;
      var i :| 0 <= i < |x| && x[i] == m;
      assert y[i] in y;
    }
  }

  lemma EmptyItems(before: Order, v: Json, xs: seq<Json>, s: Text)
    requires ItemsOf(v, xs) && forall x | x in xs :: IsJson(x)
    ensures xs == [] <==> ItemsThen(before, v, xs, s)[0] == CLOSE_BRACKET
    ensures xs == [] ==> ItemsThen(before, v, xs, s)[1..] == s
  {
    if xs != [] {
      ItemsUnfold(before, v, xs, s);
      PrintStarts(before, xs[0]);
    }
  }

  lemma {:induction false} ItemsDecode(before: Order, v: Json, w: Json, xs: seq<Json>, ys: seq<Json>, s: Text, t: Text)
    requires ItemsOf(v, xs) && ItemsOf(w, ys) && (forall x | x in xs :: IsJson(x)) && (forall y | y in ys :: IsJson(y))
    requires ItemsThen(before, v, xs, s) == ItemsThen(before, w, ys, t)
    ensures |xs| == |ys| && (forall i | 0 <= i < |xs| :: SameValue(xs[i], ys[i])) && s == t
    decreases v, 0, |xs|
  {
    EmptyItems(before, v, xs, s);
    EmptyItems(before, w, ys, t);
    if xs != [] {
      ItemsUnfold(before, v, xs, s);
      ItemsUnfold(before, w, ys, t);
      var rest, other := AfterItem(before, v, xs[1..], s), AfterItem(before, w, ys[1..], t);
      PrintDecodes(before, xs[0], ys[0], rest, other);
      assert rest[1..] == other[1..];
      if xs[1..] != [] {
        ItemsDecode(before, v, w, xs[1..], ys[1..], s, t);
      } else {
        assert rest[1..] == s && other[1..] == t;
      }
      assert forall i | 1 <= i < |xs| :: xs[i] == xs[1..][i - 1];
      assert forall i | 1 <= i < |ys| :: ys[i] == ys[1..][i - 1];
    }
  }

  lemma EmptyMembers(before: Order, v: Json, xs: seq<Member>, s: Text)
    requires MembersOf(v, xs)
    ensures xs == [] <==> MembersThen(before, v, xs, s)[0] == CLOSE_BRACE
    ensures xs == [] ==> MembersThen(before, v, xs, s)[1..] == s
  {
    if xs != [] {
      MembersUnfold(before, v, xs, s);
      assert MemberText(before, xs[0])[0] == QUOTE;
    }
  }

  lemma {:induction false} MembersDecode(before: Order, v: Json, w: Json, xs: seq<Member>, ys: seq<Member>, s: Text,
                                         t: Text)
    requires MembersOf(v, xs) && MembersOf(w, ys)
    requires (forall x | x in xs :: IsJson(x.value)) && (forall y | y in ys :: IsJson(y.value))
    requires MembersThen(before, v, xs, s) == MembersThen(before, w, ys, t)
    ensures |xs| == |ys| && s == t
    ensures forall i | 0 <= i < |xs| :: xs[i].key == ys[i].key && SameValue(xs[i].value, ys[i].value)
    decreases v, 0, |xs|
  {
    EmptyMembers(before, v, xs, s);
    EmptyMembers(before, w, ys, t);
    if xs != [] {
      MembersUnfold(before, v, xs, s);
      MembersUnfold(before, w, ys, t);
      var rest, other := AfterMember(before, v, xs[1..], s), AfterMember(before, w, ys[1..], t);
      MemberTextSplits(before, xs[0], rest);
      MemberTextSplits(before, ys[0], other);
      FirstMemberDecodes(xs[0].key, ys[0].key, Print(before, xs[0].value) + rest, Print(before, ys[0].value) + other);
      PrintDecodes(before, xs[0].value, ys[0].value, rest, other);
      assert rest[1..] == other[1..];
      if xs[1..] != [] {
        MembersDecode(before, v, w, xs[1..], ys[1..], s, t);
      } else {
        assert rest[1..] == s && other[1..] == t;
      }
      assert forall i | 1 <= i < |xs| :: xs[i] == xs[1..][i - 1];
      assert forall i | 1 <= i < |ys| :: ys[i] == ys[1..][i - 1];
    }
  }

  lemma FirstMemberDecodes(k: Text, l: Text, s: Text, t: Text)
    requires Quoted(k) + ([COLON] + s) == Quoted(l) + ([COLON] + t)
    ensures k == l && s == t
  {
    QuotedDecodes(k, l, [COLON] + s, [COLON] + t);
    assert ([COLON] + s)[1..] == s && ([COLON] + t)[1..] == t;
  }

  // ---------------------------------------------------------------- equal values print alike

  /** All object keys, at every depth, come from the given set. */
  predicate Over(keys: set<Text>, v: Json) {
    match v
    case Array(items) => forall x | x in items :: Over(keys, x)
    case Object(members) => forall m | m in members :: m.key in keys && Over(keys, m.value)
    case _ => true
  }

  predicate IsStrictOrder(before: Order, keys: set<Text>) {
    && (forall a, b | a in keys && b in keys && before(a, b) :: !before(b, a))
    && (forall a, b, c | a in keys && b in keys && c in keys && before(a, b) && before(b, c) :: before(a, c))
  }

  /** What a comparison function gives: a strict order in which collating alike is an equivalence. */
  predicate IsCollation(before: Order, keys: set<Text>) {
    && (forall a, b | a in keys && b in keys && before(a, b) :: !before(b, a))
    && (forall a, b, c | a in keys && b in keys && c in keys && before(a, c) :: before(a, b) || before(b, c))
  }

  /** No two different keys collate alike, unless one of them is an array index. */
  predicate IsUntied(before: Order, keys: set<Text>) {
    forall a, b | a in keys && b in keys && a != b ::
      before(a, b) || before(b, a) || ArrayIndex(a).Some? || ArrayIndex(b).Some?
  }

  predicate Tied(before: Order, a: Text, b: Text) {
    !before(a, b) && !before(b, a)
  }

  /** By collation, and in the order of own properties among keys that collate alike. */
  function Refined(before: Order): Order {
    (a: Text, b: Text) => before(a, b) || (Tied(before, a, b) && OwnOrder(a, b))
  }

  predicate Ascending(before: Order, ms: seq<Member>) {
    forall i, j | 0 <= i < j < |ms| :: before(ms[i].key, ms[j].key)
  }

  predicate KeysIn(keys: set<Text>, ms: seq<Member>) {
    forall m | m in ms :: m.key in keys
  }

  // ---- array indices

  lemma {:induction false} DecimalGrows(t: Text)
    requires IsDecimal(t)
    ensures Decimal(t) > 0 || |t| == 1
    ensures |t| > 1 ==> IsDecimal(t[..|t| - 1]) && Decimal(t) >= 10
    ensures |t| == 1 ==> Decimal(t) == t[0] - 0x30
    decreases |t|
  {
    if |t| > 1 {
      DecimalGrows(t[..|t| - 1]);
    } else {
      assert t[..0] == [];
    }
  }

  /** Different canonical decimals are different numbers. */
  lemma {:induction false} DecimalDecides(a: Text, b: Text)
    requires IsDecimal(a) && IsDecimal(b) && Decimal(a) == Decimal(b)
    ensures a == b
    decreases |a|
  {
    DecimalGrows(a);
    DecimalGrows(b);
    if |a| > 1 && |b| > 1 {
      DecimalDecides(a[..|a| - 1], b[..|b| - 1]);
      assert a == a[..|a| - 1] + [a[|a| - 1]] && b == b[..|b| - 1] + [b[|b| - 1]];
    }
  }

  lemma OwnOrderDecides(a: Text, b: Text)
    requires a != b && (ArrayIndex(a).Some? || ArrayIndex(b).Some?)
    ensures OwnOrder(a, b) || OwnOrder(b, a)
  {
    if ArrayIndex(a).Some? && ArrayIndex(b).Some? && Decimal(a) == Decimal(b) {
      DecimalDecides(a, b);
    }
  }

  lemma OwnOrderIsCollation(keys: set<Text>)
    ensures IsCollation(OwnOrder, keys)
  {
  }

  lemma RefinedIsStrict(before: Order, keys: set<Text>)
    requires IsCollation(before, keys)
    ensures IsStrictOrder(Refined(before), keys)
  {
    forall a, b, c | a in keys && b in keys && c in keys && Refined(before)(a, b) && Refined(before)(b, c)
      ensures Refined(before)(a, c)
    {
      RefinedIsTransitive(before, keys, a, b, c);
    }
  }

  lemma RefinedIsTransitive(before: Order, keys: set<Text>, a: Text, b: Text, c: Text)
    requires IsCollation(before, keys) && a in keys && b in keys && c in keys
    requires Refined(before)(a, b) && Refined(before)(b, c)
    ensures Refined(before)(a, c)
  {
    assert before(a, b) ==> before(a, c) || before(c, b);
    assert before(b, c) ==> before(b, a) || before(a, c);
    assert before(c, a) ==> before(c, b) || before(b, a);
    assert before(a, c) ==> before(a, b) || before(b, c);
  }

  // ---- stable sorting

  /** Earlier members come first by `before`, and by `own` among those that collate alike. */
  predicate Layered(before: Order, own: Order, ms: seq<Member>) {
    forall i, j | 0 <= i < j < |ms| :: Precedes(before, own, ms[i].key, ms[j].key)
  }

  predicate Precedes(before: Order, own: Order, a: Text, b: Text) {
    before(a, b) || (Tied(before, a, b) && own(a, b))
  }

  lemma NothingBefore(before: Order, keys: set<Text>, own: Order, x: Text, first: Text, y: Text)
    requires IsCollation(before, keys) && x in keys && first in keys && y in keys
    requires !before(first, x) && (y == first || Precedes(before, own, first, y)) && (Tied(before, x, y) ==> own(x, y))
    ensures Precedes(before, own, x, y)
  {
    assert before(y, x) ==> before(y, first) || before(first, x);
  }

  lemma {:induction false} InsertLayers(before: Order, keys: set<Text>, own: Order, m: Member, ms: seq<Member>)
    requires IsCollation(before, keys) && m.key in keys && KeysIn(keys, ms) && Layered(before, own, ms)
    requires forall x | x in ms :: Tied(before, m.key, x.key) ==> own(m.key, x.key)
    ensures Layered(before, own, Insert(ByKey(before), m, ms))
    decreases |ms|
  {
    var le := ByKey(before);
    if ms != [] && !le(m, ms[0]) {
      var rest := Insert(le, m, ms[1..]);
      InsertLayers(before, keys, own, m, ms[1..]);
      InsertMembers(le, m, ms[1..]);
      forall j | 0 <= j < |rest|
        ensures Precedes(before, own, ms[0].key, rest[j].key)
      {
        assert rest[j] in rest;
        if rest[j] != m {
          var i :| 0 <= i < |ms| - 1 && ms[1..][i] == rest[j];
          assert Precedes(before, own, ms[0].key, ms[i + 1].key);
        }
      }
      LayerFront(before, own, ms[0], rest);
    } else {
      forall j | 0 <= j < |ms|
        ensures Precedes(before, own, m.key, ms[j].key)
      {
        assert ms[0] in ms && ms[j] in ms;
        NothingBefore(before, keys, own, m.key, ms[0].key, ms[j].key);
      }
      LayerFront(before, own, m, ms);
    }
  }

  lemma LayerFront(before: Order, own: Order, m: Member, ms: seq<Member>)
    requires Layered(before, own, ms) && forall j | 0 <= j < |ms| :: Precedes(before, own, m.key, ms[j].key)
    ensures Layered(before, own, [m] + ms)
  {
    var r := [m] + ms;
    forall i, j | 0 <= i < j < |r|
      ensures Precedes(before, own, r[i].key, r[j].key)
    {
      assert r[j] == ms[j - 1] && (i > 0 ==> r[i] == ms[i - 1]);
    }
  }

  lemma {:induction false} SortLayers(before: Order, keys: set<Text>, own: Order, ms: seq<Member>)
    requires IsCollation(before, keys) && KeysIn(keys, ms)
    requires forall i, j | 0 <= i < j < |ms| && Tied(before, ms[i].key, ms[j].key) :: own(ms[i].key, ms[j].key)
    ensures Layered(before, own, Sort(ByKey(before), ms))
    decreases |ms|
  {
    if ms != [] {
      var rest := Sort(ByKey(before), ms[1..]);
      SortLayers(before, keys, own, ms[1..]);
      SortMembers(ByKey(before), ms[1..]);
      assert ms[0] in ms;
      forall x | x in rest
        ensures Tied(before, ms[0].key, x.key) ==> own(ms[0].key, x.key)
      {
        var i :| 0 <= i < |ms| - 1 && ms[1..][i] == x;
        assert ms[i + 1] == x;
      }
      InsertLayers(before, keys, own, ms[0], rest);
    }
  }

  /** What Object.entries gives is ascending among keys of which one is an array index. */
  lemma EntriesAscend(keys: set<Text>, ms: seq<Member>, i: nat, j: nat)
    requires KeysIn(keys, ms) && DistinctKeys(ms) && i < j < |ms|
    requires var e := EntriesOf(ms); ArrayIndex(e[i].key).Some? || ArrayIndex(e[j].key).Some?
    ensures OwnOrder(EntriesOf(ms)[i].key, EntriesOf(ms)[j].key)
  {
    var e := EntriesOf(ms);
    var any: Order := (_, _) => true;
    OwnOrderIsCollation(keys);
    SortLayers(OwnOrder, keys, any, ms);
    SortKeepsKeys(OwnOrder, ms);
    assert Precedes(OwnOrder, any, e[i].key, e[j].key);
    OwnOrderDecides(e[i].key, e[j].key);
  }

  lemma SortKeepsKeys(before: Order, ms: seq<Member>)
    requires DistinctKeys(ms)
    ensures DistinctKeys(Sort(ByKey(before), ms))
  {
    var r := Sort(ByKey(before), ms);
    SortMembers(ByKey(before), ms);
    KeyCount(ms);
    assert Keys(r) == Keys(ms);
    CountedKeys(r);
  }

  lemma SortedAscends(before: Order, keys: set<Text>, ms: seq<Member>)
    requires IsCollation(before, keys) && IsUntied(before, keys) && KeysIn(keys, ms) && DistinctKeys(ms)
    ensures Ascending(Refined(before), Sorted(before, ms))
  {
    var e := EntriesOf(ms);
    SortMembers(ByKey(OwnOrder), ms);
    SortKeepsKeys(OwnOrder, ms);
    forall i, j | 0 <= i < j < |e| && Tied(before, e[i].key, e[j].key)
      ensures OwnOrder(e[i].key, e[j].key)
    {
      assert e[i] in ms && e[j] in ms;
      EntriesAscend(keys, ms, i, j);
    }
    SortLayers(before, keys, OwnOrder, e);
    var r := Sorted(before, ms);
    forall i, j | 0 <= i < j < |r|
      ensures Refined(before)(r[i].key, r[j].key)
    {
      assert Precedes(before, OwnOrder, r[i].key, r[j].key);
    }
  }

  function Keys(ms: seq<Member>): set<Text> {
    set m | m in ms :: m.key
  }

  lemma {:induction false} KeyCount(ms: seq<Member>)
    requires DistinctKeys(ms)
    ensures |Keys(ms)| == |ms|
    decreases |ms|
  {
    if ms != [] {
      var n := |ms| - 1;
      KeyCount(ms[..n]);
      assert ms == ms[..n] + [ms[n]];
      assert Keys(ms) == Keys(ms[..n]) + {ms[n].key};
    }
  }

  lemma {:induction false} KeysAtMost(ms: seq<Member>)
    ensures |Keys(ms)| <= |ms|
    decreases |ms|
  {
    if ms != [] {
      var n := |ms| - 1;
      KeysAtMost(ms[..n]);
      assert ms == ms[..n] + [ms[n]];
      assert Keys(ms) == Keys(ms[..n]) + {ms[n].key};
    }
  }

  /** As many keys as members: no key repeats. */
  lemma {:induction false} CountedKeys(ms: seq<Member>)
    requires |Keys(ms)| == |ms|
    ensures DistinctKeys(ms)
    decreases |ms|
  {
    if ms != [] {
      var n := |ms| - 1;
      assert ms == ms[..n] + [ms[n]];
      assert Keys(ms) == Keys(ms[..n]) + {ms[n].key};
      KeysAtMost(ms[..n]);
      CountedKeys(ms[..n]);
      forall i | 0 <= i < n
        ensures ms[i].key != ms[n].key
      {
        assert ms[..n][i] in ms[..n];
      }
    }
  }

  /** Ascending lists over the same keys have them in the same places. */
  lemma {:induction false} SameOrder(before: Order, keys: set<Text>, x: seq<Member>, y: seq<Member>)
    requires IsStrictOrder(before, keys) && KeysIn(keys, x) && KeysIn(keys, y)
    requires Ascending(before, x) && Ascending(before, y) && |x| == |y| && Keys(x) == Keys(y)
    ensures forall i | 0 <= i < |x| :: x[i].key == y[i].key
    decreases |x|
  {
    if x != [] {
      var n := |x| - 1;
      LastIsGreatest(before, keys, x, y);
      LastIsGreatest(before, keys, y, x);
      assert x[n] in x && y[n] in y;
      assert x[n].key == y[n].key;
      ButLast(before, keys, x);
      ButLast(before, keys, y);
      FrontAscends(before, keys, x);
      FrontAscends(before, keys, y);
      SameOrder(before, keys, x[..n], y[..n]);
    }
  }

  lemma FrontAscends(before: Order, keys: set<Text>, x: seq<Member>)
    requires KeysIn(keys, x) && Ascending(before, x) && x != []
    ensures KeysIn(keys, x[..|x| - 1]) && Ascending(before, x[..|x| - 1])
  {
  }

  lemma LastIsGreatest(before: Order, keys: set<Text>, x: seq<Member>, y: seq<Member>)
    requires IsStrictOrder(before, keys) && KeysIn(keys, x) && KeysIn(keys, y)
    requires Ascending(before, x) && x != [] && Keys(x) == Keys(y)
    ensures forall m | m in y :: m.key == x[|x| - 1].key || before(m.key, x[|x| - 1].key)
  {
    forall m | m in y
      ensures m.key == x[|x| - 1].key || before(m.key, x[|x| - 1].key)
    {
      assert m.key in Keys(x);
      var o :| o in x && o.key == m.key;
      var i :| 0 <= i < |x| && x[i] == o;
    }
  }

  lemma ButLast(before: Order, keys: set<Text>, x: seq<Member>)
    requires IsStrictOrder(before, keys) && KeysIn(keys, x) && Ascending(before, x) && x != []
    ensures Keys(x[..|x| - 1]) == Keys(x) - {x[|x| - 1].key}
  {
    var n := |x| - 1;
    assert x == x[..n] + [x[n]];
    forall m | m in x[..n]
      ensures m.key != x[n].key
    {
      var i :| 0 <= i < n && x[..n][i] == m;
      assert x[i] in x && x[n] in x;
    }
  }

  /** Equal objects, sorted, pair up member by member. */
  lemma PairUp(before: Order, keys: set<Text>, v: Json, w: Json)
    requires IsCollation(before, keys) && IsUntied(before, keys) && v.Object? && w.Object?
    requires IsJson(v) && IsJson(w) && Over(keys, v) && Over(keys, w) && SameValue(v, w)
    ensures var x, y := Sorted(before, v.members), Sorted(before, w.members);
            |x| == |y| && forall i | 0 <= i < |x| :: x[i].key == y[i].key && SameValue(x[i].value, y[i].value)
  {
    var x, y := Sorted(before, v.members), Sorted(before, w.members);
    KeyCount(v.members);
    KeyCount(w.members);
    forall k | k in Keys(v.members)
      ensures k in Keys(w.members)
    {
      var m :| m in v.members && m.key == k;
      var n :| n in w.members && n.key == m.key && SameValue(m.value, n.value);
    }
    SubsetOfSameSize(Keys(v.members), Keys(w.members));
    assert Keys(x) == Keys(v.members) && Keys(y) == Keys(w.members);
    SortedAscends(before, keys, v.members);
    SortedAscends(before, keys, w.members);
    RefinedIsStrict(before, keys);
    SameOrder(Refined(before), keys, x, y);
    forall i | 0 <= i < |x|
      ensures SameValue(x[i].value, y[i].value)
    {
      assert x[i] in v.members && y[i] in w.members;
      PartnerIsUnique(v, w, x[i], y[i]);
    }
  }

  lemma PartnerIsUnique(v: Json, w: Json, m: Member, n: Member)
    requires v.Object? && w.Object? && SameValue(v, w) && DistinctKeys(w.members)
    requires m in v.members && n in w.members && m.key == n.key
    ensures SameValue(m.value, n.value)
  {
    var o :| o in w.members && o.key == m.key && SameValue(m.value, o.value);
    var i :| 0 <= i < |w.members| && w.members[i] == n;
    var j :| 0 <= j < |w.members| && w.members[j] == o;
    assert i == j;
  }

  lemma {:induction false} SameValuesPrintAlike(before: Order, keys: set<Text>, v: Json, w: Json)
    requires IsCollation(before, keys) && IsUntied(before, keys)
    requires IsJson(v) && IsJson(w) && Over(keys, v) && Over(keys, w) && SameValue(v, w)
    ensures Print(before, v) == Print(before, w)
    decreases v, 1, 0
  {
    if v.Array? {
      ItemsPrintAlike(before, keys, v, w, v.items, w.items);
    } else if v.Object? {
      PairUp(before, keys, v, w);
      SortedMembersOf(before, v);
      SortedMembersOf(before, w);
      var x, y := Sorted(before, v.members), Sorted(before, w.members);
      assert forall m | m in x :: m in v.members;
      assert forall m | m in y :: m in w.members;
      MembersPrintAlike(before, keys, v, w, x, y);
    }
  }

  lemma {:induction false} ItemsPrintAlike(before: Order, keys: set<Text>, v: Json, w: Json, xs: seq<Json>,
                                           ys: seq<Json>)
    requires IsCollation(before, keys) && IsUntied(before, keys) && ItemsOf(v, xs) && ItemsOf(w, ys) && |xs| == |ys|
    requires forall x | x in xs :: IsJson(x) && Over(keys, x)
    requires forall y | y in ys :: IsJson(y) && Over(keys, y)
    requires forall i | 0 <= i < |xs| :: SameValue(xs[i], ys[i])
    ensures PrintItems(before, v, xs) == PrintItems(before, w, ys)
    decreases v, 0, |xs|
  {
    if xs != [] {
      SameValuesPrintAlike(before, keys, xs[0], ys[0]);
      ItemsPrintAlike(before, keys, v, w, xs[1..], ys[1..]);
    }
  }

  ghost predicate MembersOver(keys: set<Text>, ms: seq<Member>) {
    forall m | m in ms :: IsJson(m.value) && Over(keys, m.value)
  }

  ghost predicate Paired(xs: seq<Member>, ys: seq<Member>) {
    |xs| == |ys| && forall i | 0 <= i < |xs| :: xs[i].key == ys[i].key && SameValue(xs[i].value, ys[i].value)
  }

  lemma PairedTail(keys: set<Text>, xs: seq<Member>, ys: seq<Member>)
    requires xs != [] && Paired(xs, ys) && MembersOver(keys, xs) && MembersOver(keys, ys)
    ensures Paired(xs[1..], ys[1..]) && MembersOver(keys, xs[1..]) && MembersOver(keys, ys[1..])
    ensures IsJson(xs[0].value) && IsJson(ys[0].value) && Over(keys, xs[0].value) && Over(keys, ys[0].value)
  {
    assert xs[0] in xs && ys[0] in ys;
  }

  lemma {:induction false} MembersPrintAlike(before: Order, keys: set<Text>, v: Json, w: Json, xs: seq<Member>,
                                             ys: seq<Member>)
    requires IsCollation(before, keys) && IsUntied(before, keys) && MembersOf(v, xs) && MembersOf(w, ys)
    requires MembersOver(keys, xs) && MembersOver(keys, ys) && Paired(xs, ys)
    ensures PrintMembers(before, v, xs) == PrintMembers(before, w, ys)
    decreases v, 0, |xs|
  {
    if xs != [] {
      PairedTail(keys, xs, ys);
      SameValuesPrintAlike(before, keys, xs[0].value, ys[0].value);
      MembersPrintAlike(before, keys, v, w, xs[1..], ys[1..]);
      PrintMembersStep(before, v, xs);
      PrintMembersStep(before, w, ys);
    }
  }

  // ---------------------------------------------------------------- the printed text as a key

  /** Equal text never comes from different values, whatever the collation. */
  lemma TextDeterminesValue(before: Order, v: Json, w: Json)
    requires IsJson(v) && IsJson(w) && Print(before, v) == Print(before, w)
    ensures SameValue(v, w)
  {
    assert Print(before, v) + [] == Print(before, w) + [];
    PrintDecodes(before, v, w, [], []);
  }

  /** Over the given keys, printed text is equal exactly for equal values. */
  ghost predicate IsFaithful(before: Order, keys: set<Text>) {
    forall v, w | IsJson(v) && IsJson(w) && Over(keys, v) && Over(keys, w) ::
      Print(before, v) == Print(before, w) <==> SameValue(v, w)
  }

  /** Two different keys that collate alike, neither an array index, leak the insertion order into the text. */
  lemma TiedKeysLeak(before: Order, keys: set<Text>, a: Text, b: Text) returns (v: Json, w: Json)
    requires a in keys && b in keys && a != b && Tied(before, a, b) && ArrayIndex(a).None? && ArrayIndex(b).None?
    ensures IsJson(v) && IsJson(w) && Over(keys, v) && Over(keys, w)
    ensures SameValue(v, w) && Print(before, v) != Print(before, w)
  {
    var x, y := Member(a, Null), Member(b, Null);
    v, w := Object([x, y]), Object([y, x]);
    SwappedIsSame(keys, x, y);
    TiedStaySorted(before, x, y);
    TiedStaySorted(before, y, x);
    OrderShows(before, v, w, [x, y], [y, x]);
  }

  lemma SwappedIsSame(keys: set<Text>, x: Member, y: Member)
    requires x.value == Null && y.value == Null && x.key != y.key && x.key in keys && y.key in keys
    ensures var v, w := Object([x, y]), Object([y, x]);
            IsJson(v) && IsJson(w) && Over(keys, v) && Over(keys, w) && SameValue(v, w)
  {
    forall m | m in [x, y]
      ensures exists n :: n in [y, x] && n.key == m.key && SameValue(m.value, n.value)
    {
      assert m in [y, x];
    }
  }

  /** Objects whose sorted members differ in their first key print differently. */
  lemma OrderShows(before: Order, v: Json, w: Json, xs: seq<Member>, ys: seq<Member>)
    requires v.Object? && w.Object? && Sorted(before, v.members) == xs && Sorted(before, w.members) == ys
    requires xs != [] && ys != [] && xs[0].key != ys[0].key && IsJson(v) && IsJson(w)
    ensures Print(before, v) != Print(before, w)
  {
    if Print(before, v) == Print(before, w) {
      ObjectText(before, v, []);
      ObjectText(before, w, []);
      assert Print(before, v) + [] == Print(before, w) + [];
      MembersDecode(before, v, w, xs, ys, [], []);
    }
  }

  lemma TiedStaySorted(before: Order, x: Member, y: Member)
    requires !before(y.key, x.key) && ArrayIndex(y.key).None?
    ensures Sorted(before, [x, y]) == [x, y]
  {
    SortsPair(OwnOrder, x, y);
    SortsPair(before, x, y);
  }

  lemma SortsPair(before: Order, x: Member, y: Member)
    requires !before(y.key, x.key)
    ensures Sort(ByKey(before), [x, y]) == [x, y]
  {
    assert [x, y][1..] == [y] && [y][1..] == [];
    assert Sort(ByKey(before), [y]) == [y];
  }

  lemma FaithfulWhenUntied(before: Order, keys: set<Text>)
    requires IsCollation(before, keys) && IsUntied(before, keys)
    ensures IsFaithful(before, keys)
  {
    forall v, w | IsJson(v) && IsJson(w) && Over(keys, v) && Over(keys, w)
      ensures Print(before, v) == Print(before, w) <==> SameValue(v, w)
    {
      if Print(before, v) == Print(before, w) {
        TextDeterminesValue(before, v, w);
      }
      if SameValue(v, w) {
        SameValuesPrintAlike(before, keys, v, w);
      }
    }
  }

  /** The printed text is a faithful key over a set of keys if and only if no two of them collate alike, array
      indices excepted. */
  lemma FaithfulIffUntied(before: Order, keys: set<Text>)
    requires IsCollation(before, keys)
    ensures IsFaithful(before, keys) <==> IsUntied(before, keys)
  {
    if IsUntied(before, keys) {
      FaithfulWhenUntied(before, keys);
    } else {
      var a, b :| a in keys && b in keys && a != b && Tied(before, a, b) && ArrayIndex(a).None? && ArrayIndex(b).None?;
      var v, w := TiedKeysLeak(before, keys, a, b);
    }
  }
}
