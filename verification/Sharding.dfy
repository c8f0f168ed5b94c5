/**
 The longest-first greedy sharder of scripts/test-suite.ts.

 `shardTestFiles` sorts the files by falling size and puts each on a lightest shard.  Placements are
 studied as assignments: `a[i]` is the shard of the i-th file of the sorted list.  The main result is
 Graham's bound for longest-first list scheduling: with m shards, no shard is heavier than
 4/3 - 1/(3m) times the heaviest shard of any other distribution of the same files to m shards.
 */
module Sharding {
  import opened Basics
  import opened Sorting

  // ---------------------------------------------------------------- assignments and loads

  function Sum(ws: seq<nat>): nat {
    if ws == [] then 0 else Sum(ws[..|ws| - 1]) + ws[|ws| - 1]
  }

  /** What the assignment `a` puts on shard `s`. */
  function Load(ws: seq<nat>, a: seq<nat>, s: nat): nat
    requires |ws| == |a|
  {
    if ws == [] then 0
    else Load(ws[..|ws| - 1], a[..|a| - 1], s) + if a[|a| - 1] == s then ws[|ws| - 1] else 0
  }

  predicate Assigns(a: seq<nat>, n: nat, m: nat) {
    |a| == n && forall i | 0 <= i < n :: a[i] < m
  }

  predicate FallingSizes(ws: seq<nat>) {
    forall i, j | 0 <= i < j < |ws| :: ws[j] <= ws[i]
  }

  /** The load of shard `s` when the i-th file is about to be placed. */
  function LoadBefore(ws: seq<nat>, a: seq<nat>, i: nat, s: nat): nat
    requires |ws| == |a| && i <= |ws|
  {
    Load(ws[..i], a[..i], s)
  }

  predicate LightestAt(ws: seq<nat>, a: seq<nat>, m: nat, i: nat)
    requires |ws| == |a| && i < |a|
  {
    var load := LoadBefore(ws, a, i, a[i]);
    forall s: nat | s < m :: load <= LoadBefore(ws, a, i, s)
  }

  /** Each file went to a shard that was lightest when it was placed. */
  predicate PlacedOnLightest(ws: seq<nat>, a: seq<nat>, m: nat)
    requires |ws| == |a|
  {
    forall i | 0 <= i < |ws| :: LightestAt(ws, a, m, i)
  }

  function TotalLoad(ws: seq<nat>, a: seq<nat>, m: nat): nat
    requires |ws| == |a|
  {
    if m == 0 then 0 else TotalLoad(ws, a, m - 1) + Load(ws, a, m - 1)
  }

  lemma {:induction false} TotalLoadStep(ws: seq<nat>, a: seq<nat>, m: nat)
    requires |ws| == |a| && ws != []
    ensures TotalLoad(ws, a, m)
            == TotalLoad(ws[..|ws| - 1], a[..|a| - 1], m) + if a[|a| - 1] < m then ws[|ws| - 1] else 0
    decreases m
  {
    if m > 0 {
      TotalLoadStep(ws, a, m - 1);
    }
  }

  lemma {:induction false} NoFilesNoLoad(m: nat)
    ensures TotalLoad([], [], m) == 0
  {
    if m > 0 {
      NoFilesNoLoad(m - 1);
    }
  }

  /** Every file is on exactly one shard, so the loads add up to the files. */
  lemma {:induction false} LoadsAddUp(ws: seq<nat>, a: seq<nat>, m: nat)
    requires Assigns(a, |ws|, m)
    ensures TotalLoad(ws, a, m) == Sum(ws)
    decreases |ws|
  {
    if ws == [] {
      NoFilesNoLoad(m);
    } else {
      TotalLoadStep(ws, a, m);
      LoadsAddUp(ws[..|ws| - 1], a[..|a| - 1], m);
    }
  }

  lemma {:induction false} TotalAtMost(ws: seq<nat>, a: seq<nat>, m: nat, c: nat)
    requires |ws| == |a| && forall s | 0 <= s < m :: Load(ws, a, s) <= c
    ensures TotalLoad(ws, a, m) <= m * c
    decreases m
  {
    if m > 0 {
      TotalAtMost(ws, a, m - 1, c);
      assert m * c == (m - 1) * c + c;
    }
  }

  lemma {:induction false} TotalAtLeast(ws: seq<nat>, a: seq<nat>, m: nat, c: nat)
    requires |ws| == |a| && forall s | 0 <= s < m :: c <= Load(ws, a, s)
    ensures m * c <= TotalLoad(ws, a, m)
    decreases m
  {
    if m > 0 {
      TotalAtLeast(ws, a, m - 1, c);
      assert m * c == (m - 1) * c + c;
    }
  }

  lemma {:induction false} PrefixLoad(ws: seq<nat>, a: seq<nat>, i: nat, s: nat)
    requires |ws| == |a| && i <= |ws|
    ensures Load(ws[..i], a[..i], s) <= Load(ws, a, s)
    decreases |ws|
  {
    if i == |ws| {
      assert ws[..i] == ws && a[..i] == a;
    } else {
      var n := |ws| - 1;
      PrefixLoad(ws[..n], a[..n], i, s);
      assert ws[..n][..i] == ws[..i] && a[..n][..i] == a[..i];
    }
  }

  // ---------------------------------------------------------------- the approximation bound

  /** 2 for a file that fits beside no file of size `p` within capacity `c`, 1 for any other. */
  function Units(ws: seq<nat>, p: nat, c: nat): (r: seq<nat>)
    ensures |r| == |ws|
  {
    seq(|ws|, i requires 0 <= i < |ws| => if ws[i] + p > c then 2 else 1)
  }

  lemma UnitsPrefix(ws: seq<nat>, p: nat, c: nat, i: nat)
    requires i <= |ws|
    ensures Units(ws, p, c)[..i] == Units(ws[..i], p, c)
  {
  }

  /** A shard with at most one unit still has room for a file of size `p`. */
  lemma {:induction false} FewUnitsLeaveRoom(ws: seq<nat>, a: seq<nat>, s: nat, p: nat, c: nat)
    requires |ws| == |a| && p <= c
    ensures Load(Units(ws, p, c), a, s) == 0 ==> Load(ws, a, s) == 0
    ensures Load(Units(ws, p, c), a, s) <= 1 ==> Load(ws, a, s) + p <= c
    decreases |ws|
  {
    if ws != [] {
      UnitsPrefix(ws, p, c, |ws| - 1);
      FewUnitsLeaveRoom(ws[..|ws| - 1], a[..|a| - 1], s, p, c);
    }
  }

  /** When all files exceed a third of the capacity, three units on one shard overfill it. */
  lemma {:induction false} ThreeUnitsOverfill(ws: seq<nat>, b: seq<nat>, s: nat, p: nat, c: nat)
    requires |ws| == |b| && 3 * p > c && forall i | 0 <= i < |ws| :: p <= ws[i]
    ensures var units, load := Load(Units(ws, p, c), b, s), Load(ws, b, s);
            && (units >= 1 ==> load >= p)
            && (units >= 2 ==> load >= 2 * p || load + p > c)
            && (units >= 3 ==> load > c)
    decreases |ws|
  {
    if ws != [] {
      UnitsPrefix(ws, p, c, |ws| - 1);
      ThreeUnitsOverfill(ws[..|ws| - 1], b[..|b| - 1], s, p, c);
    }
  }

  lemma SumOfPrefix(ws: seq<nat>, j: nat)
    requires j < |ws|
    ensures Sum(ws[..j + 1]) == Sum(ws[..j]) + ws[j]
  {
    assert ws[..j + 1][..j] == ws[..j];
  }

  /**
   A large file always fits on the lightest shard: if it did not, every shard would hold two units, and
   no distribution could then have placed the file within the capacity.
   */
  lemma LargeFileFits(ws: seq<nat>, a: seq<nat>, b: seq<nat>, m: nat, c: nat, j: nat)
    requires Assigns(a, |ws|, m) && PlacedOnLightest(ws, a, m) && Assigns(b, |ws|, m) && j < |ws|
    requires FallingSizes(ws) && 3 * ws[j] > c && forall s | 0 <= s < m :: Load(ws, b, s) <= c
    ensures Load(ws[..j], a[..j], a[j]) + ws[j] <= c
  {
    var p, before, upto, other := ws[j], ws[..j], ws[..j + 1], b[..j + 1];
    forall s | 0 <= s < m
      ensures Load(upto, other, s) <= c && Load(Units(upto, p, c), other, s) <= 2
    {
      PrefixLoad(ws, b, j + 1, s);
      ThreeUnitsOverfill(upto, other, s, p, c);
    }
    assert p <= c by {
      assert upto[..j] == before && other[..j] == b[..j];
      assert Load(upto, other, b[j]) == Load(before, b[..j], b[j]) + p;
    }
    if Load(before, a[..j], a[j]) + p > c {
      forall s | 0 <= s < m
        ensures 2 <= Load(Units(before, p, c), a[..j], s)
      {
        assert LightestAt(ws, a, m, j) && LoadBefore(ws, a, j, s) == Load(before, a[..j], s);
        FewUnitsLeaveRoom(before, a[..j], s, p, c);
      }
      var units := Units(ws, p, c);
      UnitsPrefix(ws, p, c, j);
      UnitsPrefix(ws, p, c, j + 1);
      TotalAtLeast(units[..j], a[..j], m, 2);
      LoadsAddUp(units[..j], a[..j], m);
      TotalAtMost(units[..j + 1], b[..j + 1], m, 2);
      LoadsAddUp(units[..j + 1], b[..j + 1], m);
      SumOfPrefix(units, j);
    }
  }

  /** List scheduling: m times the finishing load is bounded by the capacity plus the last file. */
  lemma LastFileBound(ws: seq<nat>, a: seq<nat>, b: seq<nat>, m: nat, c: nat, j: nat)
    requires Assigns(a, |ws|, m) && PlacedOnLightest(ws, a, m) && Assigns(b, |ws|, m) && j < |ws|
    requires forall s | 0 <= s < m :: Load(ws, b, s) <= c
    ensures m * Load(ws[..j], a[..j], a[j]) + ws[j] <= m * c
  {
    var upto, other := ws[..j + 1], b[..j + 1];
    forall s | 0 <= s < m
      ensures Load(upto, other, s) <= c
    {
      PrefixLoad(ws, b, j + 1, s);
    }
    TotalAtMost(upto, other, m, c);
    LoadsAddUp(upto, other, m);
    forall s | 0 <= s < m
      ensures Load(ws[..j], a[..j], a[j]) <= Load(ws[..j], a[..j], s)
    {
      assert LightestAt(ws, a, m, j) && LoadBefore(ws, a, j, s) == Load(ws[..j], a[..j], s);
    }
    TotalAtLeast(ws[..j], a[..j], m, Load(ws[..j], a[..j], a[j]));
    LoadsAddUp(ws[..j], a[..j], m);
    SumOfPrefix(ws, j);
  }

  /** The last file of a shard, and the load it was put on; -1 for an empty shard. */
  lemma {:induction false} LastFileOf(ws: seq<nat>, a: seq<nat>, s: nat) returns (j: int)
    requires |ws| == |a|
    ensures -1 <= j < |ws|
    ensures j == -1 ==> Load(ws, a, s) == 0
    ensures j >= 0 ==> a[j] == s && Load(ws, a, s) == Load(ws[..j], a[..j], s) + ws[j]
    decreases |ws|
  {
    var n := |ws| - 1;
    if ws == [] {
      j := -1;
    } else if a[n] == s {
      j := n;
    } else {
      j := LastFileOf(ws[..n], a[..n], s);
      if j >= 0 {
        assert ws[..n][..j] == ws[..j] && a[..n][..j] == a[..j];
      }
    }
  }

  lemma MulMono(k: nat, x: nat, y: nat)
    requires x <= y
    ensures k * x <= k * y
  {
  }

  lemma BoundFromLastFile(m: nat, c: nat, before: nat, p: nat)
    requires m > 0 && m * before + p <= m * c
    requires 3 * p <= c || before + p <= c
    ensures 3 * (m * (before + p)) <= (4 * m - 1) * c
  {
    var k := m - 1;
    assert (4 * m - 1) * c == 3 * (m * c) + k * c;
    if 3 * p <= c {
      MulMono(k, 3 * p, c);
      assert k * (3 * p) == 3 * (k * p);
      assert m * (before + p) == m * before + p + k * p;
    } else {
      MulMono(m, before + p, c);
    }
  }

  /** Graham's bound: 3m times any greedy load is at most 4m - 1 times the capacity any distribution needs. */
  lemma LongestFirstBound(ws: seq<nat>, a: seq<nat>, b: seq<nat>, m: nat, c: nat, s: nat)
    requires FallingSizes(ws) && Assigns(a, |ws|, m) && PlacedOnLightest(ws, a, m) && s < m
    requires Assigns(b, |ws|, m) && forall t | 0 <= t < m :: Load(ws, b, t) <= c
    ensures 3 * (m * Load(ws, a, s)) <= (4 * m - 1) * c
  {
    var j := LastFileOf(ws, a, s);
    if j >= 0 {
      LastFileBound(ws, a, b, m, c, j);
      if 3 * ws[j] > c {
        LargeFileFits(ws, a, b, m, c, j);
      }
      BoundFromLastFile(m, c, Load(ws[..j], a[..j], s), ws[j]);
    } else {
      assert m * Load(ws, a, s) == 0;
    }
  }

  /** Two shards differ by at most the last file of the heavier one. */
  lemma GapIsOneFile(ws: seq<nat>, a: seq<nat>, m: nat, s: nat, t: nat)
    requires Assigns(a, |ws|, m) && PlacedOnLightest(ws, a, m) && s < m && t < m
    ensures Load(ws, a, s) <= Load(ws, a, t) || exists j ::
            0 <= j < |ws| && a[j] == s && Load(ws, a, s) - Load(ws, a, t) <= ws[j]
  {
    var j := LastFileOf(ws, a, s);
    if j >= 0 {
      PrefixLoad(ws, a, j, t);
      assert LightestAt(ws, a, m, j) && LoadBefore(ws, a, j, t) == Load(ws[..j], a[..j], t);
    }
  }

  // ---------------------------------------------------------------- files and shards

  /** The sharder's order: larger first, ties by name as the locale collates. */
  function SizeOrder(size: string -> nat, collates: (string, string) -> bool): (string, string) -> bool {
    (x, y) => size(x) > size(y) || (size(x) == size(y) && collates(x, y))
  }

  function Sizes(size: string -> nat, files: seq<string>): (r: seq<nat>)
    ensures |r| == |files|
  {
    seq(|files|, i requires 0 <= i < |files| => size(files[i]))
  }

  lemma {:induction false} InsertFalling(size: string -> nat, collates: (string, string) -> bool, x: string,
                                         xs: seq<string>)
    requires FallingSizes(Sizes(size, xs))
    ensures FallingSizes(Sizes(size, Insert(SizeOrder(size, collates), x, xs)))
    decreases |xs|
  {
    var le := SizeOrder(size, collates);
    if xs != [] && !le(x, xs[0]) {
      var rest := Insert(le, x, xs[1..]);
      assert FallingSizes(Sizes(size, xs[1..])) by {
        assert forall i | 0 <= i < |xs| - 1 :: Sizes(size, xs[1..])[i] == Sizes(size, xs)[i + 1];
      }
      InsertFalling(size, collates, x, xs[1..]);
      forall k | 0 <= k < |rest|
        ensures size(rest[k]) <= size(xs[0])
      {
        assert rest[k] in multiset(rest);
        if rest[k] != x {
          assert rest[k] in xs[1..];
          var i :| 0 <= i < |xs| - 1 && xs[1..][i] == rest[k];
          assert Sizes(size, xs)[i + 1] <= Sizes(size, xs)[0];
        }
      }
      AddFront(size, xs[0], rest);
    } else {
      forall k | 0 <= k < |xs|
        ensures size(xs[k]) <= size(x)
      {
        assert Sizes(size, xs)[k] <= Sizes(size, xs)[0];
      }
      AddFront(size, x, xs);
    }
  }

  lemma AddFront(size: string -> nat, x: string, xs: seq<string>)
    requires FallingSizes(Sizes(size, xs)) && forall k | 0 <= k < |xs| :: size(xs[k]) <= size(x)
    ensures FallingSizes(Sizes(size, [x] + xs))
  {
    var a, b := Sizes(size, [x] + xs), Sizes(size, xs);
    assert forall i | 0 < i < |a| :: a[i] == b[i - 1];
  }

  lemma {:induction false} SortFalling(size: string -> nat, collates: (string, string) -> bool, xs: seq<string>)
    ensures FallingSizes(Sizes(size, Sort(SizeOrder(size, collates), xs)))
    decreases |xs|
  {
    if xs != [] {
      SortFalling(size, collates, xs[1..]);
      InsertFalling(size, collates, xs[0], Sort(SizeOrder(size, collates), xs[1..]));
    }
  }

  function Weight(size: string -> nat, files: seq<string>): nat {
    if files == [] then 0 else Weight(size, files[..|files| - 1]) + size(files[|files| - 1])
  }

  /** All files of all shards, with multiplicity. */
  function Contents(shards: seq<seq<string>>): multiset<string> {
    if shards == [] then multiset{} else Contents(shards[..|shards| - 1]) + multiset(shards[|shards| - 1])
  }

  predicate Distributes(shards: seq<seq<string>>, files: seq<string>) {
    Contents(shards) == multiset(files)
  }

  function Without<T>(xs: seq<T>, i: nat): (r: seq<T>)
    requires i < |xs|
    ensures multiset(xs) == multiset(r) + multiset{xs[i]}
  {
    assert xs == xs[..i] + [xs[i]] + xs[i + 1..];
    xs[..i] + xs[i + 1..]
  }

  lemma TakeOne<T>(all: multiset<T>, rest: multiset<T>, x: T)
    requires all == rest + multiset{x}
    ensures rest == all - multiset{x}
  {
  }

  lemma {:induction false} WeightWithout(size: string -> nat, files: seq<string>, i: nat)
    requires i < |files|
    ensures Weight(size, files) == Weight(size, Without(files, i)) + size(files[i])
    decreases |files|
  {
    var n := |files| - 1;
    if i == n {
      assert Without(files, i) == files[..n];
    } else {
      WeightWithout(size, files[..n], i);
      assert Without(files, i)[..n - 1] == Without(files[..n], i);
      assert Without(files, i)[n - 1] == files[n];
    }
  }

  lemma {:induction false} WeightOfPermutation(size: string -> nat, x: seq<string>, y: seq<string>)
    requires multiset(x) == multiset(y)
    ensures Weight(size, x) == Weight(size, y)
    decreases |x|
  {
    assert |multiset(x)| == |x| && |multiset(y)| == |y|;
    if x != [] {
      var n := |x| - 1;
      assert x == x[..n] + [x[n]];
      assert x[n] in multiset(y);
      var i :| 0 <= i < |y| && y[i] == x[n];
      WeightWithout(size, y, i);
      TakeOne(multiset(x), multiset(x[..n]), x[n]);
      TakeOne(multiset(y), multiset(Without(y, i)), x[n]);
      WeightOfPermutation(size, x[..n], Without(y, i));
    }
  }

  lemma {:induction false} ContentsUpdate(shards: seq<seq<string>>, s: nat, files: seq<string>)
    requires s < |shards|
    ensures Contents(shards[s := files]) + multiset(shards[s]) == Contents(shards) + multiset(files)
    decreases |shards|
  {
    var n, next := |shards| - 1, shards[s := files];
    if s < n {
      ContentsUpdate(shards[..n], s, files);
      assert next[..n] == shards[..n][s := files];
      Regroup(Contents(next[..n]), multiset(shards[s]), Contents(shards[..n]), multiset(files), multiset(shards[n]));
    } else {
      assert next[..n] == shards[..n];
    }
  }

  lemma {:induction false} FindIn(shards: seq<seq<string>>, x: string) returns (s: nat, i: nat)
    requires x in Contents(shards)
    ensures s < |shards| && i < |shards[s]| && shards[s][i] == x
    decreases |shards|
  {
    var n := |shards| - 1;
    if x in shards[n] {
      s := n;
      i :| 0 <= i < |shards[n]| && shards[n][i] == x;
    } else {
      s, i := FindIn(shards[..n], x);
    }
  }

  lemma RemoveOne<T>(all: multiset<T>, fewer: multiset<T>, shard: multiset<T>, less: multiset<T>, front: multiset<T>,
                     x: T)
    requires all == front + multiset{x} && shard == less + multiset{x} && fewer + shard == all + less
    ensures fewer == front
  {
    forall y
      ensures fewer[y] == front[y]
    {
      assert (fewer + shard)[y] == (all + less)[y];
    }
  }

  /** Every distribution of the listed files to shards is an assignment of the list with the same loads. */
  lemma {:induction false} AssignmentOf(size: string -> nat, files: seq<string>, shards: seq<seq<string>>)
    returns (b: seq<nat>)
    requires Distributes(shards, files)
    ensures Assigns(b, |files|, |shards|)
    ensures forall s: nat | s < |shards| :: Load(Sizes(size, files), b, s) == Weight(size, shards[s])
    decreases |files|
  {
    if files == [] {
      b := [];
      NothingToDistribute(size, shards);
    } else {
      var n := |files| - 1;
      assert files == files[..n] + [files[n]];
      var s, i := FindIn(shards, files[n]);
      var fewer := shards[s := Without(shards[s], i)];
      ContentsUpdate(shards, s, Without(shards[s], i));
      RemoveOne(Contents(shards), Contents(fewer), multiset(shards[s]), multiset(Without(shards[s], i)),
        multiset(files[..n]), files[n]);
      var rest := AssignmentOf(size, files[..n], fewer);
      b := rest + [s];
      WeightWithout(size, shards[s], i);
      assert Sizes(size, files)[..n] == Sizes(size, files[..n]) && b[..n] == rest;
      forall t: nat | t < |shards|
        ensures Load(Sizes(size, files), b, t) == Weight(size, shards[t])
      {
        assert Load(Sizes(size, files[..n]), rest, t) == Weight(size, fewer[t]);
      }
    }
  }

  lemma {:induction false} NothingToDistribute(size: string -> nat, shards: seq<seq<string>>)
    requires Contents(shards) == multiset{}
    ensures forall s: nat | s < |shards| :: Weight(size, shards[s]) == 0
    decreases |shards|
  {
    if shards != [] {
      var n := |shards| - 1;
      assert multiset(shards[n]) == multiset{} && Contents(shards[..n]) == multiset{};
      assert |shards[n]| == |multiset(shards[n])|;
      NothingToDistribute(size, shards[..n]);
    }
  }

  // ---------------------------------------------------------------- shardTestFiles

  datatype Shard = Shard(files: seq<string>, weight: nat)

  function ShardCount(files: nat, requested: int): nat {
    var wanted := if requested < 1 then 1 else requested;
    if wanted < files then wanted else files
  }

  /** The reduce of the loop: the first of the lightest shards. */
  method Lightest(shards: seq<Shard>) returns (k: nat)
    requires shards != []
    ensures k < |shards|
    ensures forall s: nat | s < |shards| :: shards[k].weight <= shards[s].weight
    ensures forall s: nat | s < k :: shards[k].weight < shards[s].weight
  {
    k := 0;
    for i := 1 to |shards|
      invariant k < i
      invariant forall s: nat | s < i :: shards[k].weight <= shards[s].weight
      invariant forall s: nat | s < k :: shards[k].weight < shards[s].weight
    {
      if shards[i].weight < shards[k].weight {
        k := i;
      }
    }
  }

  function FilesOf(shards: seq<Shard>): (r: seq<seq<string>>)
    ensures |r| == |shards|
  {
    seq(|shards|, s requires 0 <= s < |shards| => shards[s].files)
  }

  /** The shards hold the placed files as the assignment says, and record their own weight. */
  ghost predicate Placed(size: string -> nat, files: seq<string>, shards: seq<Shard>, a: seq<nat>) {
    && Assigns(a, |files|, |shards|) && PlacedOnLightest(Sizes(size, files), a, |shards|)
    && Distributes(FilesOf(shards), files)
    && (forall j | 0 <= j < |files| :: files[j] in shards[a[j]].files)
    && forall s: nat | s < |shards| ::
         Weight(size, shards[s].files) == shards[s].weight == Load(Sizes(size, files), a, s)
  }

  lemma PlaceStep(size: string -> nat, files: seq<string>, x: string, shards: seq<Shard>, a: seq<nat>, k: nat)
    requires Placed(size, files, shards, a) && k < |shards|
    requires forall s: nat | s < |shards| :: shards[k].weight <= shards[s].weight
    ensures Placed(size, files + [x], shards[k := Shard(shards[k].files + [x], shards[k].weight + size(x))], a + [k])
  {
    var had, has := shards[k].files, shards[k].files + [x];
    var next := shards[k := Shard(has, shards[k].weight + size(x))];
    PlacedOneMore(size, files, x, a, k, |shards|);
    assert has[..|had|] == had;
    ContentsGrow(files, x, shards, next, k);
  }

  lemma ContentsGrow(files: seq<string>, x: string, shards: seq<Shard>, next: seq<Shard>, k: nat)
    requires k < |shards| && Contents(FilesOf(shards)) == multiset(files)
    requires |next| == |shards| && next[k].files == shards[k].files + [x]
    requires forall s | 0 <= s < |shards| && s != k :: next[s] == shards[s]
    ensures Contents(FilesOf(next)) == multiset(files + [x])
  {
    var had, has := shards[k].files, shards[k].files + [x];
    ContentsUpdate(FilesOf(shards), k, has);
    assert FilesOf(next) == FilesOf(shards)[k := has];
    AddOne(multiset(files), Contents(FilesOf(next)), multiset(had), multiset(has), x);
  }

  lemma AddOne<T>(all: multiset<T>, next: multiset<T>, had: multiset<T>, has: multiset<T>, x: T)
    requires has == had + multiset{x} && next + had == all + has
    ensures next == all + multiset{x}
  {
    forall y
      ensures next[y] == (all + multiset{x})[y]
    {
      assert (next + had)[y] == (all + has)[y];
    }
  }

  lemma NothingPlaced(size: string -> nat, count: nat, shards: seq<Shard>)
    requires |shards| == count && forall s | 0 <= s < count :: shards[s] == Shard([], 0)
    ensures Placed(size, [], shards, [])
  {
    EmptyShards(FilesOf(shards));
  }

  /** One turn of the loop: the file goes to the first of the lightest shards. */
  method PlaceOne(size: string -> nat, x: string, shards: seq<Shard>, ghost files: seq<string>, ghost a: seq<nat>)
    returns (next: seq<Shard>, ghost b: seq<nat>)
    requires shards != [] && Placed(size, files, shards, a)
    ensures |next| == |shards| && Placed(size, files + [x], next, b)
  {
    var k := Lightest(shards);
    PlaceStep(size, files, x, shards, a, k);
    next := shards[k := Shard(shards[k].files + [x], shards[k].weight + size(x))];
    b := a + [k];
  }

  method PlaceInOrder(size: string -> nat, files: seq<string>, count: nat)
        returns (shards: seq<Shard>, ghost a: seq<nat>)
    requires count > 0
    ensures |shards| == count && Placed(size, files, shards, a)
  {
    shards := seq(count, _ => Shard([], 0));
    a := [];
    ghost var done: seq<string> := [];
    NothingPlaced(size, count, shards);
    for i := 0 to |files|
      invariant |shards| == count && done == files[..i] && Placed(size, done, shards, a)
    {
      shards, a := PlaceOne(size, files[i], shards, done, a);
      done := done + [files[i]];
    }
    assert done == files;
  }

  lemma {:induction false} EmptyShards(shards: seq<seq<string>>)
    requires forall s | 0 <= s < |shards| :: shards[s] == []
    ensures Contents(shards) == multiset{}
    decreases |shards|
  {
    if shards != [] {
      EmptyShards(shards[..|shards| - 1]);
    }
  }

  lemma PlacedOneMore(size: string -> nat, files: seq<string>, x: string, a: seq<nat>, k: nat, m: nat)
    requires Assigns(a, |files|, m) && k < m && PlacedOnLightest(Sizes(size, files), a, m)
    requires forall s: nat | s < m :: Load(Sizes(size, files), a, k) <= Load(Sizes(size, files), a, s)
    ensures PlacedOnLightest(Sizes(size, files + [x]), a + [k], m)
    ensures forall s: nat | s < m ::
              Load(Sizes(size, files + [x]), a + [k], s)
              == Load(Sizes(size, files), a, s) + if s == k then size(x) else 0
  {
    var n, ws, more, b := |files|, Sizes(size, files), Sizes(size, files + [x]), a + [k];
    assert more[..n] == ws && b[..n] == a;
    forall i | 0 <= i < n + 1
      ensures LightestAt(more, b, m, i)
    {
      assert more[..i] == ws[..i] && b[..i] == a[..i];
      if i < n {
        assert LightestAt(ws, a, m, i);
        forall s: nat | s < m
          ensures LoadBefore(more, b, i, b[i]) <= LoadBefore(more, b, i, s)
        {
          assert LoadBefore(ws, a, i, a[i]) <= LoadBefore(ws, a, i, s);
        }
      } else {
        assert ws[..n] == ws && a[..n] == a;
      }
    }
  }

  /** The default string order: code unit by code unit, a prefix first. */
  predicate NameOrder(x: string, y: string) {
    x == [] || (y != [] && (x[0] < y[0] || (x[0] == y[0] && NameOrder(x[1..], y[1..]))))
  }

  lemma {:induction false} NameOrderLaws(x: string, y: string, z: string)
    ensures NameOrder(x, y) || NameOrder(y, x)
    ensures NameOrder(x, y) && NameOrder(y, z) ==> NameOrder(x, z)
    decreases |x|
  {
    if x != [] && y != [] {
      NameOrderLaws(x[1..], y[1..], if z == [] then [] else z[1..]);
    }
  }

  predicate Ascending(names: seq<string>) {
    forall i, j | 0 <= i < j < |names| :: NameOrder(names[i], names[j])
  }

  lemma {:induction false} InsertAscending(x: string, xs: seq<string>)
    requires Ascending(xs)
    ensures Ascending(Insert(NameOrder, x, xs))
    decreases |xs|
  {
    var r := Insert(NameOrder, x, xs);
    if xs != [] && !NameOrder(x, xs[0]) {
      InsertAscending(x, xs[1..]);
      forall j | 0 < j < |r|
        ensures NameOrder(r[0], r[j])
      {
        assert r[j] in multiset(Insert(NameOrder, x, xs[1..]));
        NameOrderLaws(x, xs[0], []);
      }
    } else if xs != [] {
      forall j | 0 <= j < |xs|
        ensures NameOrder(x, xs[j])
      {
        NameOrderLaws(x, xs[0], xs[j]);
      }
    }
  }

  lemma {:induction false} SortAscending(names: seq<string>)
    ensures Ascending(Sort(NameOrder, names))
    decreases |names|
  {
    if names != [] {
      SortAscending(names[1..]);
      InsertAscending(names[0], Sort(NameOrder, names[1..]));
    }
  }

  predicate Within(size: string -> nat, shards: seq<seq<string>>, c: nat) {
    forall t: nat | t < |shards| :: Weight(size, shards[t]) <= c
  }

  /** No shard is heavier than 4/3 - 1/(3m) times what any other distribution to m shards needs. */
  ghost predicate NearOptimal(size: string -> nat, files: seq<string>, shards: seq<seq<string>>) {
    var m := |shards|;
    forall other: seq<seq<string>>, c: nat | |other| == m && Distributes(other, files) && Within(size, other, c) ::
      forall s: nat | s < m :: 3 * (m * Weight(size, shards[s])) <= (4 * m - 1) * c
  }

  /** Any two shards differ by at most the size of one file of the heavier one. */
  ghost predicate Balanced(size: string -> nat, shards: seq<seq<string>>) {
    forall s: nat, t: nat | s < |shards| && t < |shards| && Weight(size, shards[s]) > Weight(size, shards[t]) ::
      exists x :: x in shards[s] && Weight(size, shards[s]) - Weight(size, shards[t]) <= size(x)
  }

  lemma PlacedIsNearOptimal(size: string -> nat, files: seq<string>, sorted: seq<string>, shards: seq<Shard>,
                            a: seq<nat>)
    requires Placed(size, sorted, shards, a) && FallingSizes(Sizes(size, sorted)) && multiset(sorted) == multiset(files)
    ensures NearOptimal(size, files, FilesOf(shards))
  {
    var m, ws := |shards|, Sizes(size, sorted);
    forall other: seq<seq<string>>, c: nat, s: nat |
      |other| == m && Distributes(other, files) && Within(size, other, c) && s < m
      ensures 3 * (m * Weight(size, FilesOf(shards)[s])) <= (4 * m - 1) * c
    {
      var b := AssignmentOf(size, sorted, other);
      assert forall t: nat | t < m :: Load(ws, b, t) == Weight(size, other[t]) <= c;
      LongestFirstBound(ws, a, b, m, c, s);
    }
  }

  lemma PlacedIsBalanced(size: string -> nat, files: seq<string>, shards: seq<Shard>, a: seq<nat>)
    requires Placed(size, files, shards, a)
    ensures Balanced(size, FilesOf(shards))
  {
    var r := FilesOf(shards);
    forall s: nat, t: nat | s < |r| && t < |r| && Weight(size, r[s]) > Weight(size, r[t])
      ensures exists x :: x in r[s] && Weight(size, r[s]) - Weight(size, r[t]) <= size(x)
    {
      GapIsOneFile(Sizes(size, files), a, |shards|, s, t);
      var j :| 0 <= j < |files| && a[j] == s && Weight(size, r[s]) - Weight(size, r[t]) <= Sizes(size, files)[j];
      assert files[j] in r[s];
    }
  }

  /** Sorting the names inside each shard keeps what the shards are. */
  lemma {:induction false} SortingShardsKeepsContents(x: seq<seq<string>>, y: seq<seq<string>>)
    requires |x| == |y| && forall s | 0 <= s < |x| :: multiset(y[s]) == multiset(x[s])
    ensures Contents(y) == Contents(x)
    decreases |x|
  {
    if x != [] {
      var n := |x| - 1;
      assert multiset(y[n]) == multiset(x[n]);
      SortingShardsKeepsContents(x[..n], y[..n]);
    }
  }

  lemma SortingShardsKeepsLoads(size: string -> nat, files: seq<string>, x: seq<seq<string>>, y: seq<seq<string>>)
    requires |x| == |y| && forall s | 0 <= s < |x| :: multiset(y[s]) == multiset(x[s])
    requires NearOptimal(size, files, x) && Balanced(size, x)
    ensures NearOptimal(size, files, y) && Balanced(size, y)
  {
    forall s: nat | s < |x|
      ensures Weight(size, y[s]) == Weight(size, x[s])
    {
      WeightOfPermutation(size, y[s], x[s]);
    }
    forall s: nat, t: nat | s < |y| && t < |y| && Weight(size, y[s]) > Weight(size, y[t])
      ensures exists f :: f in y[s] && Weight(size, y[s]) - Weight(size, y[t]) <= size(f)
    {
      var f :| f in x[s] && Weight(size, x[s]) - Weight(size, x[t]) <= size(f);
      assert f in multiset(y[s]);
    }
  }

  function SortedShards(placed: seq<Shard>): (r: seq<seq<string>>)
    ensures |r| == |placed|
  {
    seq(|placed|, s requires 0 <= s < |placed| => Sort(NameOrder, placed[s].files))
  }

  lemma ShardsAreGood(size: string -> nat, files: seq<string>, sorted: seq<string>, placed: seq<Shard>, a: seq<nat>)
    requires Placed(size, sorted, placed, a) && FallingSizes(Sizes(size, sorted)) && multiset(sorted) == multiset(files)
    ensures Distributes(SortedShards(placed), files)
    ensures Balanced(size, SortedShards(placed)) && NearOptimal(size, files, SortedShards(placed))
    ensures forall s | 0 <= s < |placed| :: Ascending(SortedShards(placed)[s])
  {
    PlacedIsNearOptimal(size, files, sorted, placed, a);
    PlacedIsBalanced(size, sorted, placed, a);
    SortingShardsKeepsContents(FilesOf(placed), SortedShards(placed));
    SortingShardsKeepsLoads(size, files, FilesOf(placed), SortedShards(placed));
    forall s | 0 <= s < |placed|
      ensures Ascending(SortedShards(placed)[s])
    {
      SortAscending(placed[s].files);
    }
  }

  /** shardTestFiles: every file in exactly one shard, shards within one file of each other, near-optimal. */
  method ShardTestFiles(size: string -> nat, collates: (string, string) -> bool, files: seq<string>, requested: int)
    returns (shards: seq<seq<string>>)
    ensures |shards| == ShardCount(|files|, requested)
    ensures Distributes(shards, files)
    ensures Balanced(size, shards) && NearOptimal(size, files, shards)
    ensures forall s | 0 <= s < |shards| :: Ascending(shards[s])
  {
    var count := ShardCount(|files|, requested);
    if count == 0 {
      return [];
    }
    var weighted := Sort(SizeOrder(size, collates), files);
    var placed, a := PlaceInOrder(size, weighted, count);
    SortFalling(size, collates, files);
    ShardsAreGood(size, files, weighted, placed, a);
    shards := SortedShards(placed);
  }
}
